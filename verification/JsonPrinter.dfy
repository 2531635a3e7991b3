/** The printers as the program runs them: loops that append to a buffer. */
module JsonPrinter {
  import opened Seqs
  import opened JsonValues

  /** The characters that end no run. */
  predicate Runs(c: char, f: Flags) {
    (c == '/' && f.noSlashEscape) || (c >= ' ' && c != '"' && c != '\\' && c != '/')
  }

  lemma RunsAsItIs(c: char, f: Flags)
    requires Runs(c, f)
    ensures EscapeChar(c, f) == [c]
  {
  }

  lemma NothingYet(out: string, s: string, f: Flags)
    ensures EscapedSoFar(out, s[0..0], s[0..], out + Escape(s, f), f)
  {
    assert s[0..] == s && s[0..0] == "" && "" + Escape(s, f) == Escape(s, f);
  }

  lemma AllSeen(out: string, run: string, rest: string, all: string, f: Flags)
    requires EscapedSoFar(out, run, rest, all, f) && rest == ""
    ensures out + run == all
  {
    assert run + Escape(rest, f) == run;
  }

  lemma EscapeNext(s: string, pos: nat, f: Flags)
    requires pos < |s|
    ensures Escape(s[pos..], f) == EscapeChar(s[pos], f) + Escape(s[pos + 1..], f)
  {
    assert s[pos..][1..] == s[pos + 1..];
  }

  /** `out` is what has been appended, `run` the plain characters held back. */
  ghost predicate EscapedSoFar(out: string, run: string, rest: string, all: string, f: Flags) {
    out + (run + Escape(rest, f)) == all
  }

  /** A plain character joins those held back. */
  lemma HoldBack(out: string, s: string, start: nat, pos: nat, all: string, f: Flags)
    requires start <= pos < |s| && Runs(s[pos], f)
    requires EscapedSoFar(out, s[start..pos], s[pos..], all, f)
    ensures EscapedSoFar(out, s[start..pos + 1], s[pos + 1..], all, f)
  {
    EscapeNext(s, pos, f);
    RunsAsItIs(s[pos], f);
    assert s[start..pos + 1] == s[start..pos] + [s[pos]];
    Assoc(s[start..pos], [s[pos]], Escape(s[pos + 1..], f));
  }

  /** An escaped one flushes them. */
  lemma Flush(out: string, s: string, start: nat, pos: nat, all: string, f: Flags)
    requires start <= pos < |s|
    requires EscapedSoFar(out, s[start..pos], s[pos..], all, f)
    ensures EscapedSoFar(out + s[start..pos] + EscapeChar(s[pos], f), s[pos + 1..pos + 1], s[pos + 1..], all, f)
  {
    var held, esc, rest := s[start..pos], EscapeChar(s[pos], f), Escape(s[pos + 1..], f);
    EscapeNext(s, pos, f);
    Assoc(out, held, esc + rest);
    Assoc(out + held, esc, rest);
    assert s[pos + 1..pos + 1] == "" && "" + rest == rest;
  }

  class PrintBuf {
    var buf: string

    constructor ()
      ensures buf == ""
    {
      buf := "";
    }

    method Append(s: string)
      modifies this
      ensures buf == old(buf) + s
    {
      buf := buf + s;
    }

    /** One character that is not copied as it is. */
    method AppendEscape(c: char, f: Flags)
      requires !Runs(c, f)
      modifies this
      ensures buf == old(buf) + EscapeChar(c, f)
    {
      if c == '\U{8}' { Append("\\b"); }
      else if c == '\n' { Append("\\n"); }
      else if c == '\r' { Append("\\r"); }
      else if c == '\t' { Append("\\t"); }
      else if c == '\U{c}' { Append("\\f"); }
      else if c == '"' { Append("\\\""); }
      else if c == '\\' { Append("\\\\"); }
      else if c == '/' { Append("\\/"); }
      else { Append("\\u00" + [HEX[c as int / 16], HEX[c as int % 16]]); }
    }

    /** The run held back, and the character that ends it. */
    method FlushRun(s: string, start: nat, pos: nat, f: Flags, ghost all: string)
      requires start <= pos < |s| && !Runs(s[pos], f)
      requires EscapedSoFar(buf, s[start..pos], s[pos..], all, f)
      modifies this
      ensures EscapedSoFar(buf, s[pos + 1..pos + 1], s[pos + 1..], all, f)
    {
      Flush(buf, s, start, pos, all, f);
      AppendRun(s[start..pos]);
      AppendEscape(s[pos], f);
    }

    method AppendRun(run: string)
      modifies this
      ensures buf == old(buf) + run
    {
      if |run| > 0 {
        Append(run);
      } else {
        assert buf + run == buf;
      }
    }

    /** Plain characters are copied in runs, everything else is escaped one by one. */
    method EscapeStr(s: string, f: Flags)
      modifies this
      ensures buf == old(buf) + Escape(s, f)
    {
      var pos, start := 0, 0;
      ghost var all := buf + Escape(s, f);
      NothingYet(buf, s, f);
      while pos < |s|
        invariant 0 <= start <= pos <= |s|
        invariant EscapedSoFar(buf, s[start..pos], s[pos..], all, f)
      {
        if Runs(s[pos], f) {
          HoldBack(buf, s, start, pos, all, f);
          pos := pos + 1;
        } else {
          FlushRun(s, start, pos, f, all);
          pos := pos + 1;
          start := pos;
        }
      }
      AllSeen(buf, s[start..pos], s[pos..], all, f);
      AppendRun(s[start..pos]);
    }

    method AppendIndent(level: nat, f: Flags)
      modifies this
      ensures buf == old(buf) + Indent(level, f)
    {
      if f.pretty {
        if f.prettyTab {
          Append(Repeat('\t', level));
        } else {
          Append(Repeat(' ', level * 2));
        }
      } else {
        assert buf + "" == buf;
      }
    }

    /** Comma and white space before an element. */
    method AppendSeparator(hadChildren: bool, level: nat, f: Flags)
      modifies this
      ensures buf == old(buf) + ((if hadChildren then "," else "") + Gap(level, f))
    {
      ghost var out := buf;
      if hadChildren { Append(","); }
      if f.pretty { Append("\n"); }
      if f.spaced && !f.pretty { Append(" "); }
      AppendIndent(level + 1, f);
      ghost var comma, line := if hadChildren then "," else "",
                               if f.pretty then "\n" else if f.spaced then " " else "";
      assert buf == out + comma + line + Indent(level + 1, f);
      Assoc(out + comma, line, Indent(level + 1, f));
      Assoc(out, comma, Gap(level, f));
    }

    /** White space before a closing bracket, and the bracket. */
    method AppendClose(hadChildren: bool, bracket: char, level: nat, f: Flags)
      modifies this
      ensures buf == old(buf) + (CloseGap(level, f, !hadChildren) + [bracket])
    {
      if f.pretty && hadChildren {
        Append("\n");
        AppendIndent(level, f);
      }
      if f.spaced && !f.pretty {
        Append(" " + [bracket]);
      } else {
        Append([bracket]);
      }
    }

    method AppendName(name: string, level: nat, f: Flags)
      modifies this
      ensures buf == old(buf) + ("\"" + Escape(name, f) + "\":" + (if f.spaced then " " else ""))
    {
      ghost var out := buf;
      Append("\"");
      EscapeStr(name, f);
      Append(if f.spaced then "\": " else "\":");
      Quoted(out, Escape(name, f), if f.spaced then "\": " else "\":");
      assert if f.spaced then "\": " == "\":" + " " else "\":" == "\":" + "";
      Assoc("\"" + Escape(name, f), "\":", if f.spaced then " " else "");
    }

    /** _to_json_string of a value. */
    method PrintValue(v: Json, level: nat, f: Flags)
      modifies this
      ensures buf == old(buf) + Print(v, level, f)
      decreases v, 1
    {
      match v {
        case Null => Append("null");
        case Bool(b) => Append(if b then "true" else "false");
        case Int(i) => Append(if i < 0 then "-" + Decimal(-i) else Decimal(i));
        case UInt(u) => Append(Decimal(u));
        case Double(text) => Append(text);
        case Str(s) =>
          ghost var out := buf;
          Append("\"");
          EscapeStr(s, f);
          Append("\"");
          Quoted(out, Escape(s, f), "\"");
        case Arr(items) => PrintArray(items, level, f);
        case Obj(fields) => PrintObject(fields, level, f);
      }
    }

    method PrintArray(items: seq<Json>, level: nat, f: Flags)
      modifies this
      ensures buf == old(buf) + ("[" + PrintItems(items, true, level, f))
      decreases items, 0
    {
      ghost var all := buf + ("[" + PrintItems(items, true, level, f));
      Assoc(buf, "[", PrintItems(items, true, level, f));
      Append("[");
      var ii := 0;
      assert items[0..] == items;
      while ii < |items|
        invariant 0 <= ii <= |items|
        invariant buf + PrintItems(items[ii..], ii == 0, level, f) == all
      {
        ItemsNext(buf, items, ii, level, f);
        AppendSeparator(ii > 0, level, f);
        PrintValue(items[ii], level + 1, f);
        ii := ii + 1;
      }
      AppendClose(ii > 0, ']', level, f);
    }

    /** A field, behind a comma unless it is the first. */
    method PrintField(field: Field, hadChildren: bool, level: nat, f: Flags)
      modifies this
      ensures buf == old(buf) + FieldText(field, hadChildren, level, f)
      decreases field, 0
    {
      FieldParts(buf, field, hadChildren, level, f);
      AppendSeparator(hadChildren, level, f);
      AppendName(field.name, level, f);
      PrintValue(field.value, level + 1, f);
    }

    method PrintObject(fields: seq<Field>, level: nat, f: Flags)
      modifies this
      ensures buf == old(buf) + ("{" + PrintFields(fields, true, level, f))
      decreases fields, 0
    {
      ghost var all := buf + ("{" + PrintFields(fields, true, level, f));
      Assoc(buf, "{", PrintFields(fields, true, level, f));
      Append("{");
      var i := 0;
      assert fields[0..] == fields;
      while i < |fields|
        invariant 0 <= i <= |fields|
        invariant buf + PrintFields(fields[i..], i == 0, level, f) == all
      {
        FieldsNext(buf, fields, i, level, f);
        PrintField(fields[i], i > 0, level, f);
        i := i + 1;
      }
      AppendClose(i > 0, '}', level, f);
    }
  }

  lemma Quoted(out: string, e: string, close: string)
    ensures out + "\"" + e + close == out + ("\"" + e + close)
  {
    Assoc(out, "\"", e);
    Assoc(out, "\"" + e, close);
  }

  lemma ItemsNext(out: string, items: seq<Json>, ii: nat, level: nat, f: Flags)
    requires ii < |items|
    ensures out + PrintItems(items[ii..], ii == 0, level, f) ==
      out + ((if ii > 0 then "," else "") + Gap(level, f)) + Print(items[ii], level + 1, f) +
      PrintItems(items[ii + 1..], false, level, f)
  {
    var sep := (if ii > 0 then "," else "") + Gap(level, f);
    var p, rest := Print(items[ii], level + 1, f), PrintItems(items[ii + 1..], false, level, f);
    assert items[ii..][1..] == items[ii + 1..];
    Assoc(out, sep, p);
    Assoc(out, sep + p, rest);
  }

  ghost function FieldText(field: Field, hadChildren: bool, level: nat, f: Flags): string {
    (if hadChildren then "," else "") + Gap(level, f) +
    ("\"" + Escape(field.name, f) + "\":" + (if f.spaced then " " else "")) + Print(field.value, level + 1, f)
  }

  lemma FieldParts(out: string, field: Field, hadChildren: bool, level: nat, f: Flags)
    ensures out + FieldText(field, hadChildren, level, f) ==
      out + ((if hadChildren then "," else "") + Gap(level, f)) +
      ("\"" + Escape(field.name, f) + "\":" + (if f.spaced then " " else "")) + Print(field.value, level + 1, f)
  {
    var sep := (if hadChildren then "," else "") + Gap(level, f);
    var name := "\"" + Escape(field.name, f) + "\":" + (if f.spaced then " " else "");
    Assoc(out, sep, name);
    Assoc(out, sep + name, Print(field.value, level + 1, f));
  }

  lemma FieldsNext(out: string, fields: seq<Field>, i: nat, level: nat, f: Flags)
    requires i < |fields|
    ensures out + PrintFields(fields[i..], i == 0, level, f) ==
      out + FieldText(fields[i], i > 0, level, f) + PrintFields(fields[i + 1..], false, level, f)
  {
    var comma, gap := if i > 0 then "," else "", Gap(level, f);
    var name := "\"" + Escape(fields[i].name, f) + "\":" + (if f.spaced then " " else "");
    var p, rest := Print(fields[i].value, level + 1, f), PrintFields(fields[i + 1..], false, level, f);
    assert fields[i..][1..] == fields[i + 1..];
    NameText(fields[i].name, level, f);
    Assoc(comma, gap, name);
    Assoc(out, comma + gap + name + p, rest);
  }

  lemma NameText(name: string, level: nat, f: Flags)
    ensures PrintName(name, level, f) ==
      Gap(level, f) + ("\"" + Escape(name, f) + "\":" + (if f.spaced then " " else ""))
  {
    var gap, e, space := Gap(level, f), Escape(name, f), if f.spaced then " " else "";
    Assoc(gap, "\"", e);
    Assoc(gap, "\"" + e, "\":");
    Assoc(gap, "\"" + e + "\":", space);
  }
}
