/** What parsing and printing promise together. */
module JsonTheorems {
  import opened JsonValues
  import opened JsonTokener
  import opened JsonRoundTrip
  import opened JsonContainers

  // ---------------------------------------------------------------- round trip

  /** A fresh tokener on a NUL-terminated text. */
  function ParseText(cfg: Config, text: string): Parsed {
    Exec(cfg, FreshTok(), text + [NUL])
  }

  lemma FinishTop(cfg: Config, run: Runner, t: Tok, v: Json)
    requires Runs(run, cfg)
    requires t.below == [] && t.top == Level(EatWs, Finish, v, "")
    ensures run(t, [NUL]) == Parsed(Goto(t, Finish), Success, [NUL])
  {
    assert [NUL] + [] == [NUL];
    Resume(cfg, run, t, NUL, []);
    var t1 := Goto(t, Finish);
    ExecStop(cfg, run, t1, NUL, [], t1, Success);
  }

  /** Every value of null, booleans, 64-bit integers, byte strings, arrays and objects, printed
      with any flags and parsed in any mode, comes back equal when its nesting fits the
      tokener, and is refused for its depth exactly when it does not. */
  lemma PrintParseRoundTrip(cfg: Config, v: Json, f: Flags)
    requires Printable(v) && cfg.maxDepth >= 1
    ensures var r := ParseText(cfg, Print(v, 0, f));
      if Nest(v) < cfg.maxDepth
      then r.err == Success && r.rest == [NUL] && Top(r.t).current == Norm(v) && Equal(v, Norm(v))
      else r.err == Depth
  {
    var run, t := Calls(cfg), FreshTok();
    CallsRun(cfg);
    var t' := ReadValue(cfg, run, t, v, 0, f, [NUL]);
    if Nest(v) < cfg.maxDepth {
      FinishTop(cfg, run, t', Norm(v));
      NormEqual(v);
    }
  }

  lemma {:induction false} NormEqual(v: Json)
    requires Printable(v)
    ensures Equal(v, Norm(v))
    decreases v, 1
  {
    match v
    case Arr(items) => NormItemsEqual(items);
    case Obj(fields) =>
      NormFieldsEqual(fields, fields, 0);
      NormNames(fields);
      forall j | 0 <= j < |fields| ensures FindName(fields, NormFields(fields)[j].name) >= 0 {
        assert NormFields(fields)[j].name == fields[j].name;
      }
    case _ =>
  }

  lemma {:induction false} NormItemsEqual(items: seq<Json>)
    requires PrintableItems(items)
    ensures EqualItems(items, NormItems(items))
    decreases items, 0
  {
    if items != [] {
      NormEqual(items[0]);
      NormItemsEqual(items[1..]);
    }
  }

  lemma {:induction false} NormNames(fields: seq<Field>)
    ensures forall i :: 0 <= i < |fields| ==> NormFields(fields)[i].name == fields[i].name
    ensures forall i :: 0 <= i < |fields| ==> NormFields(fields)[i].value == Norm(fields[i].value)
    decreases |fields|
  {
    if fields != [] {
      NormNames(fields[1..]);
    }
  }

  lemma {:induction false} FindDistinct(fields: seq<Field>, i: nat)
    requires DistinctNames(fields) && i < |fields|
    ensures FindName(fields, fields[i].name) == i
    decreases |fields|
  {
    if i > 0 {
      FindDistinct(fields[1..], i - 1);
    }
  }

  /** The fields from the k-th on; `part` is that suffix. */
  lemma {:induction false} NormFieldsEqual(part: seq<Field>, all: seq<Field>, k: nat)
    requires DistinctNames(all) && k <= |all| && part == all[k..] && PrintableFields(part)
    ensures EqualFields(part, NormFields(all))
    decreases part, 0
  {
    if part != [] {
      var n := NormFields(all);
      NormNames(all);
      assert part[0] == all[k];
      assert DistinctNames(n);
      FindDistinct(n, k);
      NormEqual(part[0].value);
      NormFieldsEqual(part[1..], all, k + 1);
    }
  }

  // ---------------------------------------------------------------- printed text is a C string

  lemma {:induction false} EscapeNoNul(s: string, f: Flags)
    ensures CKey(Escape(s, f))
    decreases |s|
  {
    if s != [] {
      EscapeNoNul(s[1..], f);
      EscapeCharNoNul(s[0], f);
    }
  }

  lemma EscapeCharNoNul(c: char, f: Flags)
    ensures CKey(EscapeChar(c, f))
  {
    if c < ' ' {
      HexDigits(c as int / 16);
      HexDigits(c as int % 16);
    }
  }

  /** Printed text contains no NUL: its C string is all of it, whatever bytes the strings
      hold. */
  lemma {:induction false} PrintNoNul(v: Json, level: nat, f: Flags)
    requires Printable(v)
    ensures CKey(Print(v, level, f))
    decreases v, 1
  {
    match v
    case Str(s) => EscapeNoNul(s, f);
    case Arr(items) => PrintItemsNoNul(items, true, level, f);
    case Obj(fields) => PrintFieldsNoNul(fields, true, level, f);
    case _ =>
  }

  lemma {:induction false} PrintItemsNoNul(items: seq<Json>, first: bool, level: nat, f: Flags)
    requires PrintableItems(items)
    ensures CKey(PrintItems(items, first, level, f))
    decreases items, 0
  {
    if items != [] {
      PrintNoNul(items[0], level + 1, f);
      PrintItemsNoNul(items[1..], false, level, f);
    }
  }

  lemma PrintNameNoNul(name: string, level: nat, f: Flags)
    ensures CKey(PrintName(name, level, f))
  {
    EscapeNoNul(name, f);
  }

  lemma {:induction false} PrintFieldsNoNul(fields: seq<Field>, first: bool, level: nat, f: Flags)
    requires PrintableFields(fields)
    ensures CKey(PrintFields(fields, first, level, f))
    decreases fields, 0
  {
    if fields != [] {
      PrintNameNoNul(fields[0].name, level, f);
      PrintNoNul(fields[0].value, level + 1, f);
      PrintFieldsNoNul(fields[1..], false, level, f);
    }
  }
}
