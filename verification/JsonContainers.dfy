/** Arrays and objects, and the round trip of whole values. */
module JsonContainers {
  import opened Arith
  import opened Seqs
  import opened JsonValues
  import opened JsonTokener
  import opened JsonRoundTrip

  // ---------------------------------------------------------------- which values

  /** Levels needed below a value: none for scalars and empty containers. */
  function Nest(v: Json): nat {
    match v
    case Arr(items) => NestItems(items)
    case Obj(fields) => NestFields(fields)
    case _ => 0
  }

  function NestItems(items: seq<Json>): nat {
    if items == [] then 0 else Max(1 + Nest(items[0]), NestItems(items[1..]))
  }

  function NestFields(fields: seq<Field>): nat {
    if fields == [] then 0 else Max(1 + Nest(fields[0].value), NestFields(fields[1..]))
  }

  predicate CKey(s: string) {
    forall i :: 0 <= i < |s| ==> s[i] != NUL
  }

  /** Integers of 64 bits, no doubles; the names of an object are distinct C strings. */
  predicate Printable(v: Json) {
    match v
    case Int(i) => INT64_MIN <= i <= INT64_MAX
    case UInt(u) => u <= UINT64_MAX
    case Double(_) => false
    case Arr(items) => PrintableItems(items)
    case Obj(fields) => DistinctNames(fields) && PrintableFields(fields)
    case _ => true
  }

  predicate PrintableItems(items: seq<Json>) {
    items != [] ==> Printable(items[0]) && PrintableItems(items[1..])
  }

  predicate PrintableFields(fields: seq<Field>) {
    fields != [] ==>
      CKey(fields[0].name) && Printable(fields[0].value) && PrintableFields(fields[1..])
  }

  /** How a value may begin. */
  predicate Opens(c: char) {
    || c == 'n' || c == 't' || c == 'f' || c == '-' || IsDigit(c)
    || c == '"' || c == '[' || c == '{'
  }

  lemma PrintOpens(v: Json, level: nat, f: Flags)
    requires Printable(v)
    ensures Print(v, level, f) != [] && Opens(Print(v, level, f)[0])
  {
  }

  // ---------------------------------------------------------------- moves between levels

  lemma ExecStop(cfg: Config, run: Runner, t: Tok, c: char, rest: string, t1: Tok, err: Error)
    requires Runs(run, cfg)
    requires Step(cfg, t, c) == Stop(t1, err)
    ensures run(t, [c] + rest) == Out(cfg, t1, err, c, [c] + rest)
  {
    assert Law(run, cfg, t, c, rest);
  }

  /** White space is over: the saved state sees the next character. */
  lemma Resume(cfg: Config, run: Runner, t: Tok, c: char, rest: string)
    requires Runs(run, cfg)
    requires Top(t).state == EatWs && Top(t).saved != EatWs && Solid(cfg, c)
    ensures run(t, [c] + rest) == run(Goto(t, Top(t).saved), [c] + rest)
  {
    ExecRedo(cfg, run, t, c, rest, Goto(t, Top(t).saved));
  }

  predicate Containing(l: Level) {
    (l.state == ArrayAdd && l.current.Arr?) || (l.state == ObjectValueAdd && l.current.Obj?)
  }

  /** The level of a container after a value was added to it. */
  function Added(l: Level, v: Json): Level
    requires Containing(l)
  {
    if l.state == ArrayAdd then Level(EatWs, ArraySep, Arr(l.current.items + [v]), l.field)
    else Level(EatWs, ObjectSep, Obj(SetField(l.current.fields, l.field, v)), "")
  }

  function Popped(t: Tok): Tok
    requires t.below != [] && Containing(t.below[|t.below| - 1])
  {
    var n := |t.below| - 1;
    t.(below := t.below[..n], top := Added(t.below[n], t.top.current))
  }

  lemma PopStep(cfg: Config, t: Tok, c: char)
    requires t.below != [] && Containing(t.below[|t.below| - 1]) && Top(t).state == Finish
    ensures Step(cfg, t, c) == Redo(Popped(t))
  {
  }

  /** A completed element is added to its container; white space may come before. */
  lemma Leave(cfg: Config, run: Runner, t: Tok, ws: string, c: char, rest: string)
    requires Runs(run, cfg)
    requires t.below != [] && Containing(t.below[|t.below| - 1])
    requires Top(t).state == EatWs && Top(t).saved == Finish && Blank(ws) && Solid(cfg, c)
    ensures run(t, ws + ([c] + rest)) == run(Popped(t), ws + ([c] + rest))
  {
    SkipBlank(cfg, run, t, ws, [c] + rest);
    Resume(cfg, run, t, c, rest);
    var t1 := Goto(t, Finish);
    PopStep(cfg, t1, c);
    assert Popped(t1) == Popped(t);
    ExecRedo(cfg, run, t1, c, rest, Popped(t));
    SkipBlank(cfg, run, Popped(t), ws, [c] + rest);
  }

  predicate Waits(s: State, wait: State) {
    ((s == Array || s == ArrayAfterSep) && wait == ArrayAdd) || (s == ObjectValue && wait == ObjectValueAdd)
  }

  function Entered(t: Tok, wait: State): Tok
  {
    var t1 := Goto(t, wait);
    t1.(below := t1.below + [t1.top], top := FRESH_LEVEL)
  }

  lemma EnterStep(cfg: Config, t: Tok, wait: State, c: char)
    requires Waits(Top(t).state, wait) && (wait == ArrayAdd ==> c != ']')
    ensures Step(cfg, t, c) ==
      if Levels(t) < cfg.maxDepth then Redo(Entered(t, wait)) else Stop(t, Depth)
  {
  }

  /** An element begins on a new level, unless the nesting is too deep. */
  lemma Enter(cfg: Config, run: Runner, t: Tok, wait: State, ws: string, c: char, rest: string)
    requires Runs(run, cfg)
    requires Top(t).state == EatWs && Waits(Top(t).saved, wait)
    requires Blank(ws) && Solid(cfg, c) && (wait == ArrayAdd ==> c != ']')
    ensures Levels(t) < cfg.maxDepth ==>
      run(t, ws + ([c] + rest)) == run(Entered(t, wait), [c] + rest)
    ensures Levels(t) >= cfg.maxDepth ==>
      run(t, ws + ([c] + rest)).err == if c == NUL then ParseEof else Depth
  {
    SkipBlank(cfg, run, t, ws, [c] + rest);
    Resume(cfg, run, t, c, rest);
    var t1 := Goto(t, Top(t).saved);
    EnterStep(cfg, t1, wait, c);
    if Levels(t) < cfg.maxDepth {
      assert Entered(t1, wait) == Entered(t, wait);
      ExecRedo(cfg, run, t1, c, rest, Entered(t, wait));
    } else {
      ExecStop(cfg, run, t1, c, rest, t1, Depth);
    }
  }

  // ---------------------------------------------------------------- brackets and separators

  lemma OpenContainer(cfg: Config, run: Runner, t: Tok, c: char, rest: string)
    requires Runs(run, cfg)
    requires Ready(t) && (c == '[' || c == '{')
    ensures run(t, [c] + rest)
         == run(WithTop(t, Level(EatWs, if c == '[' then Array else FieldStart,
                                             if c == '[' then Arr([]) else Obj([]), "")), rest)
  {
    ReadStart(cfg, run, t, c, rest);
    ExecEat(cfg, run, Goto(t, Start), c, rest,
            WithTop(t, Level(EatWs, if c == '[' then Array else FieldStart,
                             if c == '[' then Arr([]) else Obj([]), "")));
  }

  lemma CloseContainer(cfg: Config, run: Runner, t: Tok, ws: string, c: char, rest: string)
    requires Runs(run, cfg)
    requires Top(t).state == EatWs && Blank(ws)
    requires || (c == ']' && (Top(t).saved == Array || Top(t).saved == ArraySep))
             || (c == '}' && (Top(t).saved == FieldStart || Top(t).saved == ObjectSep))
    ensures run(t, ws + ([c] + rest)) == run(Then(t, Finish), rest)
  {
    SkipBlank(cfg, run, t, ws, [c] + rest);
    Resume(cfg, run, t, c, rest);
    var t1 := Goto(t, Top(t).saved);
    assert Then(t1, Finish) == Then(t, Finish);
    ExecEat(cfg, run, t1, c, rest, Then(t, Finish));
  }

  lemma Comma(cfg: Config, run: Runner, t: Tok, next: State, rest: string)
    requires Runs(run, cfg)
    requires Top(t).state == EatWs
    requires (Top(t).saved == ArraySep && next == ArrayAfterSep) ||
             (Top(t).saved == ObjectSep && next == FieldStartAfterSep)
    ensures run(t, "," + rest) == run(Then(t, next), rest)
  {
    Resume(cfg, run, t, ',', rest);
    var t1 := Goto(t, Top(t).saved);
    assert Then(t1, next) == Then(t, next);
    ExecEat(cfg, run, t1, ',', rest, Then(t, next));
  }

  // ---------------------------------------------------------------- elements

  /** A container between two elements. */
  predicate Between(t: Tok, s: State, v: Json) {
    Top(t) == Level(EatWs, s, v, "") && t.high == 0 && t.scan == NotScanning
  }

  /** t' is t with another top level. */
  predicate Replaced(t: Tok, t': Tok, l: Level) {
    t'.below == t.below && t'.top == l && t'.high == 0 && t'.scan == NotScanning
  }

  /** A new element level over a waiting container. */
  predicate Over(t: Tok, t': Tok, l: Level) {
    && Ready(t')
    && t'.below == t.below + [l] && t'.top == FRESH_LEVEL
  }

  lemma EndElement(cfg: Config, run: Runner, t: Tok, t2: Tok, t3: Tok, l: Level, v: Json,
                   ws: string, c: char, rest: string)
    returns (t4: Tok)
    requires Runs(run, cfg)
    requires Over(t, t2, l) && Landed(t2, t3, v) && Containing(l)
    requires Blank(ws) && Solid(cfg, c)
    ensures Replaced(t, t4, Added(l, v))
    ensures run(t3, ws + ([c] + rest)) == run(t4, ws + ([c] + rest))
  {
    assert t3.below[..|t.below|] == t.below;
    Leave(cfg, run, t3, ws, c, rest);
    t4 := Popped(t3);
  }

  lemma SplitComma(p: string, rest: string) returns (more: string)
    requires "," <= p
    ensures p + rest == "" + ([','] + more) && Ends("" + ([','] + more), 2)
  {
    more := p[1..] + rest;
    assert p + rest == [','] + more;
    assert "" + ([','] + more) == [','] + more;
  }

  lemma SplitClose(ws: string, c: char, rest: string)
    requires (ws == "" || ws[0] == ' ' || ws[0] == '\n') && (c == ']' || c == '}')
    ensures ws + [c] + rest == ws + ([c] + rest) && Ends(ws + ([c] + rest), 2)
  {
    Assoc(ws, [c], rest);
  }

  lemma PrintComma(items: seq<Json>, fields: seq<Field>, level: nat, f: Flags)
    ensures items != [] ==> "," <= PrintItems(items, false, level, f)
    ensures fields != [] ==> "," <= PrintFields(fields, false, level, f)
  {
  }

  /** What follows an element: a comma, or white space and the closing bracket. */
  lemma ItemsTail(items: seq<Json>, level: nat, f: Flags, rest: string)
    returns (ws: string, c: char, more: string)
    ensures Blank(ws) && (c == ',' || c == ']')
    ensures PrintItems(items, false, level, f) + rest == ws + ([c] + more)
    ensures Ends(ws + ([c] + more), 2)
  {
    GapsBlank(level, f, false);
    PrintComma(items, [], level, f);
    if items == [] {
      ws, c, more := CloseGap(level, f, false), ']', rest;
      SplitClose(ws, c, rest);
    } else {
      ws, c := "", ',';
      more := SplitComma(PrintItems(items, false, level, f), rest);
    }
  }

  lemma FieldsTail(fields: seq<Field>, level: nat, f: Flags, rest: string)
    returns (ws: string, c: char, more: string)
    ensures Blank(ws) && (c == ',' || c == '}')
    ensures PrintFields(fields, false, level, f) + rest == ws + ([c] + more)
    ensures Ends(ws + ([c] + more), 2)
  {
    GapsBlank(level, f, false);
    PrintComma([], fields, level, f);
    if fields == [] {
      ws, c, more := CloseGap(level, f, false), '}', rest;
      SplitClose(ws, c, rest);
    } else {
      ws, c := "", ',';
      more := SplitComma(PrintFields(fields, false, level, f), rest);
    }
  }

  /** The next array element begins: comma, white space, new level. */
  lemma BeginItem(cfg: Config, run: Runner, t: Tok, done: seq<Json>, first: bool, gap: string,
                  p: string, tail: string)
    returns (t2: Tok, l: Level)
    requires Runs(run, cfg)
    requires Between(t, if first then Array else ArraySep, Arr(done)) && Blank(gap)
    requires p != [] && Opens(p[0])
    ensures Levels(t) < cfg.maxDepth ==>
      && Over(t, t2, l) && l.state == ArrayAdd && l.current == Arr(done) && l.field == ""
      && run(t, (if first then "" else ",") + (gap + (p + tail))) == run(t2, p + tail)
    ensures Levels(t) >= cfg.maxDepth ==>
      run(t, (if first then "" else ",") + (gap + (p + tail))).err == Depth
  {
    var input := gap + (p + tail);
    var t1 := t;
    if first {
      assert "" + input == input;
    } else {
      Comma(cfg, run, t, ArrayAfterSep, input);
      t1 := Then(t, ArrayAfterSep);
    }
    assert p + tail == [p[0]] + (p[1..] + tail);
    Enter(cfg, run, t1, ArrayAdd, gap, p[0], p[1..] + tail);
    t2 := Entered(t1, ArrayAdd);
    l := Top(t1).(state := ArrayAdd);
  }

  // ---------------------------------------------------------------- fields

  lemma KeyIsCString(s: string)
    requires CKey(s)
    ensures CString(s) == s
  {
    NoNul(s);
  }

  lemma {:induction false} NoNul(s: string)
    requires CKey(s)
    ensures IndexOf(s, NUL) == |s|
    decreases |s|
  {
    if s != [] {
      NoNul(s[1..]);
    }
  }

  lemma CloseName(cfg: Config, run: Runner, t: Tok, v: Json, name: string, rest: string)
    requires Runs(run, cfg)
    requires Top(t) == Level(FieldName, Top(t).saved, v, Top(t).field)
    requires CString(t.pb) == name && t.quote != NUL
    ensures run(t, [t.quote] + rest) == run(WithTop(t, Level(EatWs, FieldEnd, v, name)), rest)
  {
    ExecEat(cfg, run, t, t.quote, rest, WithTop(t, Level(EatWs, FieldEnd, v, name)));
  }

  /** A field name in quotes. */
  lemma ReadName(cfg: Config, run: Runner, t: Tok, s: State, v: Json, name: string, gap: string,
                 f: Flags, rest: string)
    returns (t': Tok)
    requires Runs(run, cfg)
    requires Between(t, s, v) && (s == FieldStart || s == FieldStartAfterSep) && Blank(gap) && CKey(name)
    ensures Replaced(t, t', Level(EatWs, FieldEnd, v, name))
    ensures run(t, gap + (['"'] + (Escape(name, f) + (['"'] + rest)))) == run(t', rest)
  {
    var tail := Escape(name, f) + (['"'] + rest);
    SkipBlank(cfg, run, t, gap, ['"'] + tail);
    Resume(cfg, run, t, '"', tail);
    var t1 := Goto(t.(quote := '"', pb := ""), FieldName);
    ExecEat(cfg, run, Goto(t, s), '"', tail, t1);
    var t2 := ReadText(cfg, run, t1, name, f, ['"'] + rest);
    assert "" + name == name;
    t' := WithTop(t2, Level(EatWs, FieldEnd, v, name));
    KeyIsCString(name);
    CloseName(cfg, run, t2, v, name, rest);
  }

  lemma ReadColon(cfg: Config, run: Runner, t: Tok, rest: string)
    requires Runs(run, cfg)
    requires Top(t).state == EatWs && Top(t).saved == FieldEnd
    ensures run(t, [':'] + rest) == run(Then(t, ObjectValue), rest)
  {
    Resume(cfg, run, t, ':', rest);
    assert Then(Goto(t, FieldEnd), ObjectValue) == Then(t, ObjectValue);
    ExecEat(cfg, run, Goto(t, FieldEnd), ':', rest, Then(t, ObjectValue));
  }

  lemma EnterValue(cfg: Config, run: Runner, t: Tok, space: string, p: string, tail: string)
    requires Runs(run, cfg)
    requires Top(t).state == EatWs && Top(t).saved == FieldEnd
    requires Blank(space) && p != [] && Opens(p[0])
    ensures var r := run(t, [':'] + (space + (p + tail)));
      if Levels(t) < cfg.maxDepth
      then r == run(Entered(Then(t, ObjectValue), ObjectValueAdd), p + tail)
      else r.err == Depth
  {
    ReadColon(cfg, run, t, space + (p + tail));
    assert p + tail == [p[0]] + (p[1..] + tail);
    Enter(cfg, run, Then(t, ObjectValue), ObjectValueAdd, space, p[0], p[1..] + tail);
  }

  /** A field is open down to its value, on a new level if there may be one. */
  ghost predicate Begun(cfg: Config, run: Runner, t: Tok, input: string, t2: Tok, l: Level, v: Json,
                        name: string, rest: string)
  {
    if Levels(t) < cfg.maxDepth then
      Over(t, t2, l) && l == Level(ObjectValueAdd, l.saved, v, name) && run(t, input) == run(t2, rest)
    else run(t, input).err == Depth
  }

  /** Name, colon, white space, new level. */
  lemma BeginValue(cfg: Config, run: Runner, t: Tok, s: State, v: Json, name: string, gap: string,
                   f: Flags, space: string, p: string, tail: string)
    returns (t2: Tok, l: Level)
    requires Runs(run, cfg)
    requires Between(t, s, v) && (s == FieldStart || s == FieldStartAfterSep) && Blank(gap) && CKey(name)
    requires Blank(space) && p != [] && Opens(p[0])
    ensures var input := gap + (['"'] + (Escape(name, f) + (['"'] + ([':'] + (space + (p + tail))))));
      Begun(cfg, run, t, input, t2, l, v, name, p + tail)
  {
    var t0 := ReadName(cfg, run, t, s, v, name, gap, f, [':'] + (space + (p + tail)));
    EnterValue(cfg, run, t0, space, p, tail);
    var t1 := Then(t0, ObjectValue);
    t2 := Entered(t1, ObjectValueAdd);
    l := Top(t1).(state := ObjectValueAdd);
  }

  // ---------------------------------------------------------------- whole values

  lemma ReadScalar(cfg: Config, run: Runner, t: Tok, v: Json, level: nat, f: Flags, rest: string)
    returns (t': Tok)
    requires Runs(run, cfg)
    requires Ready(t) && Printable(v) && Ends(rest, Levels(t)) && !v.Arr? && !v.Obj?
    ensures Landed(t, t', Norm(v))
    ensures run(t, Print(v, level, f) + rest) == run(t', rest)
  {
    match v {
      case Null => t' := ReadKeyword(cfg, run, t, "null", "null", NullWord, rest);
      case Bool(b) =>
        if b { t' := ReadKeyword(cfg, run, t, "true", "true", Boolean, rest); }
        else { t' := ReadKeyword(cfg, run, t, "false", "false", Boolean, rest); }
      case Int(i) =>
        if i < 0 { t' := ReadNegative(cfg, run, t, -i, rest); }
        else { t' := ReadUnsigned(cfg, run, t, i, rest); }
      case UInt(u) => t' := ReadUnsigned(cfg, run, t, u, rest);
      case Str(s) => t' := ReadString(cfg, run, t, s, f, rest);
    }
  }

  /** Reading a printed value completes it on its level, or fails for its depth, exactly as
      its nesting tells. */
  lemma {:induction false} ReadValue(cfg: Config, run: Runner, t: Tok, v: Json, level: nat, f: Flags,
                                     rest: string)
    returns (t': Tok)
    requires Runs(run, cfg)
    requires Ready(t) && Printable(v) && Ends(rest, Levels(t)) && Levels(t) <= cfg.maxDepth
    ensures Levels(t) + Nest(v) <= cfg.maxDepth ==>
      Landed(t, t', Norm(v)) && run(t, Print(v, level, f) + rest) == run(t', rest)
    ensures Levels(t) + Nest(v) > cfg.maxDepth ==> run(t, Print(v, level, f) + rest).err == Depth
    decreases v, 1
  {
    match v {
      case Arr(items) =>
        var p := PrintItems(items, true, level, f);
        assert "[" + p + rest == ['['] + (p + rest);
        OpenContainer(cfg, run, t, '[', p + rest);
        var t1 := WithTop(t, Level(EatWs, Array, Arr([]), ""));
        t' := ReadItems(cfg, run, t1, items, [], true, level, f, rest);
        assert [] + NormItems(items) == NormItems(items);
      case Obj(fields) =>
        var p := PrintFields(fields, true, level, f);
        assert "{" + p + rest == ['{'] + (p + rest);
        OpenContainer(cfg, run, t, '{', p + rest);
        var t1 := WithTop(t, Level(EatWs, FieldStart, Obj([]), ""));
        t' := ReadFields(cfg, run, t1, fields, [], true, level, f, rest);
        assert [] + NormFields(fields) == NormFields(fields);
      case _ => t' := ReadScalar(cfg, run, t, v, level, f, rest);
    }
  }

  lemma {:induction false} ReadItems(cfg: Config, run: Runner, t: Tok, items: seq<Json>, done: seq<Json>,
                                     first: bool, level: nat, f: Flags, rest: string)
    returns (t': Tok)
    requires Runs(run, cfg)
    requires Between(t, if first then Array else ArraySep, Arr(done)) && PrintableItems(items)
    requires Levels(t) <= cfg.maxDepth
    ensures Levels(t) + NestItems(items) <= cfg.maxDepth ==>
      && Replaced(t, t', Level(EatWs, Finish, Arr(done + NormItems(items)), ""))
      && run(t, PrintItems(items, first, level, f) + rest) == run(t', rest)
    ensures Levels(t) + NestItems(items) > cfg.maxDepth ==>
      run(t, PrintItems(items, first, level, f) + rest).err == Depth
    decreases items, 1
  {
    if items == [] {
      t' := CloseItems(cfg, run, t, done, first, level, f, rest);
      assert done + NormItems(items) == done;
    } else {
      var t4 := ReadItem(cfg, run, t, items, done, first, level, f, rest);
      t' := t4;
      if Levels(t) + 1 + Nest(items[0]) <= cfg.maxDepth {
        t' := ReadItems(cfg, run, t4, items[1..], done + [Norm(items[0])], false, level, f, rest);
        Assoc(done, [Norm(items[0])], NormItems(items[1..]));
      }
    }
  }

  lemma CloseItems(cfg: Config, run: Runner, t: Tok, done: seq<Json>, first: bool, level: nat, f: Flags,
                   rest: string)
    returns (t': Tok)
    requires Runs(run, cfg)
    requires Between(t, if first then Array else ArraySep, Arr(done))
    ensures Replaced(t, t', Level(EatWs, Finish, Arr(done), ""))
    ensures run(t, PrintItems([], first, level, f) + rest) == run(t', rest)
  {
    GapsBlank(level, f, first);
    var ws := CloseGap(level, f, first);
    assert ws + "]" + rest == ws + ([']'] + rest);
    CloseContainer(cfg, run, t, ws, ']', rest);
    t' := Then(t, Finish);
  }

  /** One element of an array. */
  lemma {:induction false} ReadItem(cfg: Config, run: Runner, t: Tok, items: seq<Json>, done: seq<Json>,
                                    first: bool, level: nat, f: Flags, rest: string)
    returns (t4: Tok)
    requires Runs(run, cfg)
    requires Between(t, if first then Array else ArraySep, Arr(done))
    requires items != [] && PrintableItems(items) && Levels(t) <= cfg.maxDepth
    ensures var input := PrintItems(items, first, level, f) + rest;
      if Levels(t) + 1 + Nest(items[0]) <= cfg.maxDepth then
        && Replaced(t, t4, Level(EatWs, ArraySep, Arr(done + [Norm(items[0])]), ""))
        && run(t, input) == run(t4, PrintItems(items[1..], false, level, f) + rest)
      else
        run(t, input).err == Depth
    decreases items, 0
  {
    GapsBlank(level, f, first);
    var p, more := Print(items[0], level + 1, f), PrintItems(items[1..], false, level, f);
    PrintOpens(items[0], level + 1, f);
    Regroup4(if first then "" else ",", Gap(level, f), p, more, rest);
    var t2, l := BeginItem(cfg, run, t, done, first, Gap(level, f), p, more + rest);
    t4 := t2;
    if Levels(t) < cfg.maxDepth {
      var ws, c, tail := ItemsTail(items[1..], level, f, rest);
      var t3 := ReadValue(cfg, run, t2, items[0], level + 1, f, more + rest);
      if Levels(t2) + Nest(items[0]) <= cfg.maxDepth {
        t4 := EndElement(cfg, run, t, t2, t3, l, Norm(items[0]), ws, c, tail);
      }
    }
  }

  lemma Regroup4(a: string, b: string, c: string, d: string, e: string)
    ensures a + b + c + d + e == a + (b + (c + (d + e)))
  {
  }

  /** A field that is not there yet goes to the end. */
  lemma FreshField(done: seq<Field>, fields: seq<Field>, v: Json)
    requires fields != [] && DistinctNames(done + fields)
    ensures SetField(done, fields[0].name, v) == done + [Field(fields[0].name, v)]
  {
    forall i | 0 <= i < |done| ensures done[i].name != fields[0].name {
      assert (done + fields)[i] == done[i] && (done + fields)[|done|] == fields[0];
    }
    SetFieldAppends(done, fields[0].name, v);
  }

  lemma StillDistinct(done: seq<Field>, fields: seq<Field>, v: Json)
    requires fields != [] && DistinctNames(done + fields)
    ensures DistinctNames(done + [Field(fields[0].name, v)] + fields[1..])
  {
    var a, b := done + fields, done + [Field(fields[0].name, v)] + fields[1..];
    assert |a| == |b| && forall i :: 0 <= i < |a| ==> a[i].name == b[i].name;
  }

  lemma {:induction false} ReadFields(cfg: Config, run: Runner, t: Tok, fields: seq<Field>,
                                      done: seq<Field>, first: bool, level: nat, f: Flags, rest: string)
    returns (t': Tok)
    requires Runs(run, cfg)
    requires Between(t, if first then FieldStart else ObjectSep, Obj(done)) && PrintableFields(fields)
    requires DistinctNames(done + fields) && Levels(t) <= cfg.maxDepth
    ensures Levels(t) + NestFields(fields) <= cfg.maxDepth ==>
      && Replaced(t, t', Level(EatWs, Finish, Obj(done + NormFields(fields)), ""))
      && run(t, PrintFields(fields, first, level, f) + rest) == run(t', rest)
    ensures Levels(t) + NestFields(fields) > cfg.maxDepth ==>
      run(t, PrintFields(fields, first, level, f) + rest).err == Depth
    decreases fields, 1
  {
    if fields == [] {
      t' := CloseFields(cfg, run, t, done, first, level, f, rest);
      assert done + NormFields(fields) == done;
    } else {
      var t4 := ReadField(cfg, run, t, fields, done, first, level, f, rest);
      t' := t4;
      if Levels(t) + 1 + Nest(fields[0].value) <= cfg.maxDepth {
        var field := Field(fields[0].name, Norm(fields[0].value));
        StillDistinct(done, fields, field.value);
        t' := ReadFields(cfg, run, t4, fields[1..], done + [field], false, level, f, rest);
        Assoc(done, [field], NormFields(fields[1..]));
      }
    }
  }

  /** One field of an object. */
  lemma {:induction false} ReadField(cfg: Config, run: Runner, t: Tok, fields: seq<Field>,
                                     done: seq<Field>, first: bool, level: nat, f: Flags, rest: string)
    returns (t4: Tok)
    requires Runs(run, cfg)
    requires Between(t, if first then FieldStart else ObjectSep, Obj(done))
    requires fields != [] && PrintableFields(fields)
    requires DistinctNames(done + fields) && Levels(t) <= cfg.maxDepth
    ensures var input := PrintFields(fields, first, level, f) + rest;
      if Levels(t) + 1 + Nest(fields[0].value) <= cfg.maxDepth then
        && Replaced(t, t4, Level(EatWs, ObjectSep,
                                 Obj(done + [Field(fields[0].name, Norm(fields[0].value))]), ""))
        && run(t, input) == run(t4, PrintFields(fields[1..], false, level, f) + rest)
      else
        run(t, input).err == Depth
    decreases fields, 0
  {
    var v, tail := fields[0].value, PrintFields(fields[1..], false, level, f) + rest;
    var t2, l := BeginField(cfg, run, t, fields, done, first, level, f, tail);
    t4 := t2;
    RegroupField(fields, first, level, f, rest);
    if Levels(t) < cfg.maxDepth {
      FieldsTailEnds(fields[1..], level, f, rest);
      var t3 := ReadValue(cfg, run, t2, v, level + 1, f, tail);
      if Levels(t2) + Nest(v) <= cfg.maxDepth {
        t4 := EndField(cfg, run, t, t2, t3, l, fields, done, Norm(v), level, f, rest);
      }
    }
  }

  lemma CloseFields(cfg: Config, run: Runner, t: Tok, done: seq<Field>, first: bool, level: nat, f: Flags,
                    rest: string)
    returns (t': Tok)
    requires Runs(run, cfg)
    requires Between(t, if first then FieldStart else ObjectSep, Obj(done))
    ensures Replaced(t, t', Level(EatWs, Finish, Obj(done), ""))
    ensures run(t, PrintFields([], first, level, f) + rest) == run(t', rest)
  {
    GapsBlank(level, f, first);
    var ws := CloseGap(level, f, first);
    assert ws + "}" + rest == ws + (['}'] + rest);
    CloseContainer(cfg, run, t, ws, '}', rest);
    t' := Then(t, Finish);
  }

  lemma FieldsTailEnds(fields: seq<Field>, level: nat, f: Flags, rest: string)
    ensures Ends(PrintFields(fields, false, level, f) + rest, 2)
  {
    var ws, c, more := FieldsTail(fields, level, f, rest);
  }

  /** A completed value becomes the next field of its object. */
  lemma EndField(cfg: Config, run: Runner, t: Tok, t2: Tok, t3: Tok, l: Level, fields: seq<Field>,
                 done: seq<Field>, v: Json, level: nat, f: Flags, rest: string)
    returns (t4: Tok)
    requires Runs(run, cfg)
    requires fields != [] && DistinctNames(done + fields)
    requires Over(t, t2, l) && Landed(t2, t3, v)
    requires l.state == ObjectValueAdd && l.current == Obj(done) && l.field == fields[0].name
    ensures Replaced(t, t4, Level(EatWs, ObjectSep, Obj(done + [Field(fields[0].name, v)]), ""))
    ensures var more := PrintFields(fields[1..], false, level, f);
      run(t3, more + rest) == run(t4, more + rest)
  {
    var ws, c, tail := FieldsTail(fields[1..], level, f, rest);
    FreshField(done, fields, v);
    t4 := EndElement(cfg, run, t, t2, t3, l, v, ws, c, tail);
  }

  /** The text of a field, grouped as it is read. */
  function FieldBody(field: Field, level: nat, f: Flags, tail: string): string {
    Gap(level, f) + (['"'] + (Escape(field.name, f) + (['"'] + ([':'] +
      ((if f.spaced then " " else "") + (Print(field.value, level + 1, f) + tail))))))
  }

  function FieldInput(field: Field, first: bool, level: nat, f: Flags, tail: string): string {
    (if first then "" else ",") + FieldBody(field, level, f, tail)
  }

  lemma RegroupField(fields: seq<Field>, first: bool, level: nat, f: Flags, rest: string)
    requires fields != []
    ensures PrintFields(fields, first, level, f) + rest ==
            FieldInput(fields[0], first, level, f, PrintFields(fields[1..], false, level, f) + rest)
  {
    var p, more := Print(fields[0].value, level + 1, f), PrintFields(fields[1..], false, level, f);
    Regroup4(if first then "" else ",", PrintName(fields[0].name, level, f), p, more, rest);
    RegroupName(fields[0].name, level, f, p + (more + rest));
  }

  lemma RegroupName(name: string, level: nat, f: Flags, tail: string)
    ensures PrintName(name, level, f) + tail ==
      Gap(level, f) + (['"'] + (Escape(name, f) + (['"'] + ([':'] +
        ((if f.spaced then " " else "") + tail)))))
  {
    var gap, e, space := Gap(level, f), Escape(name, f), if f.spaced then " " else "";
    Regroup4(gap, "\"", e, "\":", space);
    Assoc(gap, "\"" + (e + ("\":" + space)), tail);
    Assoc("\"", e + ("\":" + space), tail);
    Assoc(e, "\":" + space, tail);
    Assoc("\":", space, tail);
    assert "\":" == ['"'] + [':'];
    Assoc(['"'], [':'], space + tail);
  }

  /** The next object field begins: comma, name, colon, new level. */
  lemma BeginField(cfg: Config, run: Runner, t: Tok, fields: seq<Field>, done: seq<Field>, first: bool,
                   level: nat, f: Flags, tail: string)
    returns (t2: Tok, l: Level)
    requires Runs(run, cfg)
    requires Between(t, if first then FieldStart else ObjectSep, Obj(done))
    requires fields != [] && PrintableFields(fields)
    ensures Begun(cfg, run, t, FieldInput(fields[0], first, level, f, tail), t2, l, Obj(done), fields[0].name,
                  Print(fields[0].value, level + 1, f) + tail)
  {
    var body := FieldBody(fields[0], level, f, tail);
    var s := if first then FieldStart else FieldStartAfterSep;
    t2, l := BeginNamed(cfg, run, Then(t, s), s, fields[0], done, level, f, tail, body);
    BeforeField(cfg, run, t, first, body, t2, l, Obj(done), fields[0].name,
                Print(fields[0].value, level + 1, f) + tail);
  }

  /** What is true behind the comma is true before it. */
  lemma BeforeField(cfg: Config, run: Runner, t: Tok, first: bool, body: string, t2: Tok, l: Level, v: Json,
                    name: string, rest: string)
    requires Runs(run, cfg) && Between(t, if first then FieldStart else ObjectSep, v)
    requires Begun(cfg, run, Then(t, if first then FieldStart else FieldStartAfterSep), body, t2, l, v, name, rest)
    ensures Begun(cfg, run, t, (if first then "" else ",") + body, t2, l, v, name, rest)
  {
    if first {
      assert "" + body == body && Then(t, FieldStart) == t;
    } else {
      Comma(cfg, run, t, FieldStartAfterSep, body);
    }
  }

  lemma BeginNamed(cfg: Config, run: Runner, t: Tok, s: State, field: Field, done: seq<Field>, level: nat,
                   f: Flags, tail: string, input: string)
    returns (t2: Tok, l: Level)
    requires Runs(run, cfg)
    requires Between(t, s, Obj(done)) && (s == FieldStart || s == FieldStartAfterSep)
    requires CKey(field.name) && Printable(field.value) && input == FieldBody(field, level, f, tail)
    ensures Begun(cfg, run, t, input, t2, l, Obj(done), field.name, Print(field.value, level + 1, f) + tail)
  {
    GapsBlank(level, f, true);
    PrintOpens(field.value, level + 1, f);
    var space := if f.spaced then " " else "";
    t2, l := BeginValue(cfg, run, t, s, Obj(done), field.name, Gap(level, f), f, space,
                        Print(field.value, level + 1, f), tail);
  }
}
