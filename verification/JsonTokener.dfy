/** The incremental JSON parser as a machine: one level per open container, one character at a time. */
module JsonTokener {
  import opened Arith
  import opened JsonValues

  datatype State =
    | EatWs | Start | Finish | NullWord | CommentStart | Comment | CommentEol | CommentEnd
    | StringBody | StringEscape | EscapeUnicode | NeedEscape | NeedU | Boolean | Number
    | Array | ArrayAdd | ArraySep | FieldStart | FieldName | FieldEnd | ObjectValue
    | ObjectValueAdd | ObjectSep | ArrayAfterSep | FieldStartAfterSep | Infinity

  datatype Error =
    | Success | Continue | Depth | ParseEof | Unexpected | ParseNull | ParseBoolean | ParseNumber
    | ParseArray | KeyName | KeySep | ValueSep | ParseString | ParseComment

  /** `current` is the value under construction, Null standing for none. */
  datatype Level = Level(state: State, saved: State, current: Json, field: string)

  /** What the number state keeps for the duration of one call only. */
  datatype Scan = NotScanning | Scanning(exponent: bool, negOk: bool, posOk: bool, length: nat)

  datatype Tok = Tok(
    below: seq<Level>, top: Level, pb: string, stPos: nat, ucs: nat, high: nat, quote: char,
    isDouble: bool, scan: Scan)

  /** `readsDouble` tells which texts the C library reads as a double in full. */
  datatype Config = Config(strict: bool, trailing: bool, maxDepth: nat, readsDouble: string -> bool)

  datatype Move =
    | Eat(t: Tok)               // the character is used
    | Redo(t: Tok)              // the same character is looked at again
    | Stop(t: Tok, err: Error)  // the call ends at this character

  /** How a call ends: `rest` is the part of the input that was not used. */
  datatype Parsed = Parsed(t: Tok, err: Error, rest: string)

  const FRESH_LEVEL := Level(EatWs, Start, Null, "")

  function FreshTok(): Tok {
    Tok([], FRESH_LEVEL, "", 0, 0, 0, NUL, false, NotScanning)
  }

  function Top(t: Tok): Level {
    t.top
  }

  /** How many levels there are. */
  function Levels(t: Tok): nat {
    |t.below| + 1
  }

  function WithTop(t: Tok, l: Level): Tok
  {
    t.(top := l)
  }

  function Goto(t: Tok, s: State): Tok
  {
    WithTop(t, Top(t).(state := s))
  }

  /** Skip white space, then go on in state s. */
  function Then(t: Tok, s: State): Tok
  {
    WithTop(t, Top(t).(state := EatWs, saved := s))
  }

  function Complete(t: Tok, v: Json): Tok
  {
    WithTop(t, Top(t).(state := EatWs, saved := Finish, current := v))
  }

  function Append(t: Tok, s: string): Tok {
    t.(pb := t.pb + s)
  }

  // ---------------------------------------------------------------- characters

  predicate IsWs(c: char) { c == ' ' || c == '\t' || c == '\n' || c == '\r' }

  predicate IsDigit(c: char) { '0' <= c <= '9' }

  predicate IsHex(c: char) { IsDigit(c) || 'A' <= c <= 'F' || 'a' <= c <= 'f' }

  function HexValue(c: char): (r: nat)
    requires IsHex(c)
    ensures r < 16
  {
    if IsDigit(c) then c as int - '0' as int
    else if c <= 'F' then c as int - 'A' as int + 10
    else c as int - 'a' as int + 10
  }

  function Lower(c: char): char {
    if 'A' <= c <= 'Z' then (c as int + 32) as char else c
  }

  /** The first n characters agree, up to case unless strict. */
  predicate Matches(word: string, pb: string, n: nat, strict: bool)
    requires n <= |word|
  {
    n <= |pb| && forall i :: 0 <= i < n ==>
      (word[i] == pb[i] || (!strict && Lower(word[i]) == Lower(pb[i])))
  }

  // ---------------------------------------------------------------- unicode escapes

  /** The low 16 bits. */
  function Low16(u: nat): nat {
    if u < 0x10000 then u else Low16(u - 0x10000)
  }

  // Only the low 16 bits are looked at, for values of any size.
  predicate IsHighSurrogate(u: nat) { 0xD800 <= Low16(u) < 0xDC00 }

  predicate IsLowSurrogate(u: nat) { 0xDC00 <= Low16(u) < 0xE000 }

  function DecodePair(hi: nat, lo: nat): nat
    requires IsHighSurrogate(hi) && IsLowSurrogate(lo)
  {
    (Low16(hi) - 0xD800) * 0x400 + (Low16(lo) - 0xDC00) + 0x10000
  }

  const REPLACEMENT: string := [0xEF as char, 0xBF as char, 0xBD as char]

  /** The bytes written for a code value that is not taken for a surrogate. */
  function Utf8(u: nat): string
    requires u < 0x110000
  {
    if u < 0x80 then [u as char]
    else if u < 0x800 then [(0xC0 + u / 0x40) as char, (0x80 + u % 0x40) as char]
    else if u < 0x10000 then
      [(0xE0 + u / 0x1000) as char, (0x80 + u / 0x40 % 0x40) as char, (0x80 + u % 0x40) as char]
    else
      [(0xF0 + u / 0x40000) as char, (0x80 + u / 0x1000 % 0x40) as char,
       (0x80 + u / 0x40 % 0x40) as char, (0x80 + u % 0x40) as char]
  }

  /** Four hex digits have been read into `ucs`. */
  function EscapeDone(t: Tok): Tok
  {
    var paired := IsHighSurrogate(t.high) && IsLowSurrogate(t.ucs);
    var u := if paired then DecodePair(t.high, t.ucs) else t.ucs;
    var t1 := if t.high != 0 && !paired then Append(t, REPLACEMENT) else t;
    var t2 := t1.(ucs := u, high := 0, stPos := 0);
    var back := Goto(t2, Top(t).saved);
    if u < 0x800 then Append(back, Utf8(u))
    else if IsHighSurrogate(u) then Goto(t2.(high := u, ucs := 0), NeedEscape)
    else if IsLowSurrogate(u) then Append(back, REPLACEMENT)
    else if u < 0x110000 then Append(back, Utf8(u))
    else Append(back, REPLACEMENT)
  }

  // ---------------------------------------------------------------- numbers

  /** Permissions for the next character of a number, from what was saved so far. */
  function ScanStart(pb: string): Scan {
    var e := if 'e' in pb then IndexOf(pb, 'e') else IndexOf(pb, 'E');
    if e == |pb| then Scanning(false, true, false, 0)
    else if e == |pb| - 1 then Scanning(true, true, true, 0)
    else Scanning(true, false, false, 0)
  }

  function IndexOf(s: string, c: char): (r: nat)
    ensures r <= |s|
  {
    if s == [] || s[0] == c then 0 else 1 + IndexOf(s[1..], c)
  }

  predicate NumberChar(t: Tok, n: Scan, c: char)
    requires n.Scanning?
  {
    || IsDigit(c)
    || (!n.exponent && (c == 'e' || c == 'E'))
    || (n.negOk && c == '-') || (n.posOk && c == '+')
    || (!t.isDouble && c == '.')
  }

  /** After a point and after an exponent sign a number may have a sign. */
  predicate AllowsSign(c: char) { c == '.' || c == 'e' || c == 'E' }

  function NextScan(n: Scan, c: char): (r: Scan)
    requires n.Scanning?
    ensures r.Scanning? && r.length == n.length + 1
  {
    Scanning(n.exponent || c == 'e' || c == 'E', AllowsSign(c), AllowsSign(c), n.length + 1)
  }

  function ScanChar(t: Tok, n: Scan, c: char): Tok
    requires n.Scanning?
  {
    t.(pb := t.pb + [c], isDouble := t.isDouble || AllowsSign(c), scan := NextScan(n, c))
  }

  /** Trailing signs and exponents are cut off. */
  function Trim(s: string): string {
    if |s| > 1 && s[|s| - 1] in {'e', 'E', '-', '+'} then Trim(s[..|s| - 1]) else s
  }

  function LeadingDigits(s: string): (n: nat)
    ensures n <= |s|
  {
    if s == [] || !IsDigit(s[0]) then 0 else 1 + LeadingDigits(s[1..])
  }

  function DigitsValue(s: string): nat
    requires forall i :: 0 <= i < |s| ==> IsDigit(s[i])
  {
    if s == [] then 0
    else
      assert IsDigit(s[|s| - 1]);
      DigitsValue(s[..|s| - 1]) * 10 + (s[|s| - 1] as int - '0' as int)
  }

  lemma {:induction false} LeadingAreDigits(s: string)
    ensures forall i :: 0 <= i < LeadingDigits(s) ==> IsDigit(s[i])
    decreases |s|
  {
    if s != [] && IsDigit(s[0]) {
      LeadingAreDigits(s[1..]);
      forall i | 0 <= i < LeadingDigits(s) ensures IsDigit(s[i]) {
        if i > 0 { assert s[i] == s[1..][i - 1]; }
      }
    }
  }

  /** strtoull on a text: the number its leading digits denote. */
  function LeadingValue(s: string): nat {
    LeadingAreDigits(s);
    DigitsValue(s[..LeadingDigits(s)])
  }

  datatype NumberResult = Value(v: Json) | NotANumber

  /** The end of a number: signed if it starts with a minus sign, otherwise unsigned; both
      saturate, which strict mode refuses. */
  function NumberValue(cfg: Config, isDouble: bool, pb: string): NumberResult {
    if isDouble then
      if cfg.readsDouble(pb) then Value(Double(pb)) else NotANumber
    else if pb != [] && pb[0] == '-' then
      var n := LeadingValue(pb[1..]);
      if LeadingDigits(pb[1..]) == 0 then NotANumber
      else if n > -INT64_MIN then (if cfg.strict then NotANumber else Value(Int(INT64_MIN)))
      else Value(Int(0 - n))
    else
      var n := LeadingValue(pb);
      if LeadingDigits(pb) == 0 then NotANumber
      else if n > UINT64_MAX then (if cfg.strict then NotANumber else Value(UInt(UINT64_MAX)))
      else if n != 0 && pb[0] == '0' && cfg.strict then NotANumber
      else if n <= INT64_MAX then Value(Int(n))
      else Value(UInt(n))
  }

  predicate EndsNumber(c: char) {
    c == ',' || c == ']' || c == '}' || c == '/' || c == 'I' || c == 'i' || IsWs(c)
  }

  function StepNumber(cfg: Config, t: Tok, c: char): Move
  {
    var n := if t.scan.Scanning? then t.scan else ScanStart(t.pb);
    if c != NUL && NumberChar(t, n, c) then
      Eat(ScanChar(t, n, c))
    else
      var t1 := t.(scan := NotScanning);
      if Levels(t) > 1 && !EndsNumber(c) then
        Stop(t1.(pb := t.pb[..Max(|t.pb| - n.length, 0)]), ParseNumber)
      else if t.pb != [] && t.pb[0] == '-' && n.length <= 1 && (c == 'i' || c == 'I') then
        Redo(Goto(t1.(stPos := 0), Infinity))
      else
        var pb := if t.isDouble && !cfg.strict then Trim(t.pb) else t.pb;
        match NumberValue(cfg, t.isDouble, pb)
        case NotANumber => Stop(t1.(pb := pb), ParseNumber)
        case Value(v) => Redo(Complete(t1.(pb := pb), v))
  }

  // ---------------------------------------------------------------- words

  /** One character of one of two words; behind its last one a word is complete. */
  function StepWord(t: Tok, first: bool, n: nat, v: Json, second: bool, m: nat, w: Json, err: Error): Move {
    if first then
      if t.stPos == n then Redo(Complete(t, v)) else Eat(t.(stPos := t.stPos + 1))
    else if second then
      if t.stPos == m then Redo(Complete(t, w)) else Eat(t.(stPos := t.stPos + 1))
    else
      Stop(t, err)
  }

  function StepNull(cfg: Config, t: Tok, c: char): Move {
    var t1 := Append(t, [c]);
    StepWord(t1, Matches("null", t1.pb, Min(t.stPos + 1, 4), cfg.strict), 4, Null,
             Matches("NaN", t1.pb, Min(t.stPos + 1, 3), cfg.strict), 3, Double("NaN"), ParseNull)
  }

  function StepBoolean(cfg: Config, t: Tok, c: char): Move {
    var t1 := Append(t, [c]);
    StepWord(t1, Matches("true", t1.pb, Min(t.stPos + 1, 4), cfg.strict), 4, Bool(true),
             Matches("false", t1.pb, Min(t.stPos + 1, 5), cfg.strict), 5, Bool(false), ParseBoolean)
  }

  function StepInfinity(cfg: Config, t: Tok, c: char): Move
  {
    if t.stPos < 8 then
      if c == "Infinity"[t.stPos] || (!cfg.strict && c == "iNFINITY"[t.stPos])
      then Eat(t.(stPos := t.stPos + 1))
      else Stop(t, Unexpected)
    else
      Redo(Complete(t, Double(if t.pb != [] && t.pb[0] == '-' then "-Infinity" else "Infinity")))
  }

  // ---------------------------------------------------------------- the machine

  function StepStart(cfg: Config, t: Tok, c: char): Move
  {
    if c == '{' then
      Eat(Then(WithTop(t, Top(t).(current := Obj([]))), FieldStart))
    else if c == '[' then
      Eat(Then(WithTop(t, Top(t).(current := Arr([]))), Array))
    else if c == 'I' || c == 'i' then
      Redo(Goto(t.(pb := "", stPos := 0), Infinity))
    else if c == 'N' || c == 'n' then
      Redo(Goto(t.(pb := "", stPos := 0), NullWord))
    else if c == '"' || (c == '\'' && !cfg.strict) then
      Eat(Goto(t.(pb := "", quote := c), StringBody))
    else if c == 'T' || c == 't' || c == 'F' || c == 'f' then
      Redo(Goto(t.(pb := "", stPos := 0), Boolean))
    else if IsDigit(c) || c == '-' then
      Redo(Goto(t.(pb := "", isDouble := false, scan := NotScanning), Number))
    else
      Stop(t, Unexpected)
  }

  /** A finished value is handed to the level below, which waits to add it. A level that a
      success has reset does not: it goes on from its beginning. */
  function StepFinish(t: Tok): Move
  {
    if Levels(t) == 1 then
      Stop(t, Success)
    else
      var v := Top(t).current;
      var n := |t.below| - 1;
      var t1 := t.(below := t.below[..n], top := t.below[n]);
      var l := Top(t1);
      match l.state
      case ArrayAdd =>
        var items := if l.current.Arr? then l.current.items else [];
        Redo(Then(WithTop(t1, l.(current := Arr(items + [v]))), ArraySep))
      case ObjectValueAdd =>
        var fields := if l.current.Obj? then l.current.fields else [];
        Redo(Then(WithTop(t1, l.(current := Obj(SetField(fields, l.field, v)), field := "")), ObjectSep))
      case _ => if l == FRESH_LEVEL then Redo(t1) else Stop(t1, Unexpected)
  }

  /** A new level for an element, unless the nesting is too deep. */
  function Push(cfg: Config, t: Tok, wait: State): Move
  {
    if Levels(t) >= cfg.maxDepth then Stop(t, Depth)
    else
      var t1 := Goto(t, wait);
      Redo(t1.(below := t1.below + [t1.top], top := FRESH_LEVEL))
  }

  /** A C string ends at its first NUL. */
  function CString(s: string): string {
    s[..IndexOf(s, NUL)]
  }

  function StepText(t: Tok, c: char): Move
  {
    if c == t.quote then
      if Top(t).state == FieldName then
        Eat(WithTop(t, Top(t).(field := CString(t.pb), state := EatWs, saved := FieldEnd)))
      else
        Eat(Complete(t, Str(t.pb)))
    else if c == '\\' then
      Eat(WithTop(t, Top(t).(saved := Top(t).state, state := StringEscape)))
    else
      Eat(Append(t, [c]))
  }

  function StepEscape(t: Tok, c: char): Move
  {
    var back := Goto(t, Top(t).saved);
    if c == '"' || c == '\\' || c == '/' then Eat(Append(back, [c]))
    else if c == 'b' then Eat(Append(back, ['\U{8}']))
    else if c == 'n' then Eat(Append(back, "\n"))
    else if c == 'r' then Eat(Append(back, "\r"))
    else if c == 't' then Eat(Append(back, "\t"))
    else if c == 'f' then Eat(Append(back, ['\U{c}']))
    else if c == 'u' then Eat(Goto(t.(ucs := 0, stPos := 0), EscapeUnicode))
    else Stop(t, ParseString)
  }

  /** The value of a hex digit in the given place, 0 being the first of four. */
  function HexAt(c: char, place: nat): nat
    requires IsHex(c)
  {
    var d := HexValue(c);
    if place == 0 then d * 0x1000 else if place == 1 then d * 0x100
    else if place == 2 then d * 0x10 else d
  }

  function StepUnicode(t: Tok, c: char): Move
  {
    match Top(t).state
    case NeedEscape =>
      if c == '\\' then Eat(Goto(t, NeedU))
      else if Top(t).saved == StringBody || Top(t).saved == FieldName then
        Redo(Goto(Append(t, REPLACEMENT).(high := 0, ucs := 0, stPos := 0), Top(t).saved))
      else Stop(t, Unexpected)
    case NeedU =>
      if c == 'u' then Eat(Goto(t, EscapeUnicode))
      else Redo(Goto(Append(t, REPLACEMENT).(high := 0, ucs := 0, stPos := 0), StringEscape))
    case _ =>
      if !IsHex(c) then Stop(t, ParseString)
      else
        var ucs := t.ucs + HexAt(c, t.stPos);
        if t.stPos < 3 then Eat(t.(ucs := ucs, stPos := t.stPos + 1))
        else Eat(EscapeDone(t.(ucs := ucs)))
  }

  function StepComment(t: Tok, c: char): Move
  {
    var t1 := Append(t, [c]);
    match Top(t).state
    case CommentStart =>
      if c == '*' then Eat(Goto(t1, Comment))
      else if c == '/' then Eat(Goto(t1, CommentEol))
      else Stop(t, ParseComment)
    case Comment => Eat(if c == '*' then Goto(t1, CommentEnd) else t1)
    case CommentEol => Eat(if c == '\n' then Goto(t, EatWs) else t1)
    case _ => Eat(Goto(t1, if c == '/' then EatWs else Comment))
  }

  function StepContainer(cfg: Config, t: Tok, c: char): Move
  {
    match Top(t).state
    case Array | ArrayAfterSep =>
      if c == ']' then
        if Top(t).state == ArrayAfterSep && cfg.strict then Stop(t, Unexpected)
        else Eat(Then(t, Finish))
      else Push(cfg, t, ArrayAdd)
    case ArraySep =>
      if c == ']' then Eat(Then(t, Finish))
      else if c == ',' then Eat(Then(t, ArrayAfterSep))
      else Stop(t, ParseArray)
    case FieldStart | FieldStartAfterSep =>
      if c == '}' then
        if Top(t).state == FieldStartAfterSep && cfg.strict then Stop(t, Unexpected)
        else Eat(Then(t, Finish))
      else if c == '"' || c == '\'' then Eat(Goto(t.(quote := c, pb := ""), FieldName))
      else Stop(t, KeyName)
    case FieldEnd =>
      if c == ':' then Eat(Then(t, ObjectValue)) else Stop(t, KeySep)
    case ObjectValue => Push(cfg, t, ObjectValueAdd)
    case _ =>
      if c == '}' then Eat(Then(t, Finish))
      else if c == ',' then Eat(Then(t, FieldStartAfterSep))
      else Stop(t, ValueSep)
  }

  function Step(cfg: Config, t: Tok, c: char): Move
  {
    match Top(t).state
    case EatWs =>
      if IsWs(c) then Eat(t)
      else if c == '/' && !cfg.strict then Eat(Goto(t.(pb := "/"), CommentStart))
      else if Top(t).saved == EatWs then Stop(t, Unexpected)
      else Redo(Goto(t, Top(t).saved))
    case Start => StepStart(cfg, t, c)
    case Finish => StepFinish(t)
    case NullWord => StepNull(cfg, t, c)
    case Boolean => StepBoolean(cfg, t, c)
    case Infinity => StepInfinity(cfg, t, c)
    case Number => StepNumber(cfg, t, c)
    case StringBody | FieldName => StepText(t, c)
    case StringEscape => StepEscape(t, c)
    case EscapeUnicode | NeedEscape | NeedU => StepUnicode(t, c)
    case CommentStart | Comment | CommentEol | CommentEnd => StepComment(t, c)
    case ArrayAdd | ObjectValueAdd => Stop(t, Unexpected)
    case _ => StepContainer(cfg, t, c)
  }

  // ---------------------------------------------------------------- whole calls

  /** How often a character can be looked at again. */
  function Rank(s: State): nat {
    match s
    case NeedEscape | NeedU => 1
    case Finish => 3
    case Infinity | NullWord | Boolean => 5
    case Number => 6
    case Start => 7
    case Array | ArrayAfterSep | ObjectValue => 29
    case _ => 0
  }

  function LevelRank(l: Level): nat {
    if l.state == EatWs then Rank(l.saved) + 1 else Rank(l.state)
  }

  function Weight(t: Tok): nat {
    10 * |t.below| + LevelRank(Top(t))
  }

  /** A move that looks at the same character again gets closer to using it. */
  predicate Progress(t: Tok, m: Move) {
    (m.Redo? ==> Weight(m.t) < Weight(t))
  }

  lemma StartProgress(cfg: Config, t: Tok, c: char)
    requires Top(t).state == Start
    ensures Progress(t, StepStart(cfg, t, c))
  {
  }

  lemma WordProgress(cfg: Config, t: Tok, c: char)
    ensures Top(t).state == NullWord ==> Progress(t, StepNull(cfg, t, c))
    ensures Top(t).state == Boolean ==> Progress(t, StepBoolean(cfg, t, c))
    ensures Top(t).state == Infinity ==> Progress(t, StepInfinity(cfg, t, c))
  {
  }

  lemma NumberProgress(cfg: Config, t: Tok, c: char)
    requires Top(t).state == Number
    ensures Progress(t, StepNumber(cfg, t, c))
  {
  }

  lemma TextProgress(t: Tok, c: char)
    ensures Progress(t, StepText(t, c)) && Progress(t, StepEscape(t, c)) && Progress(t, StepComment(t, c))
  {
  }

  lemma UnicodeProgress(t: Tok, c: char)
    requires Top(t).state == NeedEscape || Top(t).state == NeedU || Top(t).state == EscapeUnicode
    ensures Progress(t, StepUnicode(t, c))
  {
  }

  lemma ContainerProgress(cfg: Config, t: Tok, c: char)
    ensures Top(t).state == Finish ==> Progress(t, StepFinish(t))
    ensures Top(t).state in {Array, ArrayAfterSep, ArraySep, FieldStart, FieldStartAfterSep,
                             FieldEnd, ObjectValue, ObjectSep} ==>
      Progress(t, StepContainer(cfg, t, c))
  {
  }

  lemma RedoProgress(cfg: Config, t: Tok, c: char)
    ensures Progress(t, Step(cfg, t, c))
  {
    match Top(t).state
    case Start => StartProgress(cfg, t, c);
    case NullWord | Boolean | Infinity => WordProgress(cfg, t, c);
    case Number => NumberProgress(cfg, t, c);
    case StringBody | FieldName | StringEscape
       | CommentStart | Comment | CommentEol | CommentEnd => TextProgress(t, c);
    case EscapeUnicode | NeedEscape | NeedU => UnicodeProgress(t, c);
    case EatWs =>
    case Finish => ContainerProgress(cfg, t, c);
    case ArrayAdd | ObjectValueAdd =>
    case _ => ContainerProgress(cfg, t, c);
  }

  /** The end of a call at character c, NUL included. */
  function Out(cfg: Config, t: Tok, err: Error, c: char, rest: string): Parsed
  {
    var l := Top(t);
    if c == NUL then
      Parsed(t, if l.state != Finish && l.saved != Finish then ParseEof else err, rest)
    else
      Parsed(t, if l.state == Finish && Levels(t) == 1 && cfg.strict && !cfg.trailing
                then Unexpected else err, rest)
  }

  /** The end of a call that used all its input. What the number state kept is forgotten. */
  function OutOfInput(t: Tok): Parsed
  {
    var done := Levels(t) == 1 && Top(t).state == EatWs && Top(t).saved == Finish;
    Parsed(t.(scan := NotScanning), if done then Success else Continue, "")
  }

  /** One call on the characters that are left of its input. */
  function Exec(cfg: Config, t: Tok, input: string): (r: Parsed)
    decreases |input|, Weight(t)
  {
    if input == [] then
      OutOfInput(t)
    else
      RedoProgress(cfg, t, input[0]);
      match Step(cfg, t, input[0])
      case Stop(t1, err) => Out(cfg, t1, err, input[0], input)
      case Redo(t1) => Exec(cfg, t1, input)
      case Eat(t1) =>
        if input[0] == NUL then Out(cfg, t1, Success, NUL, input[1..]) else Exec(cfg, t1, input[1..])
  }
}
