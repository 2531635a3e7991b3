/** Parsing printed text gives the value back. */
module JsonRoundTrip {
  import opened Arith
  import opened Seqs
  import opened JsonValues
  import opened JsonTokener

  // ---------------------------------------------------------------- single moves

  /** A machine is known here by what its single moves do to the result of a call. */
  type Runner = (Tok, string) -> Parsed

  ghost predicate Runs(run: Runner, cfg: Config) {
    forall t, c, rest :: Law(run, cfg, t, c, rest)
  }

  ghost predicate Law(run: Runner, cfg: Config, t: Tok, c: char, rest: string) {
    match Step(cfg, t, c)
      case Eat(t1) =>
        run(t, [c] + rest) == if c == NUL then Out(cfg, t1, Success, NUL, rest) else run(t1, rest)
      case Redo(t1) => run(t, [c] + rest) == run(t1, [c] + rest)
      case Stop(t1, err) => run(t, [c] + rest) == Out(cfg, t1, err, c, [c] + rest)
  }

  function Calls(cfg: Config): Runner {
    (t: Tok, input: string) => Exec(cfg, t, input)
  }

  lemma CallsRun(cfg: Config)
    ensures Runs(Calls(cfg), cfg)
  {
    forall t: Tok, c: char, rest: string ensures Law(Calls(cfg), cfg, t, c, rest) {
      CallLaw(cfg, t, c, rest);
    }
  }

  lemma CallLaw(cfg: Config, t: Tok, c: char, rest: string)
    ensures Law(Calls(cfg), cfg, t, c, rest)
  {
    RedoProgress(cfg, t, c);
    assert ([c] + rest)[1..] == rest;
  }

  lemma ExecEat(cfg: Config, run: Runner, t: Tok, c: char, rest: string, t1: Tok)
    requires Runs(run, cfg)
    requires c != NUL && Step(cfg, t, c) == Eat(t1)
    ensures run(t, [c] + rest) == run(t1, rest)
  {
    assert Law(run, cfg, t, c, rest);
  }

  lemma ExecRedo(cfg: Config, run: Runner, t: Tok, c: char, rest: string, t1: Tok)
    requires Runs(run, cfg)
    requires Step(cfg, t, c) == Redo(t1)
    ensures run(t, [c] + rest) == run(t1, [c] + rest)
  {
    assert Law(run, cfg, t, c, rest);
  }

  predicate Blank(s: string) {
    forall i :: 0 <= i < |s| ==> IsWs(s[i])
  }

  lemma {:induction false} SkipBlank(cfg: Config, run: Runner, t: Tok, ws: string, rest: string)
    requires Runs(run, cfg)
    requires Top(t).state == EatWs && Blank(ws)
    ensures run(t, ws + rest) == run(t, rest)
    decreases |ws|
  {
    if ws == [] {
      assert ws + rest == rest;
    } else {
      assert ws + rest == [ws[0]] + (ws[1..] + rest);
      ExecEat(cfg, run, t, ws[0], ws[1..] + rest, t);
      SkipBlank(cfg, run, t, ws[1..], rest);
    }
  }

  lemma GapsBlank(level: nat, f: Flags, empty: bool)
    ensures Blank(Gap(level, f)) && Blank(CloseGap(level, f, empty))
  {
  }

  // ---------------------------------------------------------------- strings

  predicate InText(t: Tok) {
    && (t.quote == '"' || t.quote == '\'') && t.high == 0 && t.scan == NotScanning
    && (Top(t).state == StringBody || Top(t).state == FieldName)
  }

  /** t' is t with s appended to the text being read. */
  predicate Read(t: Tok, t': Tok, s: string) {
    && InText(t) && InText(t') && t'.pb == t.pb + s && t'.quote == t.quote
    && t'.below == t.below && t'.top == t.top.(saved := t'.top.saved)
  }

  lemma ReadTrans(t: Tok, t1: Tok, t2: Tok, a: string, b: string)
    requires Read(t, t1, a) && Read(t1, t2, b)
    ensures Read(t, t2, a + b)
  {
    Assoc(t.pb, a, b);
  }

  /** After a backslash. */
  function Escaping(t: Tok): Tok
  {
    WithTop(t, Top(t).(saved := Top(t).state, state := StringEscape))
  }

  lemma ReadShortEscape(cfg: Config, run: Runner, t: Tok, c: char, e: char, rest: string) returns (t': Tok)
    requires Runs(run, cfg)
    requires InText(t)
    requires StepEscape(Escaping(t), e) == Eat(Append(Goto(Escaping(t), Top(t).state), [c])) && e != NUL
    ensures Read(t, t', [c])
    ensures run(t, ['\\', e] + rest) == run(t', rest)
  {
    var t1 := Escaping(t);
    t' := Append(Goto(t1, Top(t).state), [c]);
    assert ['\\', e] + rest == ['\\'] + ([e] + rest);
    ExecEat(cfg, run, t, '\\', [e] + rest, t1);
    ExecEat(cfg, run, t1, e, rest, t');
  }

  lemma HexDigits(d: nat)
    requires d < 16
    ensures IsHex(HEX[d]) && HexValue(HEX[d]) == d && HEX[d] != NUL
  {
    assert HEX[0] == '0' && HEX[9] == '9' && HEX[10] == 'a' && HEX[15] == 'f';
  }

  lemma ReadHex(cfg: Config, run: Runner, t: Tok, h: char, rest: string)
    requires Runs(run, cfg)
    requires Top(t).state == EscapeUnicode && IsHex(h) && t.stPos < 3
    ensures run(t, [h] + rest)
         == run(t.(ucs := t.ucs + HexAt(h, t.stPos), stPos := t.stPos + 1), rest)
  {
    ExecEat(cfg, run, t, h, rest, t.(ucs := t.ucs + HexAt(h, t.stPos), stPos := t.stPos + 1));
  }

  lemma ReadLastHex(cfg: Config, run: Runner, t: Tok, h: char, rest: string)
    requires Runs(run, cfg)
    requires Top(t).state == EscapeUnicode && IsHex(h) && t.stPos == 3
    ensures run(t, [h] + rest)
         == run(EscapeDone(t.(ucs := t.ucs + HexAt(h, 3))), rest)
  {
    ExecEat(cfg, run, t, h, rest, EscapeDone(t.(ucs := t.ucs + HexAt(h, 3))));
  }

  predicate FourHex(h: string) {
    |h| == 4 && forall i :: 0 <= i < 4 ==> IsHex(h[i])
  }

  function FourHexValue(h: string): nat
    requires FourHex(h)
  {
    HexAt(h[0], 0) + HexAt(h[1], 1) + HexAt(h[2], 2) + HexAt(h[3], 3)
  }

  /** Four hex digits after a backslash and a u: the machine with all of them read. */
  function WithHex(t: Tok, h: string): Tok
    requires FourHex(h)
  {
    t.(ucs := FourHexValue(h), stPos := 3)
  }

  lemma ReadFourHex(cfg: Config, run: Runner, t: Tok, h: string, rest: string, t': Tok)
    requires Runs(run, cfg)
    requires Top(t).state == EscapeUnicode && t.stPos == 0 && t.ucs == 0 && FourHex(h)
    requires t' == EscapeDone(WithHex(t, h))
    ensures run(t, h + rest) == run(t', rest)
  {
    SplitHex(h, rest);
    var u := HexAt(h[0], 0) + HexAt(h[1], 1) + HexAt(h[2], 2) + HexAt(h[3], 3);
    ReadFour(cfg, run, t, h[0], h[1], h[2], h[3], rest, u, t');
  }

  lemma ReadFour(cfg: Config, run: Runner, t: Tok, a: char, b: char, c: char, d: char, rest: string,
                 u: nat, t': Tok)
    requires Runs(run, cfg)
    requires Top(t).state == EscapeUnicode && t.stPos == 0 && t.ucs == 0
    requires IsHex(a) && IsHex(b) && IsHex(c) && IsHex(d)
    requires u == HexAt(a, 0) + HexAt(b, 1) + HexAt(c, 2) + HexAt(d, 3)
    requires t' == EscapeDone(t.(ucs := u, stPos := 3))
    ensures run(t, [a] + ([b] + ([c] + ([d] + rest)))) == run(t', rest)
  {
    ReadFrontHex(cfg, run, t, a, b, [c] + ([d] + rest));
    ReadBackHex(cfg, run, t.(ucs := HexAt(a, 0) + HexAt(b, 1), stPos := 2), c, d, rest, u, t');
  }

  lemma SplitHex(h: string, rest: string)
    requires |h| == 4
    ensures h + rest == [h[0]] + ([h[1]] + ([h[2]] + ([h[3]] + rest)))
  {
  }

  lemma ReadFrontHex(cfg: Config, run: Runner, t: Tok, a: char, b: char, rest: string)
    requires Runs(run, cfg)
    requires Top(t).state == EscapeUnicode && IsHex(a) && IsHex(b)
    requires t.stPos == 0 && t.ucs == 0
    ensures run(t, [a] + ([b] + rest))
         == run(t.(ucs := HexAt(a, 0) + HexAt(b, 1), stPos := 2), rest)
  {
    ReadHex(cfg, run, t, a, [b] + rest);
    ReadHex(cfg, run, t.(ucs := HexAt(a, 0), stPos := 1), b, rest);
  }

  lemma ReadBackHex(cfg: Config, run: Runner, t: Tok, a: char, b: char, rest: string, u: nat, t': Tok)
    requires Runs(run, cfg)
    requires Top(t).state == EscapeUnicode && IsHex(a) && IsHex(b) && t.stPos == 2
    requires u == t.ucs + HexAt(a, 2) + HexAt(b, 3)
    requires t' == EscapeDone(t.(ucs := u, stPos := 3))
    ensures run(t, [a] + ([b] + rest)) == run(t', rest)
  {
    ReadHex(cfg, run, t, a, [b] + rest);
    ReadLastHex(cfg, run, t.(ucs := t.ucs + HexAt(a, 2), stPos := 3), b, rest);
  }

  /** A backslash and a u inside a text. */
  function Unicode(t: Tok): Tok
  {
    Goto(Escaping(t).(ucs := 0, stPos := 0), EscapeUnicode)
  }

  lemma OpenUnicode(cfg: Config, run: Runner, t: Tok, rest: string)
    requires Runs(run, cfg) && InText(t)
    ensures run(t, "\\u" + rest) == run(Unicode(t), rest)
  {
    assert "\\u" + rest == ['\\'] + (['u'] + rest);
    ExecEat(cfg, run, t, '\\', ['u'] + rest, Escaping(t));
    ExecEat(cfg, run, Escaping(t), 'u', rest, Unicode(t));
  }

  lemma ControlDone(t: Tok, c: char)
    requires InText(t) && c < ' '
    ensures Read(t, EscapeDone(Unicode(t).(ucs := c as int, stPos := 3)), [c])
  {
    assert Utf8(c as int) == [c];
    var t' := EscapeDone(Unicode(t).(ucs := c as int, stPos := 3));
  }

  lemma ReadControl(cfg: Config, run: Runner, t: Tok, c: char, rest: string) returns (t': Tok)
    requires Runs(run, cfg)
    requires InText(t) && c < ' '
    ensures Read(t, t', [c])
    ensures run(t, "\\u00" + [HEX[c as int / 16], HEX[c as int % 16]] + rest)
         == run(t', rest)
  {
    var h := ['0', '0', HEX[c as int / 16], HEX[c as int % 16]];
    HexDigits(c as int / 16);
    HexDigits(c as int % 16);
    assert "\\u00" + [HEX[c as int / 16], HEX[c as int % 16]] + rest == "\\u" + (h + rest);
    OpenUnicode(cfg, run, t, h + rest);
    assert FourHexValue(h) == c as int;
    ControlDone(t, c);
    t' := EscapeDone(Unicode(t).(ucs := c as int, stPos := 3));
    ReadFourHex(cfg, run, Unicode(t), h, rest, t');
  }

  lemma ReadChar(cfg: Config, run: Runner, t: Tok, c: char, f: Flags, rest: string) returns (t': Tok)
    requires Runs(run, cfg)
    requires InText(t) && t.quote == '"'
    ensures Read(t, t', [c])
    ensures run(t, EscapeChar(c, f) + rest) == run(t', rest)
  {
    if c == '\U{8}' { t' := ReadShortEscape(cfg, run, t, c, 'b', rest); }
    else if c == '\n' { t' := ReadShortEscape(cfg, run, t, c, 'n', rest); }
    else if c == '\r' { t' := ReadShortEscape(cfg, run, t, c, 'r', rest); }
    else if c == '\t' { t' := ReadShortEscape(cfg, run, t, c, 't', rest); }
    else if c == '\U{c}' { t' := ReadShortEscape(cfg, run, t, c, 'f', rest); }
    else if c == '"' || c == '\\' || (c == '/' && !f.noSlashEscape) {
      t' := ReadShortEscape(cfg, run, t, c, c, rest);
    } else if c < ' ' { t' := ReadControl(cfg, run, t, c, rest); }
    else {
      t' := Append(t, [c]);
      ExecEat(cfg, run, t, c, rest, t');
    }
  }

  /** Any bytes, NUL and control bytes included, survive escaping and reading. */
  lemma {:induction false} ReadText(cfg: Config, run: Runner, t: Tok, s: string, f: Flags, rest: string)
    returns (t': Tok)
    requires Runs(run, cfg)
    requires InText(t) && t.quote == '"'
    ensures Read(t, t', s)
    ensures run(t, Escape(s, f) + rest) == run(t', rest)
    decreases |s|
  {
    if s == [] {
      t' := t;
      assert Escape(s, f) + rest == rest;
      assert t.pb + s == t.pb;
    } else {
      Assoc(EscapeChar(s[0], f), Escape(s[1..], f), rest);
      var t1 := ReadChar(cfg, run, t, s[0], f, Escape(s[1..], f) + rest);
      t' := ReadText(cfg, run, t1, s[1..], f, rest);
      ReadTrans(t, t1, t', [s[0]], s[1..]);
      assert [s[0]] + s[1..] == s;
    }
  }

  // ---------------------------------------------------------------- scalars

  /** What the parser makes of a value: an unsigned integer in the signed range is signed. */
  function Norm(v: Json): Json {
    match v
    case UInt(u) => if u <= INT64_MAX then Int(u) else v
    case Arr(items) => Arr(NormItems(items))
    case Obj(fields) => Obj(NormFields(fields))
    case _ => v
  }

  function NormItems(items: seq<Json>): (r: seq<Json>)
    ensures |r| == |items|
  {
    if items == [] then [] else [Norm(items[0])] + NormItems(items[1..])
  }

  function NormFields(fields: seq<Field>): (r: seq<Field>)
    ensures |r| == |fields|
  {
    if fields == [] then []
    else [Field(fields[0].name, Norm(fields[0].value))] + NormFields(fields[1..])
  }

  /** A level about to read a value. */
  predicate Ready(t: Tok) {
    Top(t) == FRESH_LEVEL && t.high == 0 && t.scan == NotScanning
  }

  /** t' is t with the value v complete on its top level. */
  predicate Landed(t: Tok, t': Tok, v: Json) {
   
    && t'.below == t.below && t'.top == Level(EatWs, Finish, v, "")
    && t'.high == 0 && t'.scan == NotScanning
  }

  /** What may follow a value: the end of the text at the top, otherwise a separator, a
      closing bracket or the white space before it. */
  predicate Ends(rest: string, depth: nat) {
    rest != [] &&
    if depth <= 1 then rest[0] == NUL || IsWs(rest[0])
    else rest[0] == ',' || rest[0] == ']' || rest[0] == '}' || IsWs(rest[0])
  }

  /** Not passed over between tokens. */
  predicate Solid(cfg: Config, c: char) { !IsWs(c) && (c != '/' || cfg.strict) }

  lemma ReadStart(cfg: Config, run: Runner, t: Tok, c: char, rest: string)
    requires Runs(run, cfg)
    requires Ready(t) && Solid(cfg, c)
    ensures run(t, [c] + rest) == run(Goto(t, Start), [c] + rest)
  {
    ExecRedo(cfg, run, t, c, rest, Goto(t, Start));
  }

  lemma ReadString(cfg: Config, run: Runner, t: Tok, s: string, f: Flags, rest: string) returns (t': Tok)
    requires Runs(run, cfg)
    requires Ready(t)
    ensures Landed(t, t', Str(s))
    ensures run(t, "\"" + Escape(s, f) + "\"" + rest) == run(t', rest)
  {
    var e := Escape(s, f);
    Assoc("\"" + e, "\"", rest);
    Assoc("\"", e, "\"" + rest);
    ReadStart(cfg, run, t, '"', e + (['"'] + rest));
    var t1 := Goto(t.(pb := "", quote := '"'), StringBody);
    ExecEat(cfg, run, Goto(t, Start), '"', e + (['"'] + rest), t1);
    var t2 := ReadText(cfg, run, t1, s, f, ['"'] + rest);
    assert [] + s == s;
    t' := Complete(t2, Str(s));
    CloseString(cfg, run, t2, rest);
  }

  lemma CloseString(cfg: Config, run: Runner, t: Tok, rest: string)
    requires Runs(run, cfg) && Top(t).state == StringBody && t.quote != NUL
    ensures run(t, [t.quote] + rest) == run(Complete(t, Str(t.pb)), rest)
  {
    ExecEat(cfg, run, t, t.quote, rest, Complete(t, Str(t.pb)));
  }

  predicate IsWord(state: State, word: string) {
    || (state == NullWord && (word == "null" || word == "NaN"))
    || (state == Boolean && (word == "true" || word == "false"))
  }

  function WordValue(word: string): Json {
    match word
    case "true" => Bool(true)
    case "false" => Bool(false)
    case "NaN" => Double("NaN")
    case _ => Null
  }

  /** w is the word, letter by letter, up to case unless strict. */
  predicate Spelling(strict: bool, word: string, w: string) {
    |w| == |word| && Matches(word, w, |word|, strict)
  }

  /** The machine after the first k characters of a word. */
  function Spelt(t: Tok, w: string, k: nat): Tok
    requires k <= |w|
  {
    t.(pb := w[..k], stPos := k)
  }

  ghost predicate Spells(cfg: Config, t: Tok, w: string, k: nat)
    requires k < |w|
  {
    w[k] != NUL && Step(cfg, Spelt(t, w, k), w[k]) == Eat(Spelt(t, w, k + 1))
  }

  lemma WordSpells(cfg: Config, t: Tok, word: string, w: string, k: nat)
    requires IsWord(Top(t).state, word) && Spelling(cfg.strict, word, w) && k < |word|
    ensures Spells(cfg, t, w, k)
  {
    assert word[k] != NUL && Lower(word[k]) != Lower(NUL);
    if word == "null" || word == "NaN" {
      NullSpells(cfg, Spelt(t, w, k), word, w, k);
    } else {
      BooleanSpells(cfg, Spelt(t, w, k), word, w, k);
    }
  }

  lemma NullSpells(cfg: Config, t: Tok, word: string, w: string, k: nat)
    requires (word == "null" || word == "NaN") && Spelling(cfg.strict, word, w)
    requires k < |word| && t.stPos == k && t.pb == w[..k]
    ensures StepNull(cfg, t, w[k]) == Eat(t.(pb := w[..k + 1], stPos := k + 1))
  {
    assert w[..k] + [w[k]] == w[..k + 1];
    PrefixMatches(word, w, k + 1, cfg.strict);
  }

  lemma NanNotNull(pb: string, strict: bool)
    requires |pb| == 4 && Lower(pb[1]) == 'a'
    ensures !Matches("null", pb, 4, strict)
  {
    assert "null"[1] == 'u' && Lower('u') != 'a';
  }

  lemma BooleanSpells(cfg: Config, t: Tok, word: string, w: string, k: nat)
    requires (word == "true" || word == "false") && Spelling(cfg.strict, word, w)
    requires k < |word| && t.stPos == k && t.pb == w[..k]
    ensures StepBoolean(cfg, t, w[k]) == Eat(t.(pb := w[..k + 1], stPos := k + 1))
  {
    assert w[..k] + [w[k]] == w[..k + 1];
    PrefixMatches(word, w, k + 1, cfg.strict);
    if word == "false" {
      FirstLetter(word, w, cfg.strict);
      FalseNotTrue(w[..k + 1], Min(k + 1, 4), cfg.strict);
    }
  }

  lemma PrefixMatches(word: string, w: string, n: nat, strict: bool)
    requires n <= |word| && Spelling(strict, word, w)
    ensures Matches(word, w[..n], Min(n, |word|), strict)
  {
  }

  lemma FirstLetter(word: string, w: string, strict: bool)
    requires Spelling(strict, word, w) && word != []
    ensures Lower(w[0]) == Lower(word[0])
    ensures |word| > 1 ==> Lower(w[1]) == Lower(word[1])
  {
  }

  lemma FalseNotTrue(pb: string, n: nat, strict: bool)
    requires 0 < n <= 4 && pb != [] && Lower(pb[0]) == 'f'
    ensures !Matches("true", pb, n, strict)
  {
    assert "true"[0] != pb[0] && Lower("true"[0]) == 't';
  }

  lemma {:induction false} ReadWord(cfg: Config, run: Runner, t: Tok, w: string, k: nat, rest: string)
    requires Runs(run, cfg)
    requires k <= |w| && forall i :: 0 <= i < |w| ==> Spells(cfg, t, w, i)
    ensures run(Spelt(t, w, k), w[k..] + rest) == run(Spelt(t, w, |w|), rest)
    decreases |w| - k
  {
    if k == |w| {
      assert w[k..] + rest == rest;
    } else {
      assert w[k..] + rest == [w[k]] + (w[k + 1..] + rest);
      assert Spells(cfg, t, w, k);
      ExecEat(cfg, run, Spelt(t, w, k), w[k], w[k + 1..] + rest, Spelt(t, w, k + 1));
      ReadWord(cfg, run, t, w, k + 1, rest);
    }
  }

  /** The character behind a word completes it. */
  lemma WordEnd(cfg: Config, run: Runner, t: Tok, word: string, w: string, rest: string)
    requires Runs(run, cfg)
    requires IsWord(Top(t).state, word) && Spelling(cfg.strict, word, w)
    requires t.stPos == |word| && t.pb == w && rest != []
    ensures run(t, rest) == run(Complete(Append(t, [rest[0]]), WordValue(word)), rest)
  {
    var pb := w + [rest[0]];
    assert rest == [rest[0]] + rest[1..];
    FirstLetter(word, w, cfg.strict);
    assert Matches(word, pb, |word|, cfg.strict);
    if word == "false" {
      FalseNotTrue(pb, 4, cfg.strict);
    }
    if word == "NaN" {
      NanNotNull(pb, cfg.strict);
    }
    ExecRedo(cfg, run, t, rest[0], rest[1..], Complete(Append(t, [rest[0]]), WordValue(word)));
  }

  lemma StartWord(cfg: Config, run: Runner, t: Tok, state: State, c: char, rest: string)
    requires Runs(run, cfg) && Ready(t)
    requires (state == NullWord && Lower(c) == 'n') || (state == Boolean && (Lower(c) == 't' || Lower(c) == 'f'))
    ensures run(t, [c] + rest) == run(Goto(t.(pb := "", stPos := 0), state), [c] + rest)
  {
    WordFirst(cfg, Goto(t, Start), c, state);
    ReadStart(cfg, run, t, c, rest);
    ExecRedo(cfg, run, Goto(t, Start), c, rest, Goto(t.(pb := "", stPos := 0), state));
  }

  lemma WordFirst(cfg: Config, t: Tok, c: char, state: State)
    requires Top(t).state == Start
    requires (state == NullWord && Lower(c) == 'n') || (state == Boolean && (Lower(c) == 't' || Lower(c) == 'f'))
    ensures Step(cfg, t, c) == Redo(Goto(t.(pb := "", stPos := 0), state))
  {
  }

  lemma ReadKeyword(cfg: Config, run: Runner, t: Tok, word: string, w: string, state: State, rest: string)
    returns (t': Tok)
    requires Runs(run, cfg)
    requires Ready(t) && rest != []
    requires IsWord(state, word) && Spelling(cfg.strict, word, w)
    ensures Landed(t, t', WordValue(word))
    ensures run(t, w + rest) == run(t', rest)
  {
    var t1 := Goto(t.(pb := "", stPos := 0), state);
    assert w + rest == [w[0]] + (w[1..] + rest);
    FirstLetter(word, w, cfg.strict);
    StartWord(cfg, run, t, state, w[0], w[1..] + rest);
    forall k | 0 <= k < |w| ensures Spells(cfg, t1, w, k) {
      WordSpells(cfg, t1, word, w, k);
    }
    ReadWord(cfg, run, t1, w, 0, rest);
    assert w[0..] == w && w[..0] == "" && w[..|w|] == w;
    var t2 := Spelt(t1, w, |w|);
    WordEnd(cfg, run, t2, word, w, rest);
    t' := Complete(Append(t2, [rest[0]]), WordValue(word));
  }

  // ---------------------------------------------------------------- numbers

  lemma {:induction false} AllLeading(s: string)
    requires forall i :: 0 <= i < |s| ==> IsDigit(s[i])
    ensures LeadingDigits(s) == |s|
    decreases |s|
  {
    if s != [] {
      AllLeading(s[1..]);
    }
  }

  /** Decimal digits denote the number they were printed from; there is no leading zero. */
  lemma {:induction false} DecimalValue(n: nat)
    ensures LeadingDigits(Decimal(n)) == |Decimal(n)| && LeadingValue(Decimal(n)) == n
    ensures Decimal(n)[0] == '0' ==> n == 0
    decreases n
  {
    var d := Decimal(n);
    AllLeading(d);
    assert d[..|d|] == d;
    if n < 10 {
      assert d[..0] == "";
      assert DigitsValue("") == 0;
    } else {
      DecimalValue(n / 10);
      var high := Decimal(n / 10);
      assert high[..|high|] == high;
      assert d[..|d| - 1] == high;
      assert d[|d| - 1] == Digit(n % 10);
    }
  }

  predicate InNumber(t: Tok) {
    && Top(t).state == Number && !t.isDouble && t.high == 0
    && ((t.scan == NotScanning && t.pb == "") || (t.scan.Scanning? && !t.scan.exponent))
  }

  lemma {:induction false} ReadDigits(cfg: Config, run: Runner, t: Tok, ds: string, rest: string) returns (t': Tok)
    requires Runs(run, cfg)
    requires InNumber(t) && forall i :: 0 <= i < |ds| ==> IsDigit(ds[i])
    ensures InNumber(t') && t'.below == t.below && t'.top == t.top && t'.pb == t.pb + ds
    ensures run(t, ds + rest) == run(t', rest)
    decreases |ds|
  {
    if ds == [] {
      t' := t;
      assert ds + rest == rest && t.pb + ds == t.pb;
    } else {
      var t1 := NumberStep(cfg, run, t, ds[0], ds[1..] + rest);
      assert ds + rest == [ds[0]] + (ds[1..] + rest);
      t' := ReadDigits(cfg, run, t1, ds[1..], rest);
      assert t.pb + [ds[0]] + ds[1..] == t.pb + ds;
    }
  }

  lemma NumberStep(cfg: Config, run: Runner, t: Tok, c: char, rest: string) returns (t1: Tok)
    requires Runs(run, cfg)
    requires InNumber(t) && (IsDigit(c) || (c == '-' && t.pb == "" && t.scan == NotScanning))
    ensures InNumber(t1) && t1.below == t.below && t1.top == t.top && t1.pb == t.pb + [c]
    ensures run(t, [c] + rest) == run(t1, rest)
  {
    var n := if t.scan.Scanning? then t.scan else ScanStart(t.pb);
    assert !n.exponent;
    t1 := ScanChar(t, n, c);
    ExecEat(cfg, run, t, c, rest, t1);
  }

  lemma NumberEnd(cfg: Config, run: Runner, t: Tok, v: Json, rest: string) returns (t': Tok)
    requires Runs(run, cfg)
    requires InNumber(t) && Ends(rest, Levels(t)) && NumberValue(cfg, false, t.pb) == Value(v)
    requires Top(t).current == Null && Top(t).field == ""
    ensures Landed(t, t', v)
    ensures run(t, rest) == run(t', rest)
  {
    var c := rest[0];
    assert rest == [c] + rest[1..];
    t' := Complete(t.(scan := NotScanning), v);
    assert Step(cfg, t, c) == StepNumber(cfg, t, c) == Redo(t');
    ExecRedo(cfg, run, t, c, rest[1..], t');
  }

  lemma StartNumber(cfg: Config, run: Runner, t: Tok, c: char, rest: string) returns (t1: Tok)
    requires Runs(run, cfg)
    requires Ready(t) && (IsDigit(c) || c == '-')
    ensures InNumber(t1) && t1.pb == "" && t1.scan == NotScanning
    ensures t1.below == t.below && t1.top == FRESH_LEVEL.(state := Number)
    ensures run(t, [c] + rest) == run(t1, [c] + rest)
  {
    ReadStart(cfg, run, t, c, rest);
    t1 := Goto(t.(pb := "", isDouble := false, scan := NotScanning), Number);
    ExecRedo(cfg, run, Goto(t, Start), c, rest, t1);
  }

  lemma ReadUnsigned(cfg: Config, run: Runner, t: Tok, n: nat, rest: string) returns (t': Tok)
    requires Runs(run, cfg)
    requires Ready(t) && Ends(rest, Levels(t)) && n <= UINT64_MAX
    ensures Landed(t, t', Norm(UInt(n)))
    ensures run(t, Decimal(n) + rest) == run(t', rest)
  {
    var d := Decimal(n);
    assert d + rest == [d[0]] + (d[1..] + rest);
    var t1 := StartNumber(cfg, run, t, d[0], d[1..] + rest);
    var t2 := ReadDigits(cfg, run, t1, d, rest);
    assert "" + d == d;
    DecimalValue(n);
    t' := NumberEnd(cfg, run, t2, Norm(UInt(n)), rest);
  }

  lemma NegativeValue(cfg: Config, n: nat)
    requires 0 < n <= -INT64_MIN
    ensures NumberValue(cfg, false, "-" + Decimal(n)) == Value(Int(0 - n))
  {
    var pb := "-" + Decimal(n);
    assert pb[0] == '-' && pb[1..] == Decimal(n);
    DecimalValue(n);
  }

  lemma ReadNegative(cfg: Config, run: Runner, t: Tok, n: nat, rest: string) returns (t': Tok)
    requires Runs(run, cfg)
    requires Ready(t) && Ends(rest, Levels(t)) && 0 < n <= -INT64_MIN
    ensures Landed(t, t', Int(0 - n))
    ensures run(t, "-" + Decimal(n) + rest) == run(t', rest)
  {
    var d := Decimal(n);
    assert "-" + d + rest == ['-'] + (d + rest);
    var t1 := StartNumber(cfg, run, t, '-', d + rest);
    var t2 := NumberStep(cfg, run, t1, '-', d + rest);
    var t3 := ReadDigits(cfg, run, t2, d, rest);
    assert t3.pb == "-" + d;
    NegativeValue(cfg, n);
    t' := NumberEnd(cfg, run, t3, Int(0 - n), rest);
  }
}
