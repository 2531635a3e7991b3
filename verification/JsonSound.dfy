/** What is accepted is a text of the grammar. */
module JsonSound {
  import opened Arith
  import opened Options
  import opened Seqs
  import opened JsonValues
  import opened JsonTokener
  import opened JsonRoundTrip
  import opened JsonContainers
  import opened JsonTheorems
  import opened JsonCalls
  import opened JsonEscapes
  import opened JsonStrings
  import opened JsonGrammar
  import opened JsonNumbers
  import opened JsonSpaces
  import opened JsonAccepts

  // ---------------------------------------------------------------- strings

  lemma NulInText(cfg: Config, run: Runner, t: Tok, s: string)
    requires Runs(run, cfg) && InLiteral(t) && Terminated(s) && s[0] == NUL
    ensures !Accepts(run(t, s))
  {
    assert s == [NUL] + [];
    GiveUp(cfg, run, t, NUL, []);
    ForgetRead(t);
    NulFails(cfg, run, Forget(t), s);
  }

  lemma {:induction false} FindHex(cfg: Config, run: Runner, u: Tok, s: string)
    requires Runs(run, cfg) && Terminated(s) && Accepts(run(u, s))
    requires Top(u).state == EscapeUnicode && u.stPos <= 3
    ensures |s| > 4 - u.stPos && forall i :: 0 <= i < 4 - u.stPos ==> IsHex(s[i])
    decreases 4 - u.stPos
  {
    assert s == [s[0]] + s[1..];
    if !IsHex(s[0]) {
      StopFails(cfg, run, u, s[0], s[1..]);
    } else {
      Behind(s);
      if u.stPos < 3 {
        ReadHex(cfg, run, u, s[0], s[1..]);
        FindHex(cfg, run, u.(ucs := u.ucs + HexAt(s[0], u.stPos), stPos := u.stPos + 1), s[1..]);
      }
    }
  }

  lemma CodeSplit(s: string)
    requires |s| > 6 && Terminated(s) && s[0] == '\\' && s[1] == 'u'
    requires forall i :: 0 <= i < 4 ==> IsHex(s[2..][i])
    ensures FourHex(s[2..6]) && s == PieceText(Code(s[2..6])) + s[6..] && Terminated(s[6..])
  {
    assert forall i :: 0 <= i < 4 ==> s[2..6][i] == s[2..][i];
    assert s == "\\u" + s[2..6] + s[6..];
  }

  lemma FindCode(cfg: Config, run: Runner, t: Tok, s: string) returns (p: Piece)
    requires Runs(run, cfg) && InLiteral(t) && Terminated(s) && Accepts(run(t, s))
    requires |s| > 2 && s[0] == '\\' && s[1] == 'u'
    ensures ValidPiece(p) && p.Code? && |s| > 6 && s == PieceText(p) + s[6..] && Terminated(s[6..])
  {
    assert s == "\\u" + s[2..];
    var u := OpenCode(cfg, run, t, s[2..]);
    FindHex(cfg, run, u, s[2..]);
    CodeSplit(s);
    p := Code(s[2..6]);
  }

  lemma FindShort(cfg: Config, run: Runner, t: Tok, s: string) returns (p: Piece)
    requires Runs(run, cfg) && InLiteral(t) && Terminated(s) && Accepts(run(t, s))
    requires |s| > 1 && s[0] == '\\' && s[1] != 'u'
    ensures ValidPiece(p) && p.Short? && |s| > 2 && s == PieceText(p) + s[2..] && Terminated(s[2..])
  {
    var e, x := s[1], Forget(t);
    assert s == ['\\'] + ([e] + s[2..]);
    GiveUpEscape(cfg, run, t, e, s[2..]);
    ForgetRead(t);
    ExecEat(cfg, run, x, '\\', [e] + s[2..], Escaping(x));
    if e !in {'"', '\\', '/', 'b', 'f', 'n', 'r', 't'} {
      StopFails(cfg, run, Escaping(x), e, s[2..]);
    }
    p := Short(e);
    assert s == ['\\', e] + s[2..];
  }

  /** The next piece of a literal. */
  lemma FindPiece(cfg: Config, run: Runner, t: Tok, s: string) returns (p: Piece, t1: Tok, rest: string)
    requires Runs(run, cfg) && InLiteral(t) && Terminated(s) && Accepts(run(t, s)) && s[0] != t.quote
    ensures ValidPiece(p) && (p.Raw? ==> t.quote !in p.b) && s == PieceText(p) + rest && |rest| < |s|
    ensures InLiteral(t1) && t1.quote == t.quote && Terminated(rest) && Accepts(run(t1, rest))
  {
    assert s == [s[0]] + s[1..];
    if s[0] == NUL { NulInText(cfg, run, t, s); }
    Behind(s);
    if s[0] != '\\' {
      p, rest := Raw([s[0]]), s[1..];
      t1 := ReadPlain(cfg, run, t, p, rest);
    } else if s[1] == 'u' {
      p := FindCode(cfg, run, t, s);
      rest := s[6..];
      t1 := ReadCode(cfg, run, t, p, rest);
    } else {
      p := FindShort(cfg, run, t, s);
      rest := s[2..];
      t1 := ReadPlain(cfg, run, t, p, rest);
    }
  }

  /** A string that is read to its end is a literal of the grammar. */
  lemma {:induction false} FindPieces(cfg: Config, run: Runner, t: Tok, s: string)
    returns (ps: seq<Piece>, rest: string)
    requires Runs(run, cfg) && InLiteral(t) && Terminated(s) && Accepts(run(t, s))
    ensures Valid(ps) && Inside(ps, t.quote) && s == Text(ps) + ([t.quote] + rest) && Terminated(rest)
    decreases |s|
  {
    if s[0] == t.quote {
      Behind(s);
      ps, rest := [], s[1..];
      assert s == [] + ([t.quote] + rest);
    } else {
      var p, t1, s1 := FindPiece(cfg, run, t, s);
      var ps1, rest1 := FindPieces(cfg, run, t1, s1);
      ps, rest := [p] + ps1, rest1;
      assert ps[0] == p && ps[1..] == ps1;
      Assoc(PieceText(p), Text(ps1), [t.quote] + rest);
    }
  }

  // ---------------------------------------------------------------- words

  /** A letter that may stand for the k-th of a word. */
  predicate FitsLetter(strict: bool, word: string, k: nat, c: char)
    requires k < |word|
  {
    word[k] == c || (!strict && Lower(word[k]) == Lower(c))
  }

  /** Without regard to case, the second letter tells null from NaN. */
  predicate Chosen(strict: bool, word: string, k: nat, s: string) {
    !strict && k <= 1 && (word == "null" || word == "NaN") ==>
      |s| > 1 - k && (Lower(s[1 - k]) == 'a' <==> word == "NaN")
  }

  /** How the state of a word is entered. */
  predicate Begins(strict: bool, word: string, c: char)
    requires word != []
  {
    Lower(c) == Lower(word[0]) && (word == "null" || word == "NaN" ==> FitsLetter(strict, word, 0, c))
  }

  lemma Misspelt(cfg: Config, t: Tok, word: string, w: string, k: nat, s: string)
    requires IsWord(Top(t).state, word) && Spelling(cfg.strict, word, w) && k < |word|
    requires s != [] && !FitsLetter(cfg.strict, word, k, s[0]) && Chosen(cfg.strict, word, k, s)
    requires k == 0 ==> Begins(cfg.strict, word, s[0])
    ensures var m := Step(cfg, Spelt(t, w, k), s[0]); m.Stop? && m.err != Success
  {
    var pb := w[..k] + [s[0]];
    assert pb[k] == s[0] && (k > 0 ==> pb[0] == w[0]) && (k > 1 ==> pb[1] == w[1]);
    FirstLetter(word, w, cfg.strict);
    if word == "null" || word == "NaN" {
      MisspeltNull(cfg.strict, word, pb, k);
    } else {
      MisspeltBoolean(cfg.strict, word, pb, k);
    }
  }

  lemma MisspeltNull(strict: bool, word: string, pb: string, k: nat)
    requires (word == "null" || word == "NaN") && 0 < k < |word| && |pb| == k + 1
    requires !FitsLetter(strict, word, k, pb[k])
    requires if strict then pb[0] == word[0] else if k > 1 then Lower(pb[1]) == Lower(word[1])
             else word == "null" && Lower(pb[1]) != 'a'
    ensures !Matches("null", pb, Min(k + 1, 4), strict) && !Matches("NaN", pb, Min(k + 1, 3), strict)
  {
    assert "null"[1] == 'u' && "NaN"[1] == 'a' && Lower('a') == 'a' && Lower('u') == 'u';
    if word == "null" {
      assert !Matches("null", pb, Min(k + 1, 4), strict);
    } else {
      assert !Matches("NaN", pb, Min(k + 1, 3), strict);
    }
  }

  lemma MisspeltBoolean(strict: bool, word: string, pb: string, k: nat)
    requires (word == "true" || word == "false") && k < |word| && |pb| == k + 1
    requires !FitsLetter(strict, word, k, pb[k]) && Lower(pb[0]) == Lower(word[0])
    ensures !Matches("true", pb, Min(k + 1, 4), strict) && !Matches("false", pb, Min(k + 1, 5), strict)
  {
    assert Lower("true"[0]) == 't' && Lower("false"[0]) == 'f';
    if word == "true" {
      assert !Matches("true", pb, Min(k + 1, 4), strict);
    } else {
      assert !Matches("false", pb, Min(k + 1, 5), strict);
    }
  }

  /** The rest of a word; w is a spelling of it that begins with the letters read. */
  lemma {:induction false} FindWord(cfg: Config, run: Runner, t: Tok, word: string, w: string, k: nat, s: string)
    returns (w': string, rest: string)
    requires Runs(run, cfg) && IsWord(Top(t).state, word) && Spelling(cfg.strict, word, w) && k <= |word|
    requires Terminated(s) && Chosen(cfg.strict, word, k, s) && Accepts(run(Spelt(t, w, k), s))
    requires k == 0 ==> Begins(cfg.strict, word, s[0])
    ensures Spelling(cfg.strict, word, w') && w'[..k] == w[..k] && s == w'[k..] + rest && Terminated(rest)
    decreases |word| - k
  {
    if k == |word| {
      w', rest := w, s;
      assert w[k..] + rest == rest;
    } else {
      assert s == [s[0]] + s[1..];
      if !FitsLetter(cfg.strict, word, k, s[0]) {
        Misspelt(cfg, t, word, w, k, s);
        StopFails(cfg, run, Spelt(t, w, k), s[0], s[1..]);
      }
      var w1 := w[k := s[0]];
      assert w1[..k] == w[..k];
      WordSpells(cfg, t, word, w1, k);
      Behind(s);
      ExecEat(cfg, run, Spelt(t, w1, k), s[0], s[1..], Spelt(t, w1, k + 1));
      w', rest := FindWord(cfg, run, t, word, w1, k + 1, s[1..]);
      LetterFound(w, w1, w', k, s, rest);
    }
  }

  lemma LetterFound(w: string, w1: string, w': string, k: nat, s: string, rest: string)
    requires k < |w| == |w1| == |w'| && s != [] && w1 == w[k := s[0]]
    requires w'[..k + 1] == w1[..k + 1] && s[1..] == w'[k + 1..] + rest
    ensures w'[..k] == w[..k] && s == w'[k..] + rest
  {
    assert w'[..k] == w'[..k + 1][..k] == w1[..k + 1][..k] == w[..k];
    assert w'[k] == w'[..k + 1][k] == w1[..k + 1][k] == s[0];
    assert w'[k..] == [s[0]] + w'[k + 1..];
    Assoc([s[0]], w'[k + 1..], rest);
    assert s == [s[0]] + s[1..];
  }

  lemma {:induction false} FindInfinity(cfg: Config, run: Runner, t: Tok, w: string, s: string)
    returns (w': string, rest: string)
    requires Runs(run, cfg) && Top(t).state == Infinity && t.stPos <= 8 && Terminated(s)
    requires Spelling(cfg.strict, "Infinity", w) && Accepts(run(t, s))
    ensures Spelling(cfg.strict, "Infinity", w') && w'[..t.stPos] == w[..t.stPos]
    ensures s == w'[t.stPos..] + rest && Terminated(rest)
    decreases 8 - t.stPos
  {
    var k := t.stPos;
    if k == 8 {
      w', rest := w, s;
      assert w[k..] + rest == rest;
    } else {
      assert s == [s[0]] + s[1..];
      InfinityMove(cfg, t, s[0]);
      if !InfinityChar(cfg.strict, k, s[0]) {
        StopFails(cfg, run, t, s[0], s[1..]);
      }
      Behind(s);
      var w1 := w[k := s[0]];
      ExecEat(cfg, run, t, s[0], s[1..], t.(stPos := k + 1));
      w', rest := FindInfinity(cfg, run, t.(stPos := k + 1), w1, s[1..]);
      LetterFound(w, w1, w', k, s, rest);
    }
  }

  // ---------------------------------------------------------------- scalars

  /** The input begins with the value v, which has been read. */
  ghost predicate Found(cfg: Config, run: Runner, t: Tok, s: string, v: Tree, t': Tok, rest: string) {
    && Good(cfg, v) && s == TreeText(v) + rest && Terminated(rest)
    && Landed(t, t', Means(v)) && run(t, s) == run(t', rest) && Levels(t) + Height(v) <= cfg.maxDepth
  }

  /** A value is about to be read, and the call goes on to accept the input. */
  ghost predicate Reading(cfg: Config, run: Runner, t: Tok, s: string) {
    Runs(run, cfg) && Ready(t) && Terminated(s) && Accepts(run(t, s)) && Levels(t) <= cfg.maxDepth
  }

  lemma FindSpelling(cfg: Config, run: Runner, t: Tok, word: string, state: State, s: string)
    returns (v: Tree, t': Tok, rest: string)
    requires Reading(cfg, run, t, s) && IsWord(state, word) && Chosen(cfg.strict, word, 0, s)
    requires Begins(cfg.strict, word, s[0])
    ensures Found(cfg, run, t, s, v, t', rest)
  {
    assert s == [s[0]] + s[1..];
    StartWord(cfg, run, t, state, s[0], s[1..]);
    var t1 := Goto(t.(pb := "", stPos := 0), state);
    assert word[..0] == "" && Spelt(t1, word, 0) == t1;
    var w, rest1 := FindWord(cfg, run, t1, word, word, 0, s);
    assert w[0..] == w;
    SpellingMeans(cfg.strict, word, w);
    v, rest := Word(w), rest1;
    t' := ReadWordTree(cfg, run, t, w, rest);
  }

  lemma FindKeyword(cfg: Config, run: Runner, t: Tok, s: string) returns (v: Tree, t': Tok, rest: string)
    requires Reading(cfg, run, t, s) && Lower(s[0]) in {'n', 't', 'f'}
    ensures Found(cfg, run, t, s, v, t', rest)
  {
    if Lower(s[0]) == 'n' {
      Behind(s);
      var nan := if cfg.strict then s[0] == 'N' else Lower(s[1]) == 'a';
      v, t', rest := FindSpelling(cfg, run, t, if nan then "NaN" else "null", NullWord, s);
    } else {
      v, t', rest := FindSpelling(cfg, run, t, if Lower(s[0]) == 't' then "true" else "false", Boolean, s);
    }
  }

  lemma FindPlusInfinity(cfg: Config, run: Runner, t: Tok, s: string) returns (v: Tree, t': Tok, rest: string)
    requires Reading(cfg, run, t, s) && (s[0] == 'I' || s[0] == 'i')
    ensures Found(cfg, run, t, s, v, t', rest)
  {
    assert s == [s[0]] + s[1..];
    OpenInfinity(cfg, run, t, s[0], s[1..]);
    var w, rest1 := FindInfinity(cfg, run, Goto(t.(pb := "", stPos := 0), Infinity), "Infinity", s);
    assert w[0..] == w;
    SpellingMeans(cfg.strict, "Infinity", w);
    v, rest := Word(w), rest1;
    t' := ReadWordTree(cfg, run, t, w, rest);
  }

  lemma FindMinusInfinity(cfg: Config, run: Runner, t: Tok, s: string) returns (v: Tree, t': Tok, rest: string)
    requires Reading(cfg, run, t, s) && |s| > 2 && s[0] == '-' && (s[1] == 'I' || s[1] == 'i')
    ensures Found(cfg, run, t, s, v, t', rest)
  {
    var c, tail := s[1], s[2..];
    assert s == ['-'] + ([c] + tail);
    var t1 := OpenMinus(cfg, run, t, c, tail);
    var w, rest1 := FindInfinity(cfg, run, t1, "Infinity", [c] + tail);
    assert w[0..] == w;
    v, rest := Word(['-'] + w), rest1;
    Assoc(['-'], w, rest);
    assert (['-'] + w)[1..] == w;
    MinusSpelling(cfg.strict, ['-'] + w);
    SpellingMeans(cfg.strict, "-Infinity", ['-'] + w);
    t' := ReadWordTree(cfg, run, t, ['-'] + w, rest);
  }

  lemma FindLiteral(cfg: Config, run: Runner, t: Tok, s: string) returns (v: Tree, t': Tok, rest: string)
    requires Reading(cfg, run, t, s) && (s[0] == '"' || (s[0] == '\'' && !cfg.strict))
    ensures Found(cfg, run, t, s, v, t', rest)
  {
    Behind(s);
    var q := s[0];
    ReadStart(cfg, run, t, q, s[1..]);
    var t1 := Goto(t.(pb := "", quote := q), StringBody);
    ExecEat(cfg, run, Goto(t, Start), q, s[1..], t1);
    var ps, rest1 := FindPieces(cfg, run, t1, s[1..]);
    v, rest := Literal(q, ps), rest1;
    t' := ReadLiteral(cfg, run, t, q, ps, rest);
    Assoc([q], Text(ps) + [q], rest);
    Assoc(Text(ps), [q], rest);
  }

  // ---------------------------------------------------------------- numbers

  /** The longest number at the beginning of the input. */
  lemma {:induction false} Munch(p: string, s: string) returns (q: string, rest: string)
    requires Follows(p) && Terminated(s)
    ensures s == q + rest && Follows(p + q) && Terminated(rest)
    ensures rest[0] == NUL || !MayFollow(p + q, rest[0])
    decreases |s|
  {
    if s[0] == NUL || !MayFollow(p, s[0]) {
      q, rest := [], s;
      assert p + q == p && q + rest == s;
    } else {
      Behind(s);
      MoreChar(p, s[0]);
      var q1, rest1 := Munch(p + [s[0]], s[1..]);
      q, rest := [s[0]] + q1, rest1;
      Assoc(p, [s[0]], q1);
      Assoc([s[0]], q1, rest);
    }
  }

  lemma MunchNumber(s: string) returns (text: string, rest: string)
    requires Terminated(s) && ('0' <= s[0] <= '9' || s[0] == '-')
    ensures s == text + rest && NumberText(text) && Terminated(rest)
    ensures rest[0] == NUL || !MayFollow(text, rest[0])
  {
    Behind(s);
    MoreChar([], s[0]);
    assert [] + [s[0]] == [s[0]];
    var q, rest1 := Munch([s[0]], s[1..]);
    text, rest := [s[0]] + q, rest1;
    Assoc([s[0]], q, rest);
  }

  /** Inside a container a number must be followed by what may end it. */
  lemma BadEnd(cfg: Config, run: Runner, t: Tok, p: string, c: char, tail: string)
    requires Runs(run, cfg) && Scanned(t, p) && (c == NUL || !MayFollow(p, c))
    requires Levels(t) > 1 && !EndsNumber(c)
    ensures !Accepts(run(t, [c] + tail))
  {
    PermitsIff(t, p, c);
    StopFails(cfg, run, t, c, tail);
  }

  lemma FindParts(cfg: Config, run: Runner, t: Tok, p: string, rest: string) returns (text: string, cut: string)
    requires Runs(run, cfg) && Ready(t) && Terminated(rest)
    requires NumberText(p) && Accepts(run(t, p + rest))
    requires rest[0] == NUL || !MayFollow(p, rest[0])
    requires p == "-" ==> rest[0] != 'I' && rest[0] != 'i'
    ensures p == text + cut && GoodNumber(cfg, text, cut) && EndsAt(p, rest[0], Levels(t))
  {
    var c := rest[0];
    assert rest == [c] + rest[1..];
    var t1 := ScanNumber(cfg, run, t, p, rest);
    if Levels(t) > 1 && !EndsNumber(c) {
      BadEnd(cfg, run, t1, p, c, rest[1..]);
    }
    if Step(cfg, t1, c).Stop? {
      StopFails(cfg, run, t1, c, rest[1..]);
    }
    text, cut := NumberParts(cfg, t1, p, c);
  }

  lemma FindNumber(cfg: Config, run: Runner, t: Tok, s: string) returns (v: Tree, t': Tok, rest: string)
    requires Reading(cfg, run, t, s) && ('0' <= s[0] <= '9' || s[0] == '-')
    ensures Found(cfg, run, t, s, v, t', rest)
  {
    var p, rest1 := MunchNumber(s);
    var c := rest1[0];
    if p == "-" && (c == 'I' || c == 'i') {
      Behind(rest1);
      assert s[0] == '-' && s[1] == c;
      v, t', rest := FindMinusInfinity(cfg, run, t, s);
    } else {
      var text, cut := FindParts(cfg, run, t, p, rest1);
      v, rest := Num(text, cut), rest1;
      t' := ReadNumber(cfg, run, t, text, cut, rest);
    }
  }

  // ---------------------------------------------------------------- the first character

  predicate Starts(cfg: Config, c: char) {
    || c == '[' || c == '{' || c == '"' || (c == '\'' && !cfg.strict)
    || Lower(c) in {'n', 't', 'f', 'i'} || c == '-' || '0' <= c <= '9'
  }

  lemma BadStart(cfg: Config, run: Runner, t: Tok, c: char, rest: string)
    requires Runs(run, cfg) && Ready(t) && Solid(cfg, c) && !Starts(cfg, c)
    ensures !Accepts(run(t, [c] + rest))
  {
    ReadStart(cfg, run, t, c, rest);
    assert Lower('N') == 'n' && Lower('T') == 't' && Lower('F') == 'f' && Lower('I') == 'i';
    StopFails(cfg, run, Goto(t, Start), c, rest);
  }

  lemma FindSimple(cfg: Config, run: Runner, t: Tok, s: string) returns (v: Tree, t': Tok, rest: string)
    requires Reading(cfg, run, t, s) && Starts(cfg, s[0]) && s[0] != '[' && s[0] != '{'
    ensures Found(cfg, run, t, s, v, t', rest)
  {
    var c := s[0];
    if c == '"' || c == '\'' {
      v, t', rest := FindLiteral(cfg, run, t, s);
    } else if Lower(c) in {'n', 't', 'f'} {
      v, t', rest := FindKeyword(cfg, run, t, s);
    } else if Lower(c) == 'i' {
      v, t', rest := FindPlusInfinity(cfg, run, t, s);
    } else {
      v, t', rest := FindNumber(cfg, run, t, s);
    }
  }

  // ---------------------------------------------------------------- elements

  /** The input s goes on with a token at c, behind the space before it. */
  ghost predicate AtToken(cfg: Config, run: Runner, t: Tok, s: string, gap: Spaces, t1: Tok, c: char, tail: string) {
    && GoodGap(cfg.strict, gap) && s == GapText(gap) + ([c] + tail) && Terminated([c] + tail)
    && Solid(cfg, c) && Passed(t, t1) && run(t, s) == run(t1, [c] + tail)
  }

  /** The input begins with the element e, which has been read and added to its container. */
  ghost predicate FoundElement(cfg: Config, run: Runner, t: Tok, wait: State, s: string, e: Element, t4: Tok,
                               rest: string)
    requires Awaits(t, wait)
  {
    && GoodElement(cfg, e) && s == ElementText(e) + rest && Terminated(rest) && Solid(cfg, rest[0])
    && Replaced(t, t4, Added(Top(t).(state := wait), Means(e.value))) && run(t, s) == run(t4, rest)
    && Levels(t) + 1 + Height(e.value) <= cfg.maxDepth
  }

  /** The new level of an element. */
  lemma EnterToken(cfg: Config, run: Runner, t: Tok, wait: State, s: string, gap: Spaces, t1: Tok, c: char,
                   tail: string)
    returns (t2: Tok)
    requires Runs(run, cfg) && Awaits(t, wait) && Levels(t) <= cfg.maxDepth
    requires AtToken(cfg, run, t, s, gap, t1, c, tail) && (wait == ArrayAdd ==> c != ']') && Accepts(run(t, s))
    ensures Over(t, t2, Top(t).(state := wait)) && Reading(cfg, run, t2, [c] + tail)
    ensures run(t, s) == run(t2, [c] + tail)
  {
    assert "" + ([c] + tail) == [c] + tail;
    Enter(cfg, run, t1, wait, "", c, tail);
    t2 := Entered(t1, wait);
  }

  lemma {:induction false} FindElement(cfg: Config, run: Runner, t: Tok, wait: State, s: string, gap: Spaces,
                                       t1: Tok, c: char, tail: string)
    returns (e: Element, t4: Tok, rest: string)
    requires Runs(run, cfg) && Awaits(t, wait) && Levels(t) <= cfg.maxDepth
    requires AtToken(cfg, run, t, s, gap, t1, c, tail) && (wait == ArrayAdd ==> c != ']') && Accepts(run(t, s))
    ensures FoundElement(cfg, run, t, wait, s, e, t4, rest) && |rest| <= |tail|
    decreases 1 + |tail|, 1, 0
  {
    var t2 := EnterToken(cfg, run, t, wait, s, gap, t1, c, tail);
    var v, t3, rest3 := FindTree(cfg, run, t2, [c] + tail);
    var gap2, t3', c2, tail2 := FindGap(cfg, run, t3, rest3);
    rest := [c2] + tail2;
    assert "" + rest == rest;
    t4 := EndElement(cfg, run, t, t2, t3', Top(t).(state := wait), Means(v), "", c2, tail2);
    e := Element(gap, v, gap2);
    TreeOpens(cfg, v);
    RegroupElement(e, rest);
  }

  // ---------------------------------------------------------------- the end of a container

  lemma BadSeparator(cfg: Config, run: Runner, t: Tok, c: char, tail: string)
    requires Runs(run, cfg) && Top(t).state == EatWs && Solid(cfg, c) && c != ','
    requires (Top(t).saved == ArraySep && c != ']') || (Top(t).saved == ObjectSep && c != '}')
    ensures !Accepts(run(t, [c] + tail))
  {
    Resume(cfg, run, t, c, tail);
    StopFails(cfg, run, Goto(t, Top(t).saved), c, tail);
  }

  /** In strict mode no comma comes before a closing bracket. */
  lemma NoExtraComma(cfg: Config, run: Runner, t: Tok, c: char, tail: string)
    requires Runs(run, cfg) && cfg.strict && Top(t).state == EatWs
    requires (Top(t).saved == ArrayAfterSep && c == ']') || (Top(t).saved == FieldStartAfterSep && c == '}')
    ensures !Accepts(run(t, [c] + tail))
  {
    Resume(cfg, run, t, c, tail);
    StopFails(cfg, run, Goto(t, Top(t).saved), c, tail);
  }

  /** What comes behind an element: the end of its container, or a comma and another one. */
  lemma FindSeparator(cfg: Config, run: Runner, t: Tok, close: char, s: string)
    returns (extra: Option<Spaces>, rest: string, t5: Tok, gap: Spaces, t6: Tok, c: char, tail: string)
    requires Runs(run, cfg) && Between(t, Top(t).saved, Top(t).current) && Terminated(s) && Solid(cfg, s[0])
    requires (Top(t).saved == ArraySep && close == ']') || (Top(t).saved == ObjectSep && close == '}')
    requires Accepts(run(t, s))
    ensures if c == close then s == CloseText(extra, close) + rest && GoodExtra(cfg.strict, extra) && Terminated(rest)
            else && s == [','] + rest && AtToken(cfg, run, t5, rest, gap, t6, c, tail) && |tail| + 1 < |s|
                 && t5 == Then(t, if close == ']' then ArrayAfterSep else FieldStartAfterSep)
                 && run(t, s) == run(t5, rest)
  {
    assert s == [s[0]] + s[1..];
    extra, rest, t5, gap, t6, c, tail := None, s[1..], t, [], t, close, "";
    if s[0] != close {
      if s[0] != ',' { BadSeparator(cfg, run, t, s[0], s[1..]); }
      Behind(s);
      t5 := Then(t, if close == ']' then ArrayAfterSep else FieldStartAfterSep);
      Comma(cfg, run, t, Top(t5).saved, rest);
      gap, t6, c, tail := FindGap(cfg, run, t5, rest);
      if c == close {
        if cfg.strict { NoExtraComma(cfg, run, t6, c, tail); }
        ExtraFound(s, gap, c, tail);
        extra, rest := Some(gap), tail;
      }
    } else {
      Behind(s);
    }
  }

  lemma ExtraFound(s: string, gap: Spaces, c: char, tail: string)
    requires s != [] && s[0] == ',' && s[1..] == GapText(gap) + ([c] + tail) && Terminated([c] + tail) && c != NUL
    ensures s == CloseText(Some(gap), c) + tail && Terminated(tail)
  {
    Behind([c] + tail);
    assert ([c] + tail)[1..] == tail;
    assert s == [','] + s[1..];
    Assoc([','], GapText(gap) + [c], tail);
    Assoc(GapText(gap), [c], tail);
  }

  // ---------------------------------------------------------------- arrays

  ghost predicate FoundItems(cfg: Config, run: Runner, t: Tok, done: seq<Json>, s: string,
                             items: seq<Element>, extra: Option<Spaces>, t': Tok, rest: string)
  {
    && items != [] && GoodItems(cfg, items) && GoodExtra(cfg.strict, extra)
    && s == ItemsText(items, extra) + rest && Terminated(rest)
    && Replaced(t, t', Level(EatWs, Finish, Arr(done + ItemsMean(items)), ""))
    && run(t, s) == run(t', rest) && Levels(t) + ItemsHeight(items) <= cfg.maxDepth
  }

  lemma LastItem(cfg: Config, run: Runner, t: Tok, done: seq<Json>, s: string, e: Element, t4: Tok,
                 extra: Option<Spaces>, rest: string)
    returns (t': Tok)
    requires Runs(run, cfg) && Between(t, Top(t).saved, Arr(done)) && Awaits(t, ArrayAdd)
    requires FoundElement(cfg, run, t, ArrayAdd, s, e, t4, CloseText(extra, ']') + rest)
    requires GoodExtra(cfg.strict, extra) && Terminated(rest)
    ensures FoundItems(cfg, run, t, done, s, [e], extra, t', rest)
  {
    t' := ReadEnd(cfg, run, t4, extra, ']', rest);
    assert [e][1..] == [];
    RegroupItems([e], extra, rest);
    assert ItemsMean([e]) == [Means(e.value)];
  }

  /** An element, a comma and more elements. */
  lemma ConsItems(cfg: Config, run: Runner, t: Tok, done: seq<Json>, s: string, e: Element, t4: Tok, t5: Tok,
                  tail: string, more: seq<Element>, extra: Option<Spaces>, t': Tok, rest: string)
    requires Between(t, Top(t).saved, Arr(done)) && Awaits(t, ArrayAdd)
    requires FoundElement(cfg, run, t, ArrayAdd, s, e, t4, [','] + tail)
    requires t5.below == t4.below && run(t4, [','] + tail) == run(t5, tail)
    requires FoundItems(cfg, run, t5, done + [Means(e.value)], tail, more, extra, t', rest)
    ensures FoundItems(cfg, run, t, done, s, [e] + more, extra, t', rest)
  {
    var items := [e] + more;
    assert items[0] == e && items[1..] == more;
    RegroupItems(items, extra, rest);
    Assoc(done, [Means(e.value)], ItemsMean(more));
  }

  lemma {:induction false} FindItems(cfg: Config, run: Runner, t: Tok, done: seq<Json>, s: string, gap: Spaces,
                                     t1: Tok, c: char, tail: string)
    returns (items: seq<Element>, extra: Option<Spaces>, t': Tok, rest: string)
    requires Runs(run, cfg) && Levels(t) <= cfg.maxDepth && Accepts(run(t, s))
    requires Between(t, Top(t).saved, Arr(done)) && (Top(t).saved == Array || Top(t).saved == ArrayAfterSep)
    requires AtToken(cfg, run, t, s, gap, t1, c, tail) && c != ']'
    ensures FoundItems(cfg, run, t, done, s, items, extra, t', rest)
    decreases 1 + |tail|, 2, 0
  {
    var e, t4, rest4 := FindElement(cfg, run, t, ArrayAdd, s, gap, t1, c, tail);
    var extra1, rest5, t5, gap5, t6, c5, tail5 := FindSeparator(cfg, run, t4, ']', rest4);
    if c5 == ']' {
      items, extra, rest := [e], extra1, rest5;
      t' := LastItem(cfg, run, t, done, s, e, t4, extra, rest);
    } else {
      var more, extra2, t7, rest7 :=
        FindItems(cfg, run, t5, done + [Means(e.value)], rest5, gap5, t6, c5, tail5);
      items, extra, t', rest := [e] + more, extra2, t7, rest7;
      ConsItems(cfg, run, t, done, s, e, t4, t5, rest5, more, extra, t', rest);
    }
  }

  // ---------------------------------------------------------------- objects

  ghost predicate FoundMembers(cfg: Config, run: Runner, t: Tok, done: seq<Field>, s: string,
                               members: seq<Member>, extra: Option<Spaces>, t': Tok, rest: string)
  {
    && members != [] && GoodMembers(cfg, members) && GoodExtra(cfg.strict, extra)
    && s == MembersText(members, extra) + rest && Terminated(rest)
    && Replaced(t, t', Level(EatWs, Finish, Obj(MembersMean(done, members)), ""))
    && run(t, s) == run(t', rest) && Levels(t) + MembersHeight(members) <= cfg.maxDepth
  }

  lemma FindColon(cfg: Config, run: Runner, t: Tok, s: string) returns (mid: Spaces, rest: string)
    requires Runs(run, cfg) && Terminated(s) && Accepts(run(t, s))
    requires Top(t).state == EatWs && Top(t).saved == FieldEnd
    ensures GoodGap(cfg.strict, mid) && s == GapText(mid) + ([':'] + rest) && Terminated(rest)
  {
    var gap, t1, c, tail := FindGap(cfg, run, t, s);
    if c != ':' {
      Resume(cfg, run, t1, c, tail);
      StopFails(cfg, run, Goto(t1, FieldEnd), c, tail);
    }
    Behind([c] + tail);
    assert ([c] + tail)[1..] == tail;
    mid, rest := gap, tail;
  }

  lemma FindQuoted(cfg: Config, run: Runner, t: Tok, s: State, v: Json, c: char, tail: string)
    returns (ps: seq<Piece>, rest: string)
    requires Runs(run, cfg) && Terminated([c] + tail)
    requires Between(t, s, v) && (s == FieldStart || s == FieldStartAfterSep)
    requires Solid(cfg, c) && c != '}' && Accepts(run(t, [c] + tail))
    ensures (c == '"' || c == '\'') && Valid(ps) && Inside(ps, c) && Terminated(rest)
    ensures tail == Text(ps) + ([c] + rest)
  {
    Resume(cfg, run, t, c, tail);
    if c != '"' && c != '\'' {
      StopFails(cfg, run, Goto(t, s), c, tail);
    }
    Behind([c] + tail);
    assert ([c] + tail)[1..] == tail;
    var t1 := Goto(t.(quote := c, pb := ""), FieldName);
    ExecEat(cfg, run, Goto(t, s), c, tail, t1);
    ps, rest := FindPieces(cfg, run, t1, tail);
  }

  const NO_ITEM := Element([], Word(""), [])

  /** A name and its colon. */
  lemma FindMemberName(cfg: Config, run: Runner, t: Tok, v: Json, s: string, gap: Spaces, t1: Tok, c: char,
                       tail: string)
    returns (m: Member, t': Tok, rest: string)
    requires Runs(run, cfg) && AtToken(cfg, run, t, s, gap, t1, c, tail)
    requires Between(t, Top(t).saved, v) && (Top(t).saved == FieldStart || Top(t).saved == FieldStartAfterSep)
    requires c != '}' && Accepts(run(t, s))
    ensures GoodName(cfg.strict, m) && s == NameText(m) + rest && Terminated(rest) && |rest| < |tail|
    ensures Replaced(t, t', Level(EatWs, ObjectValue, v, UpToNul(LiteralMeans(m.name))))
    ensures run(t, s) == run(t', rest)
  {
    var ps, rest1 := FindQuoted(cfg, run, t1, Top(t).saved, v, c, tail);
    var t2 := ReadQuoted(cfg, run, t1, Top(t).saved, v, Member([], c, ps, [], NO_ITEM), rest1);
    var mid, rest2 := FindColon(cfg, run, t2, rest1);
    m, rest := Member(gap, c, ps, mid, NO_ITEM), rest2;
    RegroupMember(m, rest);
    t' := ReadMemberName(cfg, run, t, Top(t).saved, v, m, rest);
  }

  /** A member whose value has been read. */
  ghost predicate FoundMember(cfg: Config, run: Runner, t: Tok, done: seq<Field>, s: string, m: Member, t4: Tok,
                              rest: string)
  {
    && GoodName(cfg.strict, m) && GoodElement(cfg, m.item) && s == NameText(m) + (ElementText(m.item) + rest)
    && Terminated(rest) && Solid(cfg, rest[0])
    && Replaced(t, t4, Level(EatWs, ObjectSep, Obj(WithMember(done, m)), "")) && run(t, s) == run(t4, rest)
    && Levels(t) + 1 + Height(m.item.value) <= cfg.maxDepth
  }

  lemma {:induction false} FindMember(cfg: Config, run: Runner, t: Tok, done: seq<Field>, s: string, gap: Spaces,
                                      t1: Tok, c: char, tail: string)
    returns (m: Member, t4: Tok, rest: string)
    requires Runs(run, cfg) && AtToken(cfg, run, t, s, gap, t1, c, tail) && Levels(t) <= cfg.maxDepth
    requires Between(t, Top(t).saved, Obj(done))
    requires Top(t).saved == FieldStart || Top(t).saved == FieldStartAfterSep
    requires c != '}' && Accepts(run(t, s))
    ensures FoundMember(cfg, run, t, done, s, m, t4, rest) && |rest| < |tail|
    decreases 1 + |tail|, 2, 0
  {
    var n, t2, rest2 := FindMemberName(cfg, run, t, Obj(done), s, gap, t1, c, tail);
    var gap2, t3, c3, tail3 := FindGap(cfg, run, t2, rest2);
    var e, t5, rest5 := FindElement(cfg, run, t2, ObjectValueAdd, rest2, gap2, t3, c3, tail3);
    m, t4, rest := n.(item := e), t5, rest5;
  }

  lemma LastMember(cfg: Config, run: Runner, t: Tok, done: seq<Field>, s: string, m: Member, t4: Tok,
                   extra: Option<Spaces>, rest: string)
    returns (t': Tok)
    requires Runs(run, cfg) && FoundMember(cfg, run, t, done, s, m, t4, CloseText(extra, '}') + rest)
    requires GoodExtra(cfg.strict, extra) && Terminated(rest)
    ensures FoundMembers(cfg, run, t, done, s, [m], extra, t', rest)
  {
    t' := ReadEnd(cfg, run, t4, extra, '}', rest);
    assert [m][1..] == [];
    RegroupMembers([m], extra, rest);
    assert MembersMean(done, [m]) == WithMember(done, m);
  }

  /** A member, a comma and more members. */
  lemma ConsMembers(cfg: Config, run: Runner, t: Tok, done: seq<Field>, s: string, m: Member, t4: Tok, t5: Tok,
                    tail: string, more: seq<Member>, extra: Option<Spaces>, t': Tok, rest: string)
    requires FoundMember(cfg, run, t, done, s, m, t4, [','] + tail)
    requires t5.below == t4.below && run(t4, [','] + tail) == run(t5, tail)
    requires FoundMembers(cfg, run, t5, WithMember(done, m), tail, more, extra, t', rest)
    ensures FoundMembers(cfg, run, t, done, s, [m] + more, extra, t', rest)
  {
    var members := [m] + more;
    assert members[0] == m && members[1..] == more;
    RegroupMembers(members, extra, rest);
  }

  lemma {:induction false} FindMembers(cfg: Config, run: Runner, t: Tok, done: seq<Field>, s: string, gap: Spaces,
                                       t1: Tok, c: char, tail: string)
    returns (members: seq<Member>, extra: Option<Spaces>, t': Tok, rest: string)
    requires Runs(run, cfg) && AtToken(cfg, run, t, s, gap, t1, c, tail) && Levels(t) <= cfg.maxDepth
    requires Between(t, Top(t).saved, Obj(done))
    requires Top(t).saved == FieldStart || Top(t).saved == FieldStartAfterSep
    requires c != '}' && Accepts(run(t, s))
    ensures FoundMembers(cfg, run, t, done, s, members, extra, t', rest)
    decreases 1 + |tail|, 3, 0
  {
    var m, t4, rest4 := FindMember(cfg, run, t, done, s, gap, t1, c, tail);
    var extra1, rest5, t5, gap5, t6, c5, tail5 := FindSeparator(cfg, run, t4, '}', rest4);
    if c5 == '}' {
      members, extra, rest := [m], extra1, rest5;
      t' := LastMember(cfg, run, t, done, s, m, t4, extra, rest);
    } else {
      var more, extra2, t7, rest7 := FindMembers(cfg, run, t5, WithMember(done, m), rest5, gap5, t6, c5, tail5);
      members, extra, t', rest := [m] + more, extra2, t7, rest7;
      ConsMembers(cfg, run, t, done, s, m, t4, t5, rest5, more, extra, t', rest);
    }
  }

  // ---------------------------------------------------------------- whole values

  lemma EmptyFound(cfg: Config, run: Runner, t: Tok, open: char, gap: Spaces, c: char, rest: string)
    returns (v: Tree, t': Tok)
    requires Runs(run, cfg) && Ready(t) && GoodGap(cfg.strict, gap) && Terminated([c] + rest)
    requires (open == '[' && c == ']') || (open == '{' && c == '}')
    requires Levels(t) <= cfg.maxDepth
    ensures Found(cfg, run, t, [open] + (GapText(gap) + ([c] + rest)), v, t', rest)
  {
    Behind([c] + rest);
    assert ([c] + rest)[1..] == rest;
    v := if open == '[' then EmptyList(gap) else EmptyRecord(gap);
    Assoc([open], GapText(gap) + [c], rest);
    Assoc(GapText(gap), [c], rest);
    t' := ReadEmpty(cfg, run, t, v, rest);
  }

  lemma ListFound(cfg: Config, run: Runner, t: Tok, t1: Tok, tail: string, items: seq<Element>,
                  extra: Option<Spaces>, t': Tok, rest: string)
    requires t1.below == t.below && run(t, ['['] + tail) == run(t1, tail)
    requires FoundItems(cfg, run, t1, [], tail, items, extra, t', rest)
    ensures Found(cfg, run, t, ['['] + tail, List(items, extra), t', rest)
  {
    Assoc(['['], ItemsText(items, extra), rest);
    assert [] + ItemsMean(items) == ItemsMean(items);
  }

  lemma RecordFound(cfg: Config, run: Runner, t: Tok, t1: Tok, tail: string, members: seq<Member>,
                    extra: Option<Spaces>, t': Tok, rest: string)
    requires t1.below == t.below && run(t, ['{'] + tail) == run(t1, tail)
    requires FoundMembers(cfg, run, t1, [], tail, members, extra, t', rest)
    ensures Found(cfg, run, t, ['{'] + tail, Record(members, extra), t', rest)
  {
    Assoc(['{'], MembersText(members, extra), rest);
  }

  lemma {:induction false} FindList(cfg: Config, run: Runner, t: Tok, tail: string)
    returns (v: Tree, t': Tok, rest: string)
    requires Reading(cfg, run, t, ['['] + tail) && Terminated(tail)
    ensures Found(cfg, run, t, ['['] + tail, v, t', rest)
    decreases 1 + |tail|, 0, 0
  {
    OpenContainer(cfg, run, t, '[', tail);
    var t1 := WithTop(t, Level(EatWs, Array, Arr([]), ""));
    var gap, t2, c, more := FindGap(cfg, run, t1, tail);
    if c == ']' {
      rest := more;
      v, t' := EmptyFound(cfg, run, t, '[', gap, c, rest);
    } else {
      var items, extra, t3, rest3 := FindItems(cfg, run, t1, [], tail, gap, t2, c, more);
      v, t', rest := List(items, extra), t3, rest3;
      ListFound(cfg, run, t, t1, tail, items, extra, t', rest);
    }
  }

  lemma {:induction false} FindRecord(cfg: Config, run: Runner, t: Tok, tail: string)
    returns (v: Tree, t': Tok, rest: string)
    requires Reading(cfg, run, t, ['{'] + tail) && Terminated(tail)
    ensures Found(cfg, run, t, ['{'] + tail, v, t', rest)
    decreases 1 + |tail|, 0, 0
  {
    OpenContainer(cfg, run, t, '{', tail);
    var t1 := WithTop(t, Level(EatWs, FieldStart, Obj([]), ""));
    var gap, t2, c, more := FindGap(cfg, run, t1, tail);
    if c == '}' {
      rest := more;
      v, t' := EmptyFound(cfg, run, t, '{', gap, c, rest);
    } else {
      var members, extra, t3, rest3 := FindMembers(cfg, run, t1, [], tail, gap, t2, c, more);
      v, t', rest := Record(members, extra), t3, rest3;
      RecordFound(cfg, run, t, t1, tail, members, extra, t', rest);
    }
  }

  /** A value that is read to its end is one of the grammar, and its nesting fits. */
  lemma {:induction false} FindTree(cfg: Config, run: Runner, t: Tok, s: string)
    returns (v: Tree, t': Tok, rest: string)
    requires Reading(cfg, run, t, s) && Solid(cfg, s[0])
    ensures Found(cfg, run, t, s, v, t', rest)
    decreases |s|, 0, 1
  {
    assert s == [s[0]] + s[1..];
    if !Starts(cfg, s[0]) { BadStart(cfg, run, t, s[0], s[1..]); }
    Behind(s);
    if s[0] == '[' {
      v, t', rest := FindList(cfg, run, t, s[1..]);
    } else if s[0] == '{' {
      v, t', rest := FindRecord(cfg, run, t, s[1..]);
    } else {
      v, t', rest := FindSimple(cfg, run, t, s);
    }
  }

  // ---------------------------------------------------------------- whole texts

  /** Behind the outermost value a call ends, and in strict mode with an error unless the text
      ends there or trailing characters are allowed. */
  lemma EndOfText(cfg: Config, run: Runner, t: Tok, v: Json, c: char, tail: string)
    requires Runs(run, cfg) && Solid(cfg, c)
    requires t.below == [] && t.top == Level(EatWs, Finish, v, "")
    ensures var r := run(t, [c] + tail);
      && (r.err == Success <==> c == NUL || !cfg.strict || cfg.trailing)
      && r.rest == [c] + tail && Levels(r.t) == 1 && Top(r.t).current == v
  {
    Resume(cfg, run, t, c, tail);
    var t1 := Goto(t, Finish);
    ExecStop(cfg, run, t1, c, tail, t1, Success);
  }

  /** What a success has used is a text of the grammar that means its result. What is left
      begins behind the space; in strict mode it is the end of the text unless trailing
      characters are allowed. */
  lemma SuccessIsGrammar(cfg: Config, text: string) returns (e: Element)
    requires cfg.maxDepth >= 1 && CKey(text) && Accepts(ParseText(cfg, text))
    ensures var r := ParseText(cfg, text);
      && GoodElement(cfg, e) && Height(e.value) < cfg.maxDepth
      && text + [NUL] == ElementText(e) + r.rest && (cfg.strict && !cfg.trailing ==> r.rest == [NUL])
      && Levels(r.t) == 1 && Top(r.t).current == Means(e.value)
  {
    var run, t, s := Calls(cfg), FreshTok(), text + [NUL];
    CallsRun(cfg);
    var gap, t1, c, tail := FindGap(cfg, run, t, s);
    var v, t2, rest := FindTree(cfg, run, t1, [c] + tail);
    var gap2, t3, c2, tail2 := FindGap(cfg, run, t2, rest);
    EndOfText(cfg, run, t3, Means(v), c2, tail2);
    e := Element(gap, v, gap2);
    RegroupElement(e, [c2] + tail2);
  }

  /** A success that has used up its text has ended inside a comment behind a value. */
  lemma {:induction false} UsedUp(cfg: Config, t: Tok, s: string)
    requires Sane(cfg.strict, t) && Terminated(s)
    ensures var r := Exec(cfg, t, s); r.err == Success && r.rest == [] ==> Unclosed(cfg.strict, r.t)
    decreases |s|, Weight(t)
  {
    RedoProgress(cfg, t, s[0]);
    StepSane(cfg, t, s[0]);
    match Step(cfg, t, s[0])
    case Stop(_, _) =>
    case Redo(t1) => UsedUp(cfg, t1, s);
    case Eat(t1) =>
      if s[0] == NUL { EatNul(cfg, t); }
      else { Behind(s); UsedUp(cfg, t1, s[1..]); }
  }

  /** A text is accepted to its end exactly if it is one of the grammar whose nesting fits, and
      then as the value it means. */
  lemma AcceptedIff(cfg: Config, text: string)
    requires cfg.maxDepth >= 1 && CKey(text)
    ensures ParseText(cfg, text).err == Success && ParseText(cfg, text).rest == [NUL] <==>
      exists e :: ElementText(e) == text && GoodElement(cfg, e) && Height(e.value) < cfg.maxDepth
    ensures forall e :: ElementText(e) == text && GoodElement(cfg, e) && Height(e.value) < cfg.maxDepth ==>
      Top(ParseText(cfg, text).t).current == Means(e.value)
  {
    var r := ParseText(cfg, text);
    if r.err == Success && r.rest == [NUL] {
      var e := SuccessIsGrammar(cfg, text);
      SameFront(text, ElementText(e));
    }
    forall e | ElementText(e) == text && GoodElement(cfg, e) && Height(e.value) < cfg.maxDepth
      ensures r.err == Success && r.rest == [NUL] && Top(r.t).current == Means(e.value)
    {
      GrammarAccepted(cfg, e);
    }
  }

  /** Strict mode without trailing characters accepts exactly the texts of the grammar whose
      nesting fits. */
  lemma StrictIff(cfg: Config, text: string)
    requires cfg.strict && !cfg.trailing && cfg.maxDepth >= 1 && CKey(text)
    ensures ParseText(cfg, text).err == Success <==>
      exists e :: ElementText(e) == text && GoodElement(cfg, e) && Height(e.value) < cfg.maxDepth
  {
    AcceptedIff(cfg, text);
    if ParseText(cfg, text).err == Success {
      UsedUp(cfg, FreshTok(), text + [NUL]);
      var e := SuccessIsGrammar(cfg, text);
    }
  }

  lemma SameFront(a: string, b: string)
    requires a + [NUL] == b + [NUL]
    ensures a == b
  {
    assert (a + [NUL])[..|a|] == a && (b + [NUL])[..|b|] == b;
    assert |a + [NUL]| == |b + [NUL]|;
  }
}
