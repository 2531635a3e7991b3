/** The number state reads the numbers of the grammar, and by their places. */
module JsonNumbers {
  import opened Seqs
  import opened JsonValues
  import opened JsonTokener
  import opened JsonRoundTrip
  import opened JsonGrammar

  // ---------------------------------------------------------------- values

  lemma PlaceUp(d: nat, p: nat, q: nat, v: nat, c: nat)
    requires q == 10 * p
    ensures d * q + (10 * v + c) == 10 * (d * p + v) + c
  {
    assert d * q == 10 * (d * p);
  }

  lemma {:induction false} PlacesAppend(s: string, c: char)
    requires Decimals(s) && '0' <= c <= '9'
    ensures Decimals(s + [c]) && Places(s + [c]) == 10 * Places(s) + (c as int - '0' as int)
    decreases |s|
  {
    var r := s + [c];
    if s == [] {
      assert r[1..] == [] && Pow10(0) == 1;
    } else {
      PlacesAppend(s[1..], c);
      assert r[1..] == s[1..] + [c] && r[0] == s[0];
      PlaceUp(s[0] as int - '0' as int, Pow10(|s| - 1), Pow10(|s|), Places(s[1..]), c as int - '0' as int);
    }
  }

  lemma {:induction false} DigitsArePlaces(s: string)
    requires Decimals(s)
    ensures DigitsValue(s) == Places(s)
    decreases |s|
  {
    if s != [] {
      var n := |s| - 1;
      DigitsArePlaces(s[..n]);
      PlacesAppend(s[..n], s[n]);
      assert s[..n] + [s[n]] == s;
    }
  }

  lemma LeadingIsPlaces(s: string)
    requires Decimals(s)
    ensures LeadingDigits(s) == |s| && LeadingValue(s) == Places(s)
  {
    AllLeading(s);
    assert s[..|s|] == s;
    DigitsArePlaces(s);
  }

  /** What an integer is read as; every other text is refused. */
  lemma IntegerRead(cfg: Config, s: string)
    requires NumberText(s) && !Real(s)
    ensures IntegerText(s)
    ensures NumberValue(cfg, false, s) ==
      if GoodNumber(cfg, s, "") then Value(NumberMeans(s, "")) else NotANumber
  {
    assert s + "" == s;
    IntegerShape(s);
    if s[0] == '-' {
      LeadingIsPlaces(s[1..]);
      if s[1..] == [] { assert s == "-"; }
    } else {
      LeadingIsPlaces(s);
    }
  }

  // ---------------------------------------------------------------- scanning

  /** The characters p of a number have been read. */
  predicate Scanned(t: Tok, p: string) {
    && Top(t) == FRESH_LEVEL.(state := Number) && t.high == 0 && t.pb == p
    && (t.isDouble <==> Real(p))
    && if p == [] then t.scan == NotScanning
       else t.scan == Scanning(HasExponent(p), Marks(p[|p| - 1]), Marks(p[|p| - 1]), |p|)
  }

  function Permits(t: Tok): (n: Scan)
    ensures n.Scanning?
  {
    if t.scan.Scanning? then t.scan else ScanStart(t.pb)
  }

  lemma PermitsIff(t: Tok, p: string, c: char)
    requires Scanned(t, p)
    ensures NumberChar(t, Permits(t), c) <==> MayFollow(p, c)
  {
  }

  lemma MarksOf(p: string, c: char)
    ensures Real(p + [c]) <==> Real(p) || Marks(c)
    ensures HasExponent(p + [c]) <==> HasExponent(p) || c == 'e' || c == 'E'
  {
    var s := p + [c];
    assert s[|p|] == c && forall i :: 0 <= i < |p| ==> s[i] == p[i];
    if Real(p) { var i :| 0 <= i < |p| && Marks(p[i]); assert Marks(s[i]); }
    if HasExponent(p) {
      var i :| 0 <= i < |p| && (p[i] == 'e' || p[i] == 'E');
      assert s[i] == 'e' || s[i] == 'E';
    }
  }

  lemma ScanMore(cfg: Config, run: Runner, t: Tok, p: string, c: char, rest: string) returns (t1: Tok)
    requires Runs(run, cfg) && Scanned(t, p) && MayFollow(p, c)
    ensures Scanned(t1, p + [c]) && t1.below == t.below && run(t, [c] + rest) == run(t1, rest)
  {
    PermitsIff(t, p, c);
    MarksOf(p, c);
    t1 := ScanChar(t, Permits(t), c);
    ExecEat(cfg, run, t, c, rest, t1);
  }

  lemma {:induction false} ScanAll(cfg: Config, run: Runner, t: Tok, p: string, q: string, rest: string)
    returns (t': Tok)
    requires Runs(run, cfg) && Scanned(t, p) && Follows(p + q)
    ensures Scanned(t', p + q) && t'.below == t.below && run(t, q + rest) == run(t', rest)
    decreases |q|
  {
    if q == [] {
      t' := t;
      assert p + q == p && q + rest == rest;
    } else {
      assert (p + q)[..|p|] == p && (p + q)[|p|] == q[0];
      var t1 := ScanMore(cfg, run, t, p, q[0], q[1..] + rest);
      assert q + rest == [q[0]] + (q[1..] + rest);
      assert p + [q[0]] + q[1..] == p + q;
      t' := ScanAll(cfg, run, t1, p + [q[0]], q[1..], rest);
    }
  }

  /** A number begins, and is read up to its end. */
  lemma ScanNumber(cfg: Config, run: Runner, t: Tok, s: string, rest: string) returns (t': Tok)
    requires Runs(run, cfg) && Ready(t) && NumberText(s)
    ensures Scanned(t', s) && t'.below == t.below && run(t, s + rest) == run(t', rest)
  {
    assert s + rest == [s[0]] + (s[1..] + rest);
    var t1 := StartNumber(cfg, run, t, s[0], s[1..] + rest);
    assert [] + s == s;
    t' := ScanAll(cfg, run, t1, [], s, rest);
  }

  // ---------------------------------------------------------------- the end of a number

  /** The character behind a number is not part of it, and in a container may end it. */
  predicate EndsAt(p: string, c: char, levels: nat) {
    (c == NUL || !MayFollow(p, c)) && (levels > 1 ==> EndsNumber(c))
  }

  predicate AllCut(s: string) {
    forall i :: 0 <= i < |s| ==> CutsOff(s[i])
  }

  /** Nothing more is cut off. */
  predicate Trimmed(s: string) {
    |s| == 1 || (|s| > 1 && !CutsOff(s[|s| - 1]))
  }

  lemma {:induction false} TrimCuts(text: string, cut: string)
    requires Trimmed(text) && AllCut(cut)
    ensures Trim(text + cut) == text
    decreases |cut|
  {
    var s := text + cut;
    if cut == [] {
      assert s == text;
    } else {
      var front := cut[..|cut| - 1];
      assert s[..|s| - 1] == text + front && s[|s| - 1] == cut[|cut| - 1];
      TrimCuts(text, front);
    }
  }

  lemma {:induction false} TrimParts(s: string) returns (text: string, cut: string)
    requires s != []
    ensures s == text + cut && Trimmed(text) && AllCut(cut)
    decreases |s|
  {
    var n := |s| - 1;
    if n > 0 && CutsOff(s[n]) {
      var text1, cut1 := TrimParts(s[..n]);
      text, cut := text1, cut1 + [s[n]];
      Assoc(text1, cut1, [s[n]]);
      assert s == s[..n] + [s[n]];
    } else {
      text, cut := s, [];
      assert s + [] == s;
    }
  }

  /** What the number state does with the character behind a number. */
  lemma NumberStop(cfg: Config, t: Tok, p: string, c: char, pb: string)
    requires Scanned(t, p) && NumberText(p) && EndsAt(p, c, Levels(t)) && (p == "-" ==> c != 'i' && c != 'I')
    requires pb == if Real(p) && !cfg.strict then Trim(p) else p
    ensures var t1 := t.(scan := NotScanning, pb := pb);
      Step(cfg, t, c) == match NumberValue(cfg, Real(p), pb)
                         case NotANumber => Stop(t1, ParseNumber)
                         case Value(v) => Redo(Complete(t1, v))
  {
    PermitsIff(t, p, c);
    if |p| <= 1 && p[0] == '-' { assert p == "-"; }
  }

  /** A number of the grammar is completed. */
  lemma NumberDone(cfg: Config, t: Tok, text: string, cut: string, c: char)
    requires var p := text + cut;
      Scanned(t, p) && EndsAt(p, c, Levels(t)) && (p == "-" ==> c != 'i' && c != 'I')
    requires GoodNumber(cfg, text, cut)
    ensures Step(cfg, t, c) == Redo(Complete(t.(scan := NotScanning, pb := text), NumberMeans(text, cut)))
  {
    var p := text + cut;
    if cut == [] { assert p == text && text + "" == text; }
    if Real(p) && !cfg.strict { TrimCuts(text, cut); }
    if !Real(p) { IntegerRead(cfg, p); }
    NumberStop(cfg, t, p, c, text);
  }

  /** Only a number of the grammar is. */
  lemma NumberParts(cfg: Config, t: Tok, p: string, c: char) returns (text: string, cut: string)
    requires Scanned(t, p) && NumberText(p) && EndsAt(p, c, Levels(t)) && (p == "-" ==> c != 'i' && c != 'I')
    requires !Step(cfg, t, c).Stop?
    ensures text + cut == p && GoodNumber(cfg, text, cut)
  {
    text, cut := p, "";
    assert p + "" == p;
    if Real(p) && !cfg.strict {
      text, cut := TrimParts(p);
      TrimCuts(text, cut);
    }
    if !Real(p) { IntegerRead(cfg, p); }
    NumberStop(cfg, t, p, c, text);
  }

  /** Every number of the grammar is read as what it means. */
  lemma ReadNumber(cfg: Config, run: Runner, t: Tok, text: string, cut: string, rest: string) returns (t': Tok)
    requires Runs(run, cfg) && Ready(t) && GoodNumber(cfg, text, cut)
    requires rest != [] && EndsAt(text + cut, rest[0], Levels(t))
    ensures Landed(t, t', NumberMeans(text, cut)) && run(t, text + cut + rest) == run(t', rest)
  {
    var t1 := ScanNumber(cfg, run, t, text + cut, rest);
    assert text + cut == "-" ==> !Real("-");
    NumberDone(cfg, t1, text, cut, rest[0]);
    t' := Complete(t1.(scan := NotScanning, pb := text), NumberMeans(text, cut));
    assert rest == [rest[0]] + rest[1..];
    ExecRedo(cfg, run, t1, rest[0], rest[1..], t');
  }

  // ---------------------------------------------------------------- infinity

  lemma InfinityLetter(k: nat, c: char)
    requires k < 8
    ensures c == "Infinity"[k] || c == "iNFINITY"[k] <==> Lower(c) == Lower("Infinity"[k])
  {
    assert Lower("Infinity"[k]) == "infinity"[k];
    assert Lower("iNFINITY"[k]) == "infinity"[k];
    assert "Infinity"[k] == "infinity"[k] || "iNFINITY"[k] == "infinity"[k];
    assert "Infinity"[k] as int + 32 == "infinity"[k] as int || "iNFINITY"[k] as int + 32 == "infinity"[k] as int;
  }

  predicate InfinityChar(strict: bool, k: nat, c: char)
    requires k < 8
  {
    c == "Infinity"[k] || (!strict && Lower(c) == Lower("Infinity"[k]))
  }

  lemma InfinityMove(cfg: Config, t: Tok, c: char)
    requires Top(t).state == Infinity && t.stPos < 8
    ensures Step(cfg, t, c) ==
      if InfinityChar(cfg.strict, t.stPos, c) then Eat(t.(stPos := t.stPos + 1)) else Stop(t, Unexpected)
    ensures InfinityChar(cfg.strict, t.stPos, c) ==> c != NUL
  {
    InfinityLetter(t.stPos, c);
    assert "Infinity"[t.stPos] != NUL && Lower("Infinity"[t.stPos]) != NUL;
  }

  lemma {:induction false} SpellInfinity(cfg: Config, run: Runner, t: Tok, w: string, k: nat, rest: string)
    requires Runs(run, cfg) && Top(t).state == Infinity && k <= 8 && Spelling(cfg.strict, "Infinity", w)
    ensures run(t.(stPos := k), w[k..] + rest) == run(t.(stPos := 8), rest)
    decreases 8 - k
  {
    if k == 8 {
      assert w[k..] + rest == rest;
    } else {
      assert w[k..] + rest == [w[k]] + (w[k + 1..] + rest);
      InfinityMove(cfg, t.(stPos := k), w[k]);
      ExecEat(cfg, run, t.(stPos := k), w[k], w[k + 1..] + rest, t.(stPos := k + 1));
      SpellInfinity(cfg, run, t, w, k + 1, rest);
    }
  }

  lemma EndInfinity(cfg: Config, run: Runner, t: Tok, w: string, rest: string) returns (t': Tok)
    requires Runs(run, cfg) && Top(t) == FRESH_LEVEL.(state := Infinity) && t.stPos == 0 && rest != []
    requires t.high == 0 && t.scan == NotScanning && Spelling(cfg.strict, "Infinity", w)
    ensures Landed(t, t', Double(if "-" <= t.pb then "-Infinity" else "Infinity"))
    ensures run(t, w + rest) == run(t', rest)
  {
    SpellInfinity(cfg, run, t, w, 0, rest);
    assert w[0..] == w && t.(stPos := 0) == t;
    var t1 := t.(stPos := 8);
    t' := Complete(t1, Double(if "-" <= t.pb then "-Infinity" else "Infinity"));
    assert rest == [rest[0]] + rest[1..];
    ExecRedo(cfg, run, t1, rest[0], rest[1..], t');
  }

  /** The machine at the beginning of Infinity. */
  lemma OpenInfinity(cfg: Config, run: Runner, t: Tok, c: char, rest: string)
    requires Runs(run, cfg) && Ready(t) && (c == 'I' || c == 'i')
    ensures run(t, [c] + rest) == run(Goto(t.(pb := "", stPos := 0), Infinity), [c] + rest)
  {
    ReadStart(cfg, run, t, c, rest);
    ExecRedo(cfg, run, Goto(t, Start), c, rest, Goto(t.(pb := "", stPos := 0), Infinity));
  }

  /** A minus sign and the beginning of Infinity. */
  lemma OpenMinus(cfg: Config, run: Runner, t: Tok, c: char, rest: string) returns (t1: Tok)
    requires Runs(run, cfg) && Ready(t) && (c == 'I' || c == 'i')
    ensures Top(t1) == FRESH_LEVEL.(state := Infinity) && t1.stPos == 0 && t1.pb == "-"
    ensures t1.below == t.below && t1.high == 0 && t1.scan == NotScanning
    ensures run(t, ['-'] + ([c] + rest)) == run(t1, [c] + rest)
  {
    assert NumberText("-");
    var t0 := ScanNumber(cfg, run, t, "-", [c] + rest);
    PermitsIff(t0, "-", c);
    t1 := Goto(t0.(scan := NotScanning, stPos := 0), Infinity);
    ExecRedo(cfg, run, t0, c, rest, t1);
  }

  lemma ReadInfinity(cfg: Config, run: Runner, t: Tok, minus: bool, w: string, rest: string) returns (t': Tok)
    requires Runs(run, cfg) && Ready(t) && Spelling(cfg.strict, "Infinity", w) && rest != []
    ensures Landed(t, t', Double(if minus then "-Infinity" else "Infinity"))
    ensures run(t, (if minus then "-" else "") + (w + rest)) == run(t', rest)
  {
    var c, tail := w[0], w[1..] + rest;
    assert w + rest == [c] + tail;
    InfinityLetter(0, c);
    if minus {
      var t1 := OpenMinus(cfg, run, t, c, tail);
      t' := EndInfinity(cfg, run, t1, w, rest);
    } else {
      assert "" + (w + rest) == w + rest;
      OpenInfinity(cfg, run, t, c, tail);
      t' := EndInfinity(cfg, run, Goto(t.(pb := "", stPos := 0), Infinity), w, rest);
    }
  }
}
