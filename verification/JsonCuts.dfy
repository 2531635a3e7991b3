/** Cutting a text inside a number: what the number state forgets from one call to the next. */
module JsonCuts {
  import opened Seqs
  import opened JsonValues
  import opened JsonTokener
  import opened JsonCalls
  import opened JsonSplits

  // ---------------------------------------------------------------- what a scan knows

  predicate HasExponent(pb: string) { 'e' in pb || 'E' in pb }

  /** What a scan in progress knows about the characters read so far. */
  predicate Scanned(t: Tok) {
    && Top(t).state == Number && t.scan.Scanning? && t.pb != [] && t.scan.length >= 1
    && t.scan.exponent == HasExponent(t.pb)
    && (if t.scan.exponent then t.isDouble && ScanStart(t.pb) == t.scan.(length := 0)
        else t.scan.negOk == t.scan.posOk == (t.pb[|t.pb| - 1] == '.'))
  }

  /** Between two calls, inside a number. */
  predicate Resting(t: Tok) {
    && Top(t).state == Number && t.scan == NotScanning && t.pb != []
    && ScanStart(t.pb).exponent == HasExponent(t.pb) && (HasExponent(t.pb) ==> t.isDouble)
  }

  lemma {:induction false} IndexOfAppend(s: string, c: char, x: char)
    ensures IndexOf(s + [c], x) == if x in s then IndexOf(s, x) else if c == x then |s| else |s| + 1
    ensures IndexOf(s, x) == |s| <==> x !in s
    decreases |s|
  {
    if s != [] {
      assert (s + [c])[1..] == s[1..] + [c];
      IndexOfAppend(s[1..], c, x);
    }
  }

  lemma ScanStartAppend(pb: string, c: char)
    requires HasExponent(pb) ==> c != 'e' && c != 'E'
    ensures ScanStart(pb + [c]) ==
      if HasExponent(pb) then Scanning(true, false, false, 0)
      else if c == 'e' || c == 'E' then Scanning(true, true, true, 0)
      else Scanning(false, true, false, 0)
  {
    IndexOfAppend(pb, c, 'e');
    IndexOfAppend(pb, c, 'E');
    IndexOfAppend(pb + [c], c, 'e');
    IndexOfAppend(pb + [c], c, 'E');
  }

  lemma ScanStartPlain(pb: string)
    requires pb != []
    ensures ScanStart(pb).exponent == HasExponent(pb)
    ensures !HasExponent(pb) ==> ScanStart(pb) == Scanning(false, true, false, 0)
  {
    IndexOfAppend(pb, 'x', 'e');
    IndexOfAppend(pb, 'x', 'E');
  }

  /** The first character of a number. */
  lemma ScanBegins(cfg: Config, t: Tok, c: char)
    requires Top(t).state == Number && t.pb == [] && t.scan == NotScanning
    requires IsDigit(c) || c == '-'
    ensures Step(cfg, t, c).Eat? && Scanned(Step(cfg, t, c).t)
  {
    assert ScanStart("") == Scanning(false, true, false, 0);
  }

  /** Every further one. */
  lemma ScanKept(cfg: Config, t: Tok, c: char)
    requires Scanned(t) && Step(cfg, t, c).Eat?
    ensures Scanned(Step(cfg, t, c).t)
  {
    ScanStartAppend(t.pb, c);
  }

  /** The first one of a further call. */
  lemma ScanResumes(cfg: Config, t: Tok, c: char)
    requires Resting(t) && Step(cfg, t, c).Eat?
    ensures Scanned(Step(cfg, t, c).t)
  {
    ScanStartPlain(t.pb);
    ScanStartAppend(t.pb, c);
  }

  // ---------------------------------------------------------------- what a call reaches

  predicate Waiting(l: Level) {
    l.state == ArrayAdd || l.state == ObjectValueAdd
  }

  /** Every level below waits for a value, and a number is entered from its beginning. */
  predicate Calm(t: Tok) {
    && (forall l <- t.below :: Waiting(l))
    && Top(t).saved != Number
  }

  /** A number about to begin with c. */
  predicate Begins(t: Tok, c: char) {
    Top(t).state == Number && t.pb == [] && t.scan == NotScanning && (IsDigit(c) || c == '-')
  }

  /** What is known of a number in the middle of a call. */
  predicate Numbered(t: Tok) {
    Top(t).state == Number ==> Scanned(t) || Resting(t)
  }

  predicate CalmMove(t: Tok, m: Move, c: char) {
    && (!m.Stop? ==> Calm(m.t))
    && (m.Eat? && Top(m.t).state == Number ==> Scanned(m.t))
    && (m.Redo? && Top(m.t).state == Number ==> Begins(m.t, c))
  }

  lemma NumberCalm(cfg: Config, t: Tok, c: char)
    requires Calm(t) && Top(t).state == Number && (Numbered(t) || Begins(t, c))
    ensures CalmMove(t, StepNumber(cfg, t, c), c)
  {
    NumberMove(cfg, t, c);
    if Step(cfg, t, c).Eat? {
      if Begins(t, c) {
        ScanBegins(cfg, t, c);
      } else if Scanned(t) {
        ScanKept(cfg, t, c);
      } else {
        ScanResumes(cfg, t, c);
      }
    }
  }

  lemma FinishCalm(t: Tok, c: char)
    requires Calm(t) && Top(t).state == Finish
    ensures CalmMove(t, StepFinish(t), c)
  {
    if |t.below| > 0 {
      assert Waiting(t.below[|t.below| - 1]);
    }
  }

  lemma StartCalm(cfg: Config, t: Tok, c: char)
    requires Calm(t) && Top(t).state == Start
    ensures CalmMove(t, StepStart(cfg, t, c), c)
  {
  }

  lemma WordCalm(cfg: Config, t: Tok, c: char)
    requires Calm(t) && Top(t).state in {NullWord, Boolean, Infinity}
    ensures CalmMove(t, Step(cfg, t, c), c)
  {
  }

  lemma SpaceCalm(cfg: Config, t: Tok, c: char)
    requires Calm(t) && Top(t).state == EatWs
    ensures CalmMove(t, Step(cfg, t, c), c)
  {
  }

  lemma TextCalm(t: Tok, c: char)
    requires Calm(t)
    ensures Top(t).state == StringBody || Top(t).state == FieldName ==> CalmMove(t, StepText(t, c), c)
    ensures InComment(Top(t).state) ==> CalmMove(t, StepComment(t, c), c)
  {
  }

  lemma EscapeCalm(t: Tok, c: char)
    requires Calm(t) && Top(t).state == StringEscape
    ensures CalmMove(t, StepEscape(t, c), c)
  {
  }

  lemma EscapeDoneCalm(t: Tok)
    requires Calm(t) && Top(t).state == EscapeUnicode
    ensures Calm(EscapeDone(t)) && Top(EscapeDone(t)).state != Number
  {
    var t1, saved := EscapeDone(t), Top(t).saved;
    assert t1.below == t.below;
    assert At(t1, saved, saved) || At(t1, NeedEscape, saved);
  }

  lemma UnicodeCalm(t: Tok, c: char)
    requires Calm(t) && Top(t).state in {EscapeUnicode, NeedEscape, NeedU}
    ensures CalmMove(t, StepUnicode(t, c), c)
  {
    if Top(t).state == EscapeUnicode {
      if IsHex(c) && t.stPos >= 3 {
        EscapeDoneCalm(t.(ucs := t.ucs + HexAt(c, t.stPos)));
      }
    } else {
      var m, saved := StepUnicode(t, c), Top(t).saved;
      assert m.t.below == t.below;
      assert m.Stop? || At(m.t, NeedU, saved) || At(m.t, EscapeUnicode, saved) ||
             At(m.t, saved, saved) || At(m.t, StringEscape, saved);
    }
  }

  lemma ContainerCalm(cfg: Config, t: Tok, c: char)
    requires Calm(t) && Top(t).state in {Array, ArrayAfterSep, ArraySep, FieldStart, FieldStartAfterSep,
                                         FieldEnd, ObjectValue, ObjectSep}
    ensures CalmMove(t, StepContainer(cfg, t, c), c)
  {
  }

  lemma StepCalm(cfg: Config, t: Tok, c: char)
    requires Calm(t) && (Numbered(t) || Begins(t, c))
    ensures CalmMove(t, Step(cfg, t, c), c)
  {
    match Top(t).state
    case Start => StartCalm(cfg, t, c);
    case NullWord | Boolean | Infinity => WordCalm(cfg, t, c);
    case Number => NumberCalm(cfg, t, c);
    case Finish => FinishCalm(t, c);
    case ArrayAdd | ObjectValueAdd =>
    case Array | ArrayAfterSep | ArraySep | FieldStart | FieldStartAfterSep | FieldEnd
       | ObjectValue | ObjectSep => ContainerCalm(cfg, t, c);
    case EatWs => SpaceCalm(cfg, t, c);
    case StringEscape => EscapeCalm(t, c);
    case EscapeUnicode | NeedEscape | NeedU => UnicodeCalm(t, c);
    case _ => TextCalm(t, c);
  }

  /** Where a call gets that is not ended by a character of its input. */
  function Reached(cfg: Config, t: Tok, input: string): Tok
    decreases |input|, Weight(t)
  {
    if input == [] then t
    else
      RedoProgress(cfg, t, input[0]);
      match Step(cfg, t, input[0])
      case Stop(t1, _) => t1
      case Redo(t1) => Reached(cfg, t1, input)
      case Eat(t1) => Reached(cfg, t1, input[1..])
  }

  /** Such a call leaves its tokener there but for the scan. */
  lemma {:induction false} ReachedEnd(cfg: Config, t: Tok, a: string)
    requires NUL !in a && Exec(cfg, t, a).err == Continue
    ensures Exec(cfg, t, a).t == Reached(cfg, t, a).(scan := NotScanning)
    decreases |a|, Weight(t)
  {
    if a != [] {
      RedoProgress(cfg, t, a[0]);
      match Step(cfg, t, a[0])
      case Stop(t1, err) => NeverStopsToContinue(cfg, t, a[0]);
      case Redo(t1) => ReachedEnd(cfg, t1, a);
      case Eat(t1) => ReachedEnd(cfg, t1, a[1..]);
    }
  }

  /** A call on more input goes on from there. */
  lemma {:induction false} ReachedGoesOn(cfg: Config, t: Tok, a: string, b: string)
    requires NUL !in a && Exec(cfg, t, a).err == Continue
    ensures Exec(cfg, t, a + b) == Exec(cfg, Reached(cfg, t, a), b)
    decreases |a|, Weight(t)
  {
    if a == [] {
      assert a + b == b;
    } else {
      RedoProgress(cfg, t, a[0]);
      assert (a + b)[0] == a[0] && (a + b)[1..] == a[1..] + b;
      match Step(cfg, t, a[0])
      case Stop(t1, err) => NeverStopsToContinue(cfg, t, a[0]);
      case Redo(t1) => ReachedGoesOn(cfg, t1, a, b);
      case Eat(t1) => ReachedGoesOn(cfg, t1, a[1..], b);
    }
  }

  /** A call that asks for more has read every number it is inside of as the scan knows. */
  lemma {:induction false} ReachedNumber(cfg: Config, t: Tok, a: string)
    requires NUL !in a && Exec(cfg, t, a).err == Continue
    requires Calm(t) && (Numbered(t) || (a != [] && Begins(t, a[0])))
    ensures var r := Reached(cfg, t, a);
      Calm(r) && (Top(r).state == Number && (a != [] || Scanned(t)) ==> Scanned(r))
    decreases |a|, Weight(t)
  {
    if a != [] {
      RedoProgress(cfg, t, a[0]);
      StepCalm(cfg, t, a[0]);
      match Step(cfg, t, a[0])
      case Stop(t1, err) => NeverStopsToContinue(cfg, t, a[0]);
      case Redo(t1) => ReachedNumber(cfg, t1, a);
      case Eat(t1) => ReachedNumber(cfg, t1, a[1..]);
    }
  }

  // ---------------------------------------------------------------- forgetting the permissions

  /** Equal for the caller: error, place and values. */
  predicate Same(r: Parsed, s: Parsed) {
    r.err == s.err && r.rest == s.rest && SameLevels(r.t, s.t)
  }

  lemma RescanStep(cfg: Config, t: Tok, c: char)
    requires Top(t).state == Number && t.scan == NotScanning
    ensures Step(cfg, t, c) == Step(cfg, t.(scan := ScanStart(t.pb)), c)
  {
    assert StepNumber(cfg, t, c) == StepNumber(cfg, t.(scan := ScanStart(t.pb)), c);
  }

  /** Where a call is cut inside a number, the next call starts over with this. */
  lemma Rescan(cfg: Config, t: Tok, b: string)
    requires Top(t).state == Number && t.scan == NotScanning
    ensures Exec(cfg, t, b) == Exec(cfg, t.(scan := ScanStart(t.pb)), b)
  {
    if b != [] {
      RescanStep(cfg, t, b[0]);
    }
  }

  /** After a cut the scan counts its characters from zero. */
  function Recounted(t: Tok, k: nat): Tok
    requires t.scan.Scanning?
  {
    t.(scan := t.scan.(length := k))
  }

  predicate Infinite(c: char) { c == 'i' || c == 'I' }

  /** The count decides whether a minus sign is followed by a word. */
  predicate CountTells(t: Tok, k: nat, c: char)
    requires t.scan.Scanning? && t.pb != []
  {
    t.pb[0] == '-' && Infinite(c) && ((t.scan.length <= 1) != (k <= 1))
  }

  lemma CountStep(cfg: Config, t: Tok, k: nat, c: char)
    requires Top(t).state == Number && t.scan.Scanning? && t.pb != [] && !CountTells(t, k, c)
    ensures
      match Step(cfg, t, c)
      case Eat(t1) =>
        && c != NUL && SameLevels(t1, t) && t1.scan.Scanning? && t1.pb == t.pb + [c]
        && t1.scan.length == t.scan.length + 1
        && Step(cfg, Recounted(t, k), c) == Eat(Recounted(t1, k + 1))
      case Redo(t1) => Step(cfg, Recounted(t, k), c) == Redo(t1)
      case Stop(t1, err) =>
        var m := Step(cfg, Recounted(t, k), c);
        SameLevels(t1, t) && m == Stop(t1.(pb := m.t.pb), err)
  {
  }

  /** Beyond the first character, and for numbers without a minus sign, the count does not
      matter. */
  lemma {:induction false} CountForgotten(cfg: Config, t: Tok, k: nat, b: string)
    requires Top(t).state == Number && t.scan.Scanning? && t.pb != []
    requires t.pb[0] != '-' || (t.scan.length > 1 && k > 1)
    ensures Same(Exec(cfg, t, b), Exec(cfg, Recounted(t, k), b))
    decreases |b|
  {
    if b != [] {
      CountStep(cfg, t, k, b[0]);
      match Step(cfg, t, b[0])
      case Eat(t1) => CountForgotten(cfg, t1, k + 1, b[1..]);
      case Stop(t1, err) =>
      case Redo(t1) =>
    }
  }

  /** A number that ends at once ends in the same way. */
  lemma EndSame(cfg: Config, t: Tok, k: nat, b: string)
    requires Top(t).state == Number && t.scan.Scanning? && t.pb != [] && b != []
    requires !Step(cfg, t, b[0]).Eat? && !CountTells(t, k, b[0])
    ensures Same(Exec(cfg, t, b), Exec(cfg, Recounted(t, k), b))
  {
    CountStep(cfg, t, k, b[0]);
  }

  // ---------------------------------------------------------------- telling the difference

  lemma {:induction false} RestShrinks(cfg: Config, t: Tok, b: string)
    ensures |Exec(cfg, t, b).rest| <= |b|
    decreases |b|, Weight(t)
  {
    if b != [] {
      RedoProgress(cfg, t, b[0]);
      match Step(cfg, t, b[0])
      case Stop(t1, err) =>
      case Redo(t1) => RestShrinks(cfg, t1, b);
      case Eat(t1) => RestShrinks(cfg, t1, b[1..]);
    }
  }

  lemma EatsFirst(cfg: Config, t: Tok, b: string)
    requires b != [] && Step(cfg, t, b[0]).Eat?
    ensures |Exec(cfg, t, b).rest| < |b|
  {
    RestShrinks(cfg, Step(cfg, t, b[0]).t, b[1..]);
  }

  predicate Junk(c: char) { c == '-' || c == '+' || Infinite(c) }

  /** The call ended at its first character, and the value it was in did too. */
  predicate Refused(t: Tok, r: Parsed, b: string) {
    r.rest == b && (Levels(r.t) < Levels(t) || Top(r.t).state == Finish || Top(r.t).state == Number)
  }

  lemma SeparatorRefuses(cfg: Config, t: Tok, b: string)
    requires Top(t).state == EatWs && b != [] && Junk(b[0])
    requires Top(t).saved == ArraySep || Top(t).saved == ObjectSep
    ensures Exec(cfg, t, b).rest == b && Exec(cfg, t, b).t.below == t.below
  {
    var t1 := Goto(t, Top(t).saved);
    assert Step(cfg, t, b[0]) == Redo(t1);
    assert Step(cfg, t1, b[0]).Stop?;
  }

  lemma FinishRefuses(cfg: Config, t: Tok, b: string)
    requires Top(t).state == Finish && Calm(t) && b != [] && Junk(b[0])
    ensures Refused(t, Exec(cfg, t, b), b)
  {
    RedoProgress(cfg, t, b[0]);
    if |t.below| > 0 {
      assert Waiting(t.below[|t.below| - 1]);
    }
    match StepFinish(t)
    case Redo(t1) => SeparatorRefuses(cfg, t1, b);
    case _ =>
  }

  /** A finished number is followed by nothing of the kind. */
  lemma ValueRefuses(cfg: Config, t: Tok, b: string)
    requires Top(t).state == EatWs && Top(t).saved == Finish && Calm(t) && b != [] && Junk(b[0])
    ensures Refused(t, Exec(cfg, t, b), b)
  {
    var t1 := Goto(t, Finish);
    assert Step(cfg, t, b[0]) == Redo(t1);
    FinishRefuses(cfg, t1, b);
  }

  lemma NumberRefuses(cfg: Config, t: Tok, b: string)
    requires Top(t).state == Number && t.scan.Scanning? && Calm(t) && b != [] && Junk(b[0])
    requires !NumberChar(t, t.scan, b[0]) && (Infinite(b[0]) ==> t.scan.length > 1)
    ensures Refused(t, Exec(cfg, t, b), b)
  {
    match StepNumber(cfg, t, b[0])
    case Redo(t1) => ValueRefuses(cfg, t1, b);
    case _ =>
  }

  /** Behind a minus sign and at most one character, an i begins a word. */
  lemma WordBegins(cfg: Config, t: Tok, b: string)
    requires Top(t).state == Number && t.scan.Scanning? && t.scan.length <= 1
    requires t.pb != [] && t.pb[0] == '-' && b != [] && Infinite(b[0])
    ensures !Refused(t, Exec(cfg, t, b), b)
  {
    var t1 := Goto(t.(scan := NotScanning, stPos := 0), Infinity);
    assert Step(cfg, t, b[0]) == Redo(t1);
    if Step(cfg, t1, b[0]).Eat? {
      EatsFirst(cfg, t1, b);
    }
  }

  /** If the count tells, the two calls end differently. */
  lemma CountNoticed(cfg: Config, t: Tok, k: nat, b: string)
    requires Top(t).state == Number && t.scan.Scanning? && t.pb != [] && Calm(t) && b != []
    requires CountTells(t, k, b[0])
    ensures !Same(Exec(cfg, t, b), Exec(cfg, Recounted(t, k), b))
  {
    if t.scan.length <= 1 {
      WordBegins(cfg, t, b);
      NumberRefuses(cfg, Recounted(t, k), b);
    } else {
      NumberRefuses(cfg, t, b);
      WordBegins(cfg, Recounted(t, k), b);
    }
  }

  // ---------------------------------------------------------------- when a cut is noticed

  /** What follows is the same whether or not the scan is forgotten here. */
  predicate CutHarmless(cfg: Config, t: Tok, b: string) {
    Same(Exec(cfg, t, b), Exec(cfg, t.(scan := NotScanning), b))
  }

  /** A sign right behind the cut of a number without exponent: a minus, which is allowed
      again, or behind a point a plus, which is allowed no more. */
  predicate SignTells(t: Tok, b: string)
    requires t.pb != []
  {
    b != [] && !HasExponent(t.pb) && b[0] == if t.pb[|t.pb| - 1] == '.' then '+' else '-'
  }

  /** A negative number of which at most one more character follows, and then an i: as if it
      were no more than its sign. */
  predicate WordTells(t: Tok, b: string)
    requires t.scan.Scanning? && t.pb != []
  {
    t.pb[0] == '-' && ((b != [] && Infinite(b[0]) && t.scan.length > 1) ||
                       (|b| > 1 && NumberChar(t, t.scan, b[0]) && Infinite(b[1])))
  }

  /** Forgetting a sign's permission or remembering one that was used up. */
  lemma SignNoticed(cfg: Config, t: Tok, b: string)
    requires Scanned(t) && Calm(t) && SignTells(t, b)
    ensures !CutHarmless(cfg, t, b)
  {
    var t2 := t.(scan := ScanStart(t.pb));
    ScanStartPlain(t.pb);
    Rescan(cfg, t.(scan := NotScanning), b);
    if b[0] == '+' {
      EatsFirst(cfg, t, b);
      NumberRefuses(cfg, t2, b);
    } else {
      EatsFirst(cfg, t2, b);
      NumberRefuses(cfg, t, b);
    }
  }

  /** If the sign does not tell, the next character is treated alike. */
  lemma FirstAlike(cfg: Config, t: Tok, b: string)
    requires Scanned(t) && b != [] && !SignTells(t, b)
    ensures var t2 := t.(scan := ScanStart(t.pb));
      && NumberChar(t, t.scan, b[0]) == NumberChar(t2, t2.scan, b[0])
      && (if NumberChar(t, t.scan, b[0])
          then ScanChar(t2, t2.scan, b[0]) == Recounted(ScanChar(t, t.scan, b[0]), 1)
          else Step(cfg, t2, b[0]) == Step(cfg, Recounted(t, 0), b[0]))
  {
    ScanStartPlain(t.pb);
  }

  /** The exact condition, for every continuation. */
  lemma CutIff(cfg: Config, t: Tok, b: string)
    requires Scanned(t) && Calm(t)
    ensures CutHarmless(cfg, t, b) <==> !SignTells(t, b) && !WordTells(t, b)
  {
    if SignTells(t, b) {
      SignNoticed(cfg, t, b);
    } else if b != [] {
      var t2 := t.(scan := ScanStart(t.pb));
      Rescan(cfg, t.(scan := NotScanning), b);
      FirstAlike(cfg, t, b);
      if NumberChar(t, t.scan, b[0]) {
        BothEat(cfg, t, t2, b);
        OneMoreIff(cfg, ScanChar(t, t.scan, b[0]), b[1..]);
      } else {
        AtOnceIff(cfg, t, b);
      }
    }
  }

  lemma BothEat(cfg: Config, t: Tok, t2: Tok, b: string)
    requires Top(t).state == Top(t2).state == Number && t.scan.Scanning? && t2.scan.Scanning? && b != []
    requires NumberChar(t, t.scan, b[0]) && NumberChar(t2, t2.scan, b[0])
    ensures Exec(cfg, t, b) == Exec(cfg, ScanChar(t, t.scan, b[0]), b[1..])
    ensures Exec(cfg, t2, b) == Exec(cfg, ScanChar(t2, t2.scan, b[0]), b[1..])
  {
  }

  lemma OneMoreIff(cfg: Config, t: Tok, b: string)
    requires Top(t).state == Number && t.scan.Scanning? && t.scan.length > 1 && t.pb != [] && Calm(t)
    ensures Same(Exec(cfg, t, b), Exec(cfg, Recounted(t, 1), b)) <==>
      !(t.pb[0] == '-' && b != [] && Infinite(b[0]))
  {
    if b != [] {
      if t.pb[0] == '-' && Infinite(b[0]) {
        CountNoticed(cfg, t, 1, b);
      } else if Step(cfg, t, b[0]).Eat? {
        CountStep(cfg, t, 1, b[0]);
        CountForgotten(cfg, Step(cfg, t, b[0]).t, 2, b[1..]);
      } else {
        EndSame(cfg, t, 1, b);
      }
    }
  }

  lemma AtOnceIff(cfg: Config, t: Tok, b: string)
    requires Top(t).state == Number && t.scan.Scanning? && t.pb != [] && Calm(t)
    requires b != [] && !NumberChar(t, t.scan, b[0])
    ensures Same(Exec(cfg, t, b), Exec(cfg, Recounted(t, 0), b)) <==>
      !(t.pb[0] == '-' && Infinite(b[0]) && t.scan.length > 1)
  {
    if CountTells(t, 0, b[0]) {
      CountNoticed(cfg, t, 0, b);
    } else {
      EndSame(cfg, t, 0, b);
    }
  }

  /** A cut inside a number goes unnoticed, whatever follows, exactly behind the exponent
      sign of a number that is not negative. */
  lemma NumberCutIff(cfg: Config, t: Tok)
    requires Scanned(t) && Calm(t)
    ensures (forall b :: CutHarmless(cfg, t, b)) <==> HasExponent(t.pb) && t.pb[0] != '-'
  {
    if !HasExponent(t.pb) {
      var b := if t.pb[|t.pb| - 1] == '.' then "+" else "-";
      CutIff(cfg, t, b);
    } else if t.pb[0] == '-' {
      CutIff(cfg, t, "0I");
    } else {
      forall b ensures CutHarmless(cfg, t, b) {
        CutIff(cfg, t, b);
      }
    }
  }

  // ---------------------------------------------------------------- whole calls

  /** The input of a call, cut where it asks for more inside a number: both parts read one
      after the other end as the whole does if and only if neither sign nor word tells. */
  lemma NumberCutCall(cfg: Config, a: string, b: string)
    requires NUL !in a && Exec(cfg, FreshTok(), a).err == Continue
    requires Top(Exec(cfg, FreshTok(), a).t).state == Number
    ensures var t := Reached(cfg, FreshTok(), a);
      && Scanned(t)
      && (Same(Exec(cfg, FreshTok(), a + b), Exec(cfg, Exec(cfg, FreshTok(), a).t, b)) <==>
            !SignTells(t, b) && !WordTells(t, b))
  {
    ReachedEnd(cfg, FreshTok(), a);
    ReachedGoesOn(cfg, FreshTok(), a, b);
    ReachedNumber(cfg, FreshTok(), a);
    CutIff(cfg, Reached(cfg, FreshTok(), a), b);
  }

  /** A tokener between two calls. */
  predicate Ready(strict: bool, t: Tok) {
    Sane(strict, t) && Calm(t) && t.scan == NotScanning && Numbered(t)
  }

  /** Nothing tells that the input was cut here. */
  predicate Unnoticed(t: Tok, b: string) {
    Scanned(t) ==> !SignTells(t, b) && !WordTells(t, b)
  }

  lemma ReadyAgain(cfg: Config, t: Tok, a: string)
    requires Ready(cfg.strict, t) && NUL !in a && Exec(cfg, t, a).err == Continue
    ensures Ready(cfg.strict, Exec(cfg, t, a).t)
  {
    ReachedEnd(cfg, t, a);
    ReachedNumber(cfg, t, a);
    ContinueSane(cfg, t, a);
    var r := Reached(cfg, t, a);
    if Top(r).state == Number {
      ScanStartPlain(r.pb);
    }
  }

  /** Every call but the last asks for more, and its end is not noticed. */
  predicate CutsUnnoticed(cfg: Config, t: Tok, chunks: seq<string>)
    decreases |chunks|
  {
    |chunks| >= 2 ==>
      var r := Exec(cfg, t, chunks[0]);
      && NUL !in chunks[0] && r.err == Continue
      && Unnoticed(Reached(cfg, t, chunks[0]), Flatten(chunks[1..]))
      && CutsUnnoticed(cfg, r.t, chunks[1..])
  }

  /** One cut: inside a number it may be noticed, elsewhere it is not. */
  lemma OneCut(cfg: Config, t: Tok, a: string, b: string)
    requires Ready(cfg.strict, t) && NUL !in a && Exec(cfg, t, a).err == Continue
    ensures Same(Exec(cfg, t, a + b), Exec(cfg, Exec(cfg, t, a).t, b)) <==> Unnoticed(Reached(cfg, t, a), b)
  {
    ReachedEnd(cfg, t, a);
    ReachedGoesOn(cfg, t, a, b);
    ReachedNumber(cfg, t, a);
    var r := Reached(cfg, t, a);
    if Scanned(r) {
      CutIff(cfg, r, b);
    } else {
      ReachedSane(cfg, t, a);
      assert r.(scan := NotScanning) == r;
    }
  }

  lemma {:induction false} ReachedSane(cfg: Config, t: Tok, a: string)
    requires Sane(cfg.strict, t) && NUL !in a && Exec(cfg, t, a).err == Continue
    ensures Sane(cfg.strict, Reached(cfg, t, a))
    decreases |a|, Weight(t)
  {
    if a != [] {
      RedoProgress(cfg, t, a[0]);
      StepSane(cfg, t, a[0]);
      match Step(cfg, t, a[0])
      case Stop(t1, err) => NeverStopsToContinue(cfg, t, a[0]);
      case Redo(t1) => ReachedSane(cfg, t1, a);
      case Eat(t1) => ReachedSane(cfg, t1, a[1..]);
    }
  }

  /** A text may be cut anywhere, in any number of places, also inside numbers, as long as no
      sign and no word behind a cut tells: the last call ends as a single one would. */
  lemma {:induction false} SplitAnywhere(cfg: Config, t: Tok, chunks: seq<string>)
    requires Ready(cfg.strict, t) && chunks != [] && CutsUnnoticed(cfg, t, chunks)
    ensures Same(ManyCalls(cfg, t, chunks), Exec(cfg, t, Flatten(chunks)))
    decreases |chunks|
  {
    if |chunks| == 1 {
      assert chunks[1..] == [];
      assert chunks[0] + [] == chunks[0];
    } else {
      ReadyAgain(cfg, t, chunks[0]);
      OneCut(cfg, t, chunks[0], Flatten(chunks[1..]));
      SplitAnywhere(cfg, Exec(cfg, t, chunks[0]).t, chunks[1..]);
    }
  }
}
