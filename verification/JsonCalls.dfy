/** What holds of every call of the tokener: success means a complete value, unless the text
    ends inside a comment behind a nested one. */
module JsonCalls {
  import opened Arith
  import opened JsonValues
  import opened JsonTokener
  import opened JsonRoundTrip
  import opened JsonContainers
  import opened JsonTheorems

  // ---------------------------------------------------------------- an invariant

  predicate InComment(s: State) {
    s == CommentStart || s == Comment || s == CommentEol || s == CommentEnd
  }

  predicate InString(s: State) {
    || s == StringBody || s == FieldName || s == StringEscape
    || s == EscapeUnicode || s == NeedEscape || s == NeedU
  }

  /** A value counts as finished only between tokens, a string has a closing quote, comments
      are for lenient mode, and a number is scanned only in the number state. */
  predicate Sane(strict: bool, t: Tok) {
    SaneTop(strict, t.quote, t.scan.Scanning?, Top(t).state, Top(t).saved)
  }

  predicate SaneTop(strict: bool, quote: char, scanning: bool, state: State, saved: State) {
    && (saved == Finish ==> state == EatWs || state == Finish || InComment(state))
    && (quote == NUL ==> !InString(state) && !InString(saved))
    && (InComment(state) ==> !strict)
    && !InComment(saved)
    && (scanning ==> state == Number)
  }

  predicate At(t: Tok, state: State, saved: State) {
    Top(t).state == state && Top(t).saved == saved
  }

  predicate SameLevels(t: Tok, t': Tok) {
    t.below == t'.below && t.top == t'.top
  }

  lemma StartSane(cfg: Config, t: Tok, c: char)
    requires Sane(cfg.strict, t) && Top(t).state == Start
    ensures Sane(cfg.strict, StepStart(cfg, t, c).t)
  {
    StartMove(cfg, t, c);
    AfterStart(cfg.strict, t, StepStart(cfg, t, c));
  }

  predicate StartMoved(t: Tok, m: Move) {
    && (m.t.scan == t.scan || m.t.scan == NotScanning)
    && (if m.t.quote != t.quote then m.t.quote != NUL && At(m.t, StringBody, Top(t).saved)
        else || SameLevels(m.t, t) || At(m.t, EatWs, FieldStart) || At(m.t, EatWs, Array)
             || (Top(m.t).saved == Top(t).saved &&
                 (IsScalarState(Top(m.t).state) || (t.quote != NUL && Top(m.t).state == StringBody))))
  }

  predicate IsScalarState(s: State) {
    s == Infinity || s == NullWord || s == Boolean || s == Number
  }

  lemma StartMove(cfg: Config, t: Tok, c: char)
    requires Top(t).state == Start
    ensures StartMoved(t, StepStart(cfg, t, c))
  {
  }

  lemma AfterStart(strict: bool, t: Tok, m: Move)
    requires Sane(strict, t) && Top(t).state == Start && StartMoved(t, m)
    ensures Sane(strict, m.t)
  {
  }

  lemma EatWsSane(cfg: Config, t: Tok, c: char)
    requires Sane(cfg.strict, t) && Top(t).state == EatWs
    ensures Sane(cfg.strict, Step(cfg, t, c).t)
  {
  }

  lemma WordSane(strict: bool, t: Tok, first: bool, n: nat, v: Json, second: bool, m: nat, w: Json, err: Error)
    requires Sane(strict, t) && (Top(t).state == NullWord || Top(t).state == Boolean)
    ensures Sane(strict, StepWord(t, first, n, v, second, m, w, err).t)
  {
  }

  lemma NullSane(cfg: Config, t: Tok, c: char)
    requires Sane(cfg.strict, t) && Top(t).state == NullWord
    ensures Sane(cfg.strict, StepNull(cfg, t, c).t)
  {
    var t1 := Append(t, [c]);
    WordSane(cfg.strict, t1, Matches("null", t1.pb, Min(t.stPos + 1, 4), cfg.strict), 4, Null,
             Matches("NaN", t1.pb, Min(t.stPos + 1, 3), cfg.strict), 3, Double("NaN"), ParseNull);
  }

  lemma BooleanSane(cfg: Config, t: Tok, c: char)
    requires Sane(cfg.strict, t) && Top(t).state == Boolean
    ensures Sane(cfg.strict, StepBoolean(cfg, t, c).t)
  {
    var t1 := Append(t, [c]);
    WordSane(cfg.strict, t1, Matches("true", t1.pb, Min(t.stPos + 1, 4), cfg.strict), 4, Bool(true),
             Matches("false", t1.pb, Min(t.stPos + 1, 5), cfg.strict), 5, Bool(false), ParseBoolean);
  }

  lemma WordsSane(cfg: Config, t: Tok, c: char)
    requires Sane(cfg.strict, t) && Top(t).state in {NullWord, Boolean, Infinity}
    ensures Sane(cfg.strict, Step(cfg, t, c).t)
  {
    match Top(t).state
    case NullWord => NullSane(cfg, t, c);
    case Boolean => BooleanSane(cfg, t, c);
    case _ => InfinitySane(cfg, t, c);
  }

  lemma InfinitySane(cfg: Config, t: Tok, c: char)
    requires Sane(cfg.strict, t)
    ensures Top(t).state == Infinity ==> Sane(cfg.strict, StepInfinity(cfg, t, c).t)
  {
    var m := StepInfinity(cfg, t, c);
    assert m.t.quote == t.quote && m.t.scan == t.scan;
    assert SameLevels(m.t, t) || At(m.t, EatWs, Finish);
  }

  lemma NumberSane(cfg: Config, t: Tok, c: char)
    requires Sane(cfg.strict, t) && Top(t).state == Number
    ensures Sane(cfg.strict, StepNumber(cfg, t, c).t)
  {
    NumberMove(cfg, t, c);
    AfterNumber(cfg.strict, t, StepNumber(cfg, t, c));
  }

  predicate NumberMoved(t: Tok, m: Move) {
    && m.t.quote == t.quote && (!m.Eat? ==> m.t.scan == NotScanning)
    && (if m.Redo? then At(m.t, Infinity, Top(t).saved) || At(m.t, EatWs, Finish) else SameLevels(m.t, t))
  }

  lemma AfterNumber(strict: bool, t: Tok, m: Move)
    requires Sane(strict, t) && Top(t).state == Number && NumberMoved(t, m)
    ensures Sane(strict, m.t)
  {
  }

  lemma NumberMove(cfg: Config, t: Tok, c: char)
    requires Top(t).state == Number
    ensures NumberMoved(t, StepNumber(cfg, t, c))
  {
  }

  lemma TextSane(strict: bool, t: Tok, c: char)
    requires Sane(strict, t) && (Top(t).state == StringBody || Top(t).state == FieldName)
    ensures Sane(strict, StepText(t, c).t)
  {
  }

  lemma EscapeSane(strict: bool, t: Tok, c: char)
    requires Sane(strict, t) && Top(t).state == StringEscape
    ensures Sane(strict, StepEscape(t, c).t)
  {
  }

  lemma CommentSane(strict: bool, t: Tok, c: char)
    requires Sane(strict, t) && InComment(Top(t).state)
    ensures Sane(strict, StepComment(t, c).t)
  {
  }

  lemma EscapeDoneSane(strict: bool, t: Tok)
    requires Sane(strict, t) && Top(t).state == EscapeUnicode
    ensures Sane(strict, EscapeDone(t))
  {
    var t1, saved := EscapeDone(t), Top(t).saved;
    assert t1.quote == t.quote && t1.scan == t.scan;
    assert At(t1, saved, saved) || At(t1, NeedEscape, saved);
  }

  lemma HexSane(strict: bool, t: Tok, c: char)
    requires Sane(strict, t) && Top(t).state == EscapeUnicode
    ensures Sane(strict, StepUnicode(t, c).t)
  {
    if IsHex(c) && t.stPos >= 3 {
      EscapeDoneSane(strict, t.(ucs := t.ucs + HexAt(c, t.stPos)));
    }
  }

  lemma NeedSane(strict: bool, t: Tok, c: char)
    requires Sane(strict, t) && (Top(t).state == NeedEscape || Top(t).state == NeedU)
    ensures Sane(strict, StepUnicode(t, c).t)
  {
    var m, saved := StepUnicode(t, c), Top(t).saved;
    assert m.t.quote == t.quote && m.t.scan == t.scan;
    assert SameLevels(m.t, t) || At(m.t, NeedU, saved) || At(m.t, EscapeUnicode, saved) ||
           At(m.t, saved, saved) || At(m.t, StringEscape, saved);
  }

  lemma FinishSane(strict: bool, t: Tok)
    requires Sane(strict, t) && Top(t).state == Finish
    ensures !StepFinish(t).Stop? ==> Sane(strict, StepFinish(t).t)
  {
    FinishMove(t);
    AfterFinish(strict, t, StepFinish(t));
  }

  predicate HandedDown(t: Tok, m: Move) {
    !m.Stop? ==>
      && m.t.quote == t.quote && m.t.scan == t.scan
      && (At(m.t, EatWs, ArraySep) || At(m.t, EatWs, ObjectSep) || At(m.t, EatWs, Start))
  }

  lemma FinishMove(t: Tok)
    ensures HandedDown(t, StepFinish(t))
  {
  }

  lemma AfterFinish(strict: bool, t: Tok, m: Move)
    requires Sane(strict, t) && Top(t).state == Finish && HandedDown(t, m)
    ensures !m.Stop? ==> Sane(strict, m.t)
  {
  }

  lemma PushSane(cfg: Config, t: Tok, wait: State)
    requires Sane(cfg.strict, t) && Top(t).state in {Array, ArrayAfterSep, ObjectValue}
    requires wait == ArrayAdd || wait == ObjectValueAdd
    ensures Sane(cfg.strict, Push(cfg, t, wait).t)
  {
  }

  lemma ArraySane(cfg: Config, t: Tok, c: char)
    requires Sane(cfg.strict, t) && Top(t).state in {Array, ArrayAfterSep, ArraySep}
    ensures Sane(cfg.strict, StepContainer(cfg, t, c).t)
  {
    if Top(t).state != ArraySep && c != ']' {
      PushSane(cfg, t, ArrayAdd);
    } else {
      ArrayMark(cfg, t, c);
      AfterMark(cfg.strict, t, StepContainer(cfg, t, c));
    }
  }

  predicate Marked(t: Tok, m: Move) {
    && m.t.quote == t.quote && m.t.scan == t.scan
    && (SameLevels(m.t, t) || At(m.t, EatWs, Finish) || At(m.t, EatWs, ArrayAfterSep))
  }

  lemma ArrayMark(cfg: Config, t: Tok, c: char)
    requires Top(t).state == ArraySep || (Top(t).state in {Array, ArrayAfterSep} && c == ']')
    ensures Marked(t, StepContainer(cfg, t, c))
  {
  }

  lemma AfterMark(strict: bool, t: Tok, m: Move)
    requires Sane(strict, t) && Top(t).state in {Array, ArrayAfterSep, ArraySep} && Marked(t, m)
    ensures Sane(strict, m.t)
  {
  }

  lemma ObjectSane(cfg: Config, t: Tok, c: char)
    requires Sane(cfg.strict, t)
    requires Top(t).state in {FieldStart, FieldStartAfterSep, FieldEnd, ObjectValue, ObjectSep}
    ensures Sane(cfg.strict, StepContainer(cfg, t, c).t)
  {
    if Top(t).state == ObjectValue { PushSane(cfg, t, ObjectValueAdd); }
  }

  lemma StringSane(cfg: Config, t: Tok, c: char)
    requires Sane(cfg.strict, t) && InString(Top(t).state)
    ensures Sane(cfg.strict, Step(cfg, t, c).t)
  {
    match Top(t).state
    case StringBody | FieldName => TextSane(cfg.strict, t, c);
    case StringEscape => EscapeSane(cfg.strict, t, c);
    case EscapeUnicode => HexSane(cfg.strict, t, c);
    case _ => NeedSane(cfg.strict, t, c);
  }

  /** Every move but an error keeps the invariant. */
  lemma StepSane(cfg: Config, t: Tok, c: char)
    requires Sane(cfg.strict, t)
    ensures !Step(cfg, t, c).Stop? ==> Sane(cfg.strict, Step(cfg, t, c).t)
  {
    match Top(t).state
    case Start => StartSane(cfg, t, c);
    case Number => NumberSane(cfg, t, c);
    case NullWord | Boolean | Infinity => WordsSane(cfg, t, c);
    case StringBody | FieldName | StringEscape | EscapeUnicode | NeedEscape | NeedU => StringSane(cfg, t, c);
    case CommentStart | Comment | CommentEol | CommentEnd => CommentSane(cfg.strict, t, c);
    case EatWs => EatWsSane(cfg, t, c);
    case ArrayAdd | ObjectValueAdd =>
    case Finish => FinishSane(cfg.strict, t);
    case Array | ArrayAfterSep | ArraySep => ArraySane(cfg, t, c);
    case _ => ObjectSane(cfg, t, c);
  }

  // ---------------------------------------------------------------- success

  /** No step reports success except the last one, on the outermost level. */
  lemma StopSuccess(cfg: Config, t: Tok, c: char)
    requires Step(cfg, t, c).Stop? && Step(cfg, t, c).err == Success
    ensures Top(t).state == Finish && Levels(t) == 1
  {
  }

  /** Where a text may end without the end being noticed. */
  predicate Unclosed(strict: bool, t: Tok) {
    && !strict && Top(t).saved == Finish
    && (Top(t).state == Comment || Top(t).state == CommentEol)
  }

  lemma EatNul(cfg: Config, t: Tok)
    requires Sane(cfg.strict, t) && Step(cfg, t, NUL).Eat?
    ensures var t1 := Step(cfg, t, NUL).t;
      Top(t1).state == Finish || Top(t1).saved == Finish ==> Unclosed(cfg.strict, t1)
  {
    match Top(t).state
    case CommentStart | Comment | CommentEol | CommentEnd =>
    case StringBody | FieldName => assert Step(cfg, t, NUL) == Eat(Append(t, [NUL]));
    case NullWord | Boolean => NulInWord(cfg, t);
    case _ =>
  }

  lemma NulInWord(cfg: Config, t: Tok)
    requires Top(t).state == NullWord || Top(t).state == Boolean
    ensures Step(cfg, t, NUL).Eat? ==> SameLevels(Step(cfg, t, NUL).t, t)
  {
  }

  /** A call that says success has closed every container, unless its text ended inside a
      comment behind a nested value. */
  lemma {:induction false} SuccessIsComplete(cfg: Config, t: Tok, input: string)
    requires Sane(cfg.strict, t)
    ensures var r := Exec(cfg, t, input);
      r.err == Success && Levels(r.t) > 1 ==> Unclosed(cfg.strict, r.t)
    decreases |input|, Weight(t)
  {
    if input != [] {
      RedoProgress(cfg, t, input[0]);
      StepSane(cfg, t, input[0]);
      match Step(cfg, t, input[0])
      case Stop(t1, err) => if err == Success { StopSuccess(cfg, t, input[0]); }
      case Redo(t1) => SuccessIsComplete(cfg, t1, input);
      case Eat(t1) =>
        if input[0] == NUL { EatNul(cfg, t); }
        else { SuccessIsComplete(cfg, t1, input[1..]); }
    }
  }

  lemma {:induction false} StrictSuccessIsComplete(cfg: Config, text: string)
    requires cfg.strict
    ensures ParseText(cfg, text).err == Success ==> Levels(ParseText(cfg, text).t) == 1
  {
    SuccessIsComplete(cfg, FreshTok(), text + [NUL]);
  }

  lemma NeverStopsToContinue(cfg: Config, t: Tok, c: char)
    requires Step(cfg, t, c).Stop?
    ensures Step(cfg, t, c).err != Continue
  {
  }

  /** In a comment behind a value, on a nested level. */
  predicate NestedComment(t: Tok) {
    && Levels(t) > 1 && Top(t).saved == Finish
    && (Top(t).state == Comment || Top(t).state == CommentEol || Top(t).state == CommentEnd)
  }

  predicate OpenSuccess(r: Parsed) {
    r.err == Success && Levels(r.t) > 1
  }

  lemma EatNulIff(cfg: Config, t: Tok, rest: string)
    requires Sane(cfg.strict, t) && Step(cfg, t, NUL).Eat?
    ensures OpenSuccess(Out(cfg, Step(cfg, t, NUL).t, Success, NUL, rest)) <==> NestedComment(t)
  {
    EatNul(cfg, t);
    if InComment(Top(t).state) {
      assert Top(Step(cfg, t, NUL).t).saved == Top(t).saved;
    } else {
      NulElsewhere(cfg, t);
    }
  }

  lemma NulElsewhere(cfg: Config, t: Tok)
    requires Step(cfg, t, NUL).Eat? && !InComment(Top(t).state)
    ensures !InComment(Top(Step(cfg, t, NUL).t).state)
  {
    if Top(t).state == NullWord || Top(t).state == Boolean {
      NulInWord(cfg, t);
    }
  }

  lemma RedoElsewhere(cfg: Config, t: Tok, c: char)
    requires Sane(cfg.strict, t) && Step(cfg, t, c).Redo?
    ensures !NestedComment(t) && !NestedComment(Step(cfg, t, c).t)
  {
    StepSane(cfg, t, c);
    RedoProgress(cfg, t, c);
  }

  lemma {:induction false} EndIff(cfg: Config, t: Tok)
    requires Sane(cfg.strict, t)
    ensures OpenSuccess(Exec(cfg, t, [NUL])) <==> NestedComment(t)
    decreases Weight(t)
  {
    RedoProgress(cfg, t, NUL);
    StepSane(cfg, t, NUL);
    match Step(cfg, t, NUL)
    case Eat(_) => EatNulIff(cfg, t, [NUL][1..]);
    case Redo(t1) =>
      RedoElsewhere(cfg, t, NUL);
      EndIff(cfg, t1);
    case Stop(_, err) =>
      if err == Success { StopSuccess(cfg, t, NUL); }
  }

  /** A text is accepted with a container left open exactly when reading it without its end
      asks for more inside a comment behind a nested value. */
  lemma {:induction false} UnclosedIff(cfg: Config, t: Tok, text: string)
    requires Sane(cfg.strict, t) && NUL !in text
    ensures var q := Exec(cfg, t, text);
      OpenSuccess(Exec(cfg, t, text + [NUL])) <==> q.err == Continue && NestedComment(q.t)
    decreases |text|, Weight(t)
  {
    if text == [] {
      assert text + [NUL] == [NUL];
      EndIff(cfg, t);
    } else {
      var c := text[0];
      RedoProgress(cfg, t, c);
      StepSane(cfg, t, c);
      assert (text + [NUL])[0] == c && (text + [NUL])[1..] == text[1..] + [NUL];
      match Step(cfg, t, c)
      case Eat(t1) => UnclosedIff(cfg, t1, text[1..]);
      case Redo(t1) => UnclosedIff(cfg, t1, text);
      case Stop(_, err) =>
        NeverStopsToContinue(cfg, t, c);
        if err == Success { StopSuccess(cfg, t, c); }
    }
  }

  /** The text ends in a comment behind a value. */
  lemma EndInComment(cfg: Config, run: Runner, t: Tok)
    requires Runs(run, cfg) && !cfg.strict
    requires Top(t).state == EatWs && Top(t).saved == Finish
    ensures var r := run(t, " /*" + [NUL]);
      r.err == Success && r.rest == "" && SameLevels(r.t, Goto(t, Comment))
  {
    var t1 := Goto(t.(pb := "/"), CommentStart);
    assert " /*" + [NUL] == [' '] + (['/'] + (['*'] + ([NUL] + "")));
    ExecEat(cfg, run, t, ' ', ['/'] + (['*'] + ([NUL] + "")), t);
    ExecEat(cfg, run, t, '/', ['*'] + ([NUL] + ""), t1);
    var t2 := Goto(Append(t1, "*"), Comment);
    ExecEat(cfg, run, t1, '*', [NUL] + "", t2);
    assert Law(run, cfg, t2, NUL, "");
  }

  /** The exception is real: an array that is cut off in a comment behind its first element
      is reported as a success, with that element for the result and the array still open. */
  lemma UnclosedArrayAccepted(cfg: Config, v: Json, f: Flags)
    requires !cfg.strict && Printable(v) && Nest(v) + 2 <= cfg.maxDepth
    ensures var r := ParseText(cfg, "[" + Print(v, 0, f) + " /*");
      r.err == Success && Top(r.t).current == Norm(v) && Levels(r.t) == 2
  {
    var run, t := Calls(cfg), FreshTok();
    CallsRun(cfg);
    var p, tail := Print(v, 0, f), " /*" + [NUL];
    assert "[" + p + " /*" + [NUL] == ['['] + (p + tail);
    OpenContainer(cfg, run, t, '[', p + tail);
    PrintOpens(v, 0, f);
    var t1 := WithTop(t, Level(EatWs, Array, Arr([]), ""));
    assert "" + ("" + (p + tail)) == p + tail;
    var t2, _ := BeginItem(cfg, run, t1, [], true, "", p, tail);
    var t3 := ReadValue(cfg, run, t2, v, 0, f, tail);
    EndInComment(cfg, run, t3);
  }
}
