/** The tokener as the program holds it: an object changed in place by one loop over the
    input, with tight loops inside that use up white space, comments, texts, hex digits and
    numbers as a whole. */
module TokenerObjects {
  import opened JsonValues
  import opened JsonTokener
  import opened JsonRoundTrip
  import opened JsonCalls
  import opened JsonCuts

  // ---------------------------------------------------------------- places in the input

  /** Going on from t at position o ends in `goal`. */
  ghost predicate Leads(run: Runner, t: Tok, str: string, o: nat, goal: Parsed) {
    o <= |str| && run(t, str[o..]) == goal
  }

  lemma EatAt(cfg: Config, run: Runner, t: Tok, str: string, o: nat, goal: Parsed, t1: Tok)
    requires Runs(run, cfg) && o < |str| && Leads(run, t, str, o, goal)
    requires Step(cfg, t, str[o]) == Eat(t1) && str[o] != NUL
    ensures Leads(run, t1, str, o + 1, goal)
  {
    assert str[o..] == [str[o]] + str[o + 1..];
    ExecEat(cfg, run, t, str[o], str[o + 1..], t1);
  }

  /** One move at position o. */
  ghost predicate Moved(cfg: Config, run: Runner, m: Move, str: string, o: nat, goal: Parsed) {
    && o < |str|
    && match m
       case Eat(t1) =>
         if str[o] == NUL then Out(cfg, t1, Success, NUL, str[o + 1..]) == goal
         else Leads(run, t1, str, o + 1, goal)
       case Redo(t1) => Leads(run, t1, str, o, goal)
       case Stop(t1, err) => Out(cfg, t1, err, str[o], str[o..]) == goal
  }

  lemma MoveAt(cfg: Config, run: Runner, t: Tok, str: string, o: nat, goal: Parsed)
    requires Runs(run, cfg) && o < |str| && Leads(run, t, str, o, goal)
    ensures Moved(cfg, run, Step(cfg, t, str[o]), str, o, goal)
  {
    assert str[o..] == [str[o]] + str[o + 1..];
    RedoProgress(cfg, t, str[o]);
    assert Law(run, cfg, t, str[o], str[o + 1..]);
  }

  /** What is kept for the duration of a number is lost at the end of the input. */
  ghost predicate ForgetsScan(run: Runner) {
    forall t: Tok, s: Scan :: run(t.(scan := s), "") == OutOfInput(t)
  }

  lemma RescanAt(cfg: Config, run: Runner, t: Tok, str: string, o: nat, goal: Parsed)
    requires Runs(run, cfg) && Top(t).state == Number && t.scan == NotScanning
    requires o < |str| && Leads(run, t, str, o, goal)
    ensures Leads(run, t.(scan := ScanStart(t.pb)), str, o, goal)
  {
    RescanStep(cfg, t, str[o]);
    assert str[o..] == [str[o]] + str[o + 1..];
    assert Law(run, cfg, t, str[o], str[o + 1..]);
    assert Law(run, cfg, t.(scan := ScanStart(t.pb)), str[o], str[o + 1..]);
  }

  lemma StepQuiet(cfg: Config, t: Tok, c: char)
    requires t.scan == NotScanning && Top(t).state != Number
    ensures Step(cfg, t, c).t.scan == NotScanning
  {
    match Top(t).state
    case Start => StartQuiet(cfg, t, c);
    case NullWord | Boolean => WordQuiet(cfg, t, c);
    case Infinity => InfinityQuiet(cfg, t, c);
    case StringBody | FieldName => TextQuiet(t, c);
    case StringEscape => EscapeQuiet(t, c);
    case CommentStart | Comment | CommentEol | CommentEnd => CommentQuiet(t, c);
    case EscapeUnicode | NeedEscape | NeedU => UnicodeQuiet(t, c);
    case EatWs =>
    case Finish => FinishQuiet(t);
    case ArrayAdd | ObjectValueAdd =>
    case _ => ContainerQuiet(cfg, t, c);
  }

  lemma FinishQuiet(t: Tok)
    requires t.scan == NotScanning
    ensures StepFinish(t).t.scan == NotScanning
  {
  }

  lemma StartQuiet(cfg: Config, t: Tok, c: char)
    requires t.scan == NotScanning
    ensures StepStart(cfg, t, c).t.scan == NotScanning
  {
  }

  lemma WordQuiet(cfg: Config, t: Tok, c: char)
    requires t.scan == NotScanning
    ensures Top(t).state == NullWord ==> StepNull(cfg, t, c).t.scan == NotScanning
    ensures Top(t).state == Boolean ==> StepBoolean(cfg, t, c).t.scan == NotScanning
  {
  }

  lemma InfinityQuiet(cfg: Config, t: Tok, c: char)
    requires t.scan == NotScanning
    ensures StepInfinity(cfg, t, c).t.scan == NotScanning
  {
  }

  lemma TextQuiet(t: Tok, c: char)
    requires t.scan == NotScanning
    ensures StepText(t, c).t.scan == NotScanning
  {
  }

  lemma EscapeQuiet(t: Tok, c: char)
    requires t.scan == NotScanning
    ensures StepEscape(t, c).t.scan == NotScanning
  {
  }

  lemma CommentQuiet(t: Tok, c: char)
    requires t.scan == NotScanning
    ensures StepComment(t, c).t.scan == NotScanning
  {
  }

  lemma UnicodeQuiet(t: Tok, c: char)
    requires t.scan == NotScanning
    ensures StepUnicode(t, c).t.scan == NotScanning
  {
  }

  lemma ContainerQuiet(cfg: Config, t: Tok, c: char)
    requires t.scan == NotScanning
    ensures StepContainer(cfg, t, c).t.scan == NotScanning
  {
  }

  /** Characters that a text or a comment takes as they come. */
  predicate Ordinary(state: State, quote: char, c: char) {
    match state
    case StringBody | FieldName => c != quote && c != '\\'
    case Comment => c != '*'
    case CommentEol => c != '\n'
    case _ => false
  }

  predicate HasRuns(state: State) {
    state == StringBody || state == FieldName || state == Comment || state == CommentEol
  }

  lemma OrdinaryStep(cfg: Config, t: Tok, c: char)
    requires HasRuns(Top(t).state)
    ensures Step(cfg, t, c).Eat?
    ensures Ordinary(Top(t).state, t.quote, c) ==> Step(cfg, t, c) == Eat(Append(t, [c]))
  {
  }

  /** One more ordinary character behind those already passed. */
  lemma RunAt(cfg: Config, run: Runner, t: Tok, str: string, start: nat, o: nat, goal: Parsed)
    requires Runs(run, cfg) && start <= o < |str| && HasRuns(Top(t).state)
    requires str[o] != NUL && Ordinary(Top(t).state, t.quote, str[o])
    requires Leads(run, t.(pb := t.pb + str[start..o]), str, o, goal)
    ensures Leads(run, t.(pb := t.pb + str[start..o + 1]), str, o + 1, goal)
  {
    var t1 := t.(pb := t.pb + str[start..o]);
    OrdinaryStep(cfg, t1, str[o]);
    EatAt(cfg, run, t1, str, o, goal, Append(t1, [str[o]]));
    assert t.pb + str[start..o] + [str[o]] == t.pb + str[start..o + 1];
  }

  /** One more character of a number behind those already passed. */
  lemma ScanAt(cfg: Config, run: Runner, t: Tok, str: string, start: nat, o: nat, scan: Scan, goal: Parsed)
    requires Runs(run, cfg) && start <= o < |str| && Top(t).state == Number
    requires scan.Scanning? && str[o] != NUL && NumberChar(t, scan, str[o])
    requires Leads(run, t.(pb := t.pb + str[start..o], scan := scan), str, o, goal)
    ensures var t1 := ScanChar(t, scan, str[o]);
      Leads(run, t1.(pb := t.pb + str[start..o + 1]), str, o + 1, goal)
  {
    var t1 := t.(pb := t.pb + str[start..o], scan := scan);
    EatAt(cfg, run, t1, str, o, goal, ScanChar(t1, scan, str[o]));
    assert t.pb + str[start..o] + [str[o]] == t.pb + str[start..o + 1];
  }

  lemma CallsForget(cfg: Config)
    ensures ForgetsScan(JsonRoundTrip.Calls(cfg))
  {
  }

  lemma HexMoves(cfg: Config, t: Tok, c: char)
    requires Top(t).state == EscapeUnicode
    ensures !Step(cfg, t, c).Redo?
  {
  }

  lemma HexDigitAt(cfg: Config, run: Runner, t: Tok, str: string, o: nat, goal: Parsed)
    requires Runs(run, cfg) && Top(t).state == EscapeUnicode && t.stPos < 3
    requires o < |str| && IsHex(str[o]) && Leads(run, t, str, o, goal)
    ensures Leads(run, t.(ucs := t.ucs + HexAt(str[o], t.stPos), stPos := t.stPos + 1), str, o + 1, goal)
  {
    EatAt(cfg, run, t, str, o, goal, t.(ucs := t.ucs + HexAt(str[o], t.stPos), stPos := t.stPos + 1));
  }

  class Tokener {
    const cfg: Config
    var below: seq<Level>
    var top: Level
    var pb: string
    var stPos: nat
    var ucs: nat
    var high: nat
    var quote: char
    var isDouble: bool
    var err: Error
    var offset: nat
    var running: bool

    function View(): Tok
      reads this
    {
      Tok(below, top, pb, stPos, ucs, high, quote, isDouble, NotScanning)
    }

    constructor (cfg: Config)
      ensures this.cfg == cfg && View() == FreshTok()
    {
      this.cfg := cfg;
      below, top, pb, stPos, ucs, high, quote, isDouble := [], FRESH_LEVEL, "", 0, 0, 0, NUL, false;
      err, offset, running := Success, 0, false;
    }

    /** Where the loop is: still running, or out with an error code that the last character
        and the state may still change. */
    ghost predicate On(run: Runner, str: string, goal: Parsed)
      reads this
    {
      && offset <= |str|
      && if running then Leads(run, View(), str, offset, goal)
         else Parsed(View(), err, str[offset..]) == goal
    }

    method Set(t: Tok)
      requires t.scan == NotScanning
      modifies this`below, this`top, this`pb, this`stPos, this`ucs, this`high, this`quote, this`isDouble
      ensures View() == t
    {
      below, top, pb, stPos, ucs, high, quote, isDouble :=
        t.below, t.top, t.pb, t.stPos, t.ucs, t.high, t.quote, t.isDouble;
    }

    /** The end of a call at character c. */
    method Leave(e: Error, c: char)
      modifies this`err, this`running
      ensures !running && Parsed(View(), err, "") == Out(cfg, View(), e, c, "")
    {
      err, running := e, false;
      var l := top;
      if c != NUL && l.state == Finish && below == [] && cfg.strict && !cfg.trailing {
        err := Unexpected;
      }
      if c == NUL {
        if l.state != Finish && l.saved != Finish {
          err := ParseEof;
        }
      }
    }

    /** Carries out a move at the current character. */
    method Take(m: Move, str: string, ghost run: Runner, ghost goal: Parsed)
      requires offset < |str| && running && m.t.scan == NotScanning
      requires Moved(cfg, run, m, str, offset, goal)
      modifies this
      ensures On(run, str, goal)
      ensures offset == old(offset) + (if m.Eat? then 1 else 0)
      ensures running && offset == old(offset) ==> m == Redo(View())
    {
      Set(m.t);
      var c := str[offset];
      match m {
        case Eat(_) =>
          offset := offset + 1;
          if c == NUL {
            Leave(Success, c);
          }
        case Redo(_) =>
        case Stop(_, e) => Leave(e, c);
      }
    }

    /** States without a loop of their own use one character at a time. */
    method OneStep(str: string, ghost run: Runner, ghost goal: Parsed)
      requires Runs(run, cfg) && running && On(run, str, goal) && offset < |str|
      requires Top(View()).state != Number
      modifies this
      ensures On(run, str, goal) && old(offset) <= offset
      ensures running && offset == old(offset) ==> Weight(View()) < Weight(old(View()))
      ensures Step(cfg, old(View()), str[old(offset)]).Eat? ==> offset == old(offset) + 1
      ensures running && offset == old(offset) ==> Step(cfg, old(View()), str[old(offset)]).Redo?
    {
      var t, c := View(), str[offset];
      MoveAt(cfg, run, t, str, offset, goal);
      RedoProgress(cfg, t, c);
      StepQuiet(cfg, t, c);
      Take(Step(cfg, t, c), str, run, goal);
    }

    /** White space. */
    method SkipWs(str: string, ghost run: Runner, ghost goal: Parsed)
      requires Runs(run, cfg) && running && On(run, str, goal) && Top(View()).state == EatWs
      modifies this`offset
      ensures On(run, str, goal) && old(offset) <= offset
      ensures offset < |str| ==> !IsWs(str[offset])
    {
      while offset < |str| && IsWs(str[offset])
        invariant On(run, str, goal) && old(offset) <= offset
      {
        EatAt(cfg, run, View(), str, offset, goal, View());
        offset := offset + 1;
      }
    }

    /** A run of ordinary characters is appended at once. */
    method PassRun(str: string, ghost run: Runner, ghost goal: Parsed)
      requires Runs(run, cfg) && running && On(run, str, goal) && offset < |str|
      requires HasRuns(Top(View()).state)
      modifies this`offset, this`pb
      ensures On(run, str, goal) && old(offset) <= offset
    {
      var start, state := offset, top.state;
      assert pb + str[start..start] == pb;
      while offset < |str| && str[offset] != NUL && Ordinary(state, quote, str[offset])
        invariant start <= offset <= |str|
        invariant Leads(run, View().(pb := pb + str[start..offset]), str, offset, goal)
        modifies this`offset
      {
        RunAt(cfg, run, View(), str, start, offset, goal);
        offset := offset + 1;
      }
      pb := pb + str[start..offset];
    }

    /** A run, and then the character that ends it is looked at. */
    method ReadRun(str: string, ghost run: Runner, ghost goal: Parsed)
      requires Runs(run, cfg) && running && On(run, str, goal) && offset < |str|
      requires HasRuns(Top(View()).state)
      modifies this
      ensures On(run, str, goal) && old(offset) < offset
    {
      PassRun(str, run, goal);
      if offset < |str| {
        OrdinaryStep(cfg, View(), str[offset]);
        OneStep(str, run, goal);
      }
    }

    /** Up to three hex digits. */
    method HexDigits(str: string, ghost run: Runner, ghost goal: Parsed)
      requires Runs(run, cfg) && running && On(run, str, goal) && offset < |str|
      requires Top(View()).state == EscapeUnicode
      modifies this`ucs, this`stPos, this`offset
      ensures On(run, str, goal) && old(offset) <= offset
    {
      while offset < |str| && stPos < 3 && IsHex(str[offset])
        invariant running && On(run, str, goal) && old(offset) <= offset && Top(View()).state == EscapeUnicode
      {
        HexDigitAt(cfg, run, View(), str, offset, goal);
        ucs, stPos, offset := ucs + HexAt(str[offset], stPos), stPos + 1, offset + 1;
      }
    }

    method ReadHex(str: string, ghost run: Runner, ghost goal: Parsed)
      requires Runs(run, cfg) && running && On(run, str, goal) && offset < |str|
      requires Top(View()).state == EscapeUnicode
      modifies this
      ensures On(run, str, goal) && old(offset) <= offset && (running ==> old(offset) < offset)
    {
      HexDigits(str, run, goal);
      if offset < |str| {
        HexMoves(cfg, View(), str[offset]);
        OneStep(str, run, goal);
      }
    }

    /** The characters of a number, with permissions that last for this call only. */
    method ScanNumber(str: string, ghost run: Runner, ghost goal: Parsed) returns (scan: Scan)
      requires Runs(run, cfg) && running && On(run, str, goal) && offset < |str|
      requires Top(View()).state == Number
      modifies this`offset, this`isDouble, this`pb
      ensures old(offset) <= offset <= |str| && scan.Scanning?
      ensures Leads(run, View().(scan := scan), str, offset, goal)
      ensures offset < |str| ==> str[offset] == NUL || !NumberChar(View(), scan, str[offset])
    {
      var start := offset;
      scan := ScanStart(pb);
      RescanAt(cfg, run, View(), str, offset, goal);
      assert pb + str[start..start] == pb;
      while offset < |str| && str[offset] != NUL && NumberChar(View(), scan, str[offset])
        invariant start <= offset <= |str| && scan.Scanning?
        invariant Leads(run, View().(pb := pb + str[start..offset], scan := scan), str, offset, goal)
        modifies this`offset, this`isDouble
      {
        ScanAt(cfg, run, View(), str, start, offset, scan, goal);
        if AllowsSign(str[offset]) {
          isDouble := true;
        }
        scan := NextScan(scan, str[offset]);
        offset := offset + 1;
      }
      pb := pb + str[start..offset];
    }

    method ReadNumber(str: string, ghost run: Runner, ghost goal: Parsed)
      requires Runs(run, cfg) && ForgetsScan(run) && running && On(run, str, goal) && offset < |str|
      requires Top(View()).state == Number
      modifies this
      ensures On(run, str, goal) && old(offset) <= offset
      ensures running && offset == old(offset) ==> Weight(View()) < Weight(old(View()))
    {
      var scan := ScanNumber(str, run, goal);
      var t := View().(scan := scan);
      if offset < |str| {
        NumberMove(cfg, t, str[offset]);
        NumberProgress(cfg, t, str[offset]);
        MoveAt(cfg, run, t, str, offset, goal);
        Take(StepNumber(cfg, t, str[offset]), str, run, goal);
      } else {
        assert str[offset..] == "";
        assert run(t, "") == OutOfInput(View());
        assert View() == View().(scan := NotScanning);
      }
    }

    method OneRound(str: string, ghost run: Runner, ghost goal: Parsed)
      requires Runs(run, cfg) && ForgetsScan(run) && running && On(run, str, goal) && offset < |str|
      modifies this
      ensures On(run, str, goal) && old(offset) <= offset
      ensures running && offset == old(offset) ==> Weight(View()) < Weight(old(View()))
    {
      var state := top.state;
      if state == EatWs && IsWs(str[offset]) {
        SkipWs(str, run, goal);
      } else if HasRuns(state) {
        ReadRun(str, run, goal);
      } else if state == EscapeUnicode {
        ReadHex(str, run, goal);
      } else if state == Number {
        ReadNumber(str, run, goal);
      } else {
        OneStep(str, run, goal);
      }
    }

    method Loop(str: string, ghost run: Runner, ghost goal: Parsed)
      requires Runs(run, cfg) && ForgetsScan(run) && running && On(run, str, goal)
      modifies this
      ensures offset <= |str| && Parsed(View(), err, str[offset..]) == goal
    {
      while running && offset < |str|
        invariant On(run, str, goal)
        decreases |str| - offset, if running then 1 + Weight(View()) else 0
      {
        OneRound(str, run, goal);
      }
      if running {
        assert str[offset..] == "" && View() == View().(scan := NotScanning);
        err := if below == [] && top.state == EatWs && top.saved == Finish then Success else Continue;
      }
    }

    /** json_tokener_parse_ex. The result counts when `err` says success; then the levels
        start over, as many as there were. */
    method ParseEx(str: string) returns (ret: Json)
      modifies this
      ensures var r := Exec(cfg, old(View()), str);
        && err == r.err && offset <= |str| && str[offset..] == r.rest
        && if err == Success
           then && ret == Top(r.t).current && top == FRESH_LEVEL && |below| == |r.t.below|
                && View() == r.t.(below := below, top := top)
                && forall i :: 0 <= i < |below| ==> below[i] == FRESH_LEVEL
           else View() == r.t
    {
      CallsRun(cfg);
      CallsForget(cfg);
      offset, err, running := 0, Success, true;
      assert str[0..] == str;
      Loop(str, JsonRoundTrip.Calls(cfg), Exec(cfg, View(), str));
      ret := top.current;
      if err == Success {
        ResetLevels();
      }
    }

    method ResetLevels()
      modifies this`below, this`top
      ensures top == FRESH_LEVEL && |below| == |old(below)|
      ensures forall i :: 0 <= i < |below| ==> below[i] == FRESH_LEVEL
    {
      top := FRESH_LEVEL;
      var ii := |below|;
      while ii > 0
        invariant 0 <= ii <= |below| == |old(below)| && top == FRESH_LEVEL
        invariant forall i :: ii <= i < |below| ==> below[i] == FRESH_LEVEL
      {
        ii := ii - 1;
        below := below[ii := FRESH_LEVEL];
      }
    }
  }
}
