/** The tokener reads string literals as `JsonEscapes.Machine` says, one character at a time,
    and so inherits what is proved of it. */
module JsonStrings {
  import opened Seqs
  import opened JsonValues
  import opened JsonTokener
  import opened JsonRoundTrip
  import opened JsonTheorems
  import opened Utf8Text
  import opened JsonEscapes

  /** A high half has been read and waits for its partner. */
  predicate Held(t: Tok) {
    && (t.quote == '"' || t.quote == '\'') && t.scan == NotScanning && t.ucs == 0 && t.stPos == 0
    && Top(t).state == NeedEscape && (Top(t).saved == StringBody || Top(t).saved == FieldName)
    && t.high != 0 && IsHighSurrogate(t.high)
  }

  predicate InLiteral(t: Tok) { InText(t) || Held(t) }

  /** Back in the text, the high half forgotten. */
  function Body(t: Tok): Tok
  {
    if Top(t).state == NeedEscape then Goto(t.(high := 0, ucs := 0, stPos := 0), Top(t).saved) else t
  }

  function Forget(t: Tok): Tok
  {
    Append(Body(t), Lost(t.high))
  }

  lemma ForgetRead(t: Tok)
    requires InLiteral(t)
    ensures Read(Body(t), Forget(t), Lost(t.high))
  {
  }

  // ---------------------------------------------------------------- pieces that are not \u escapes

  lemma GiveUp(cfg: Config, run: Runner, t: Tok, c: char, rest: string)
    requires Runs(run, cfg) && InLiteral(t) && c != '\\'
    ensures run(t, [c] + rest) == run(Forget(t), [c] + rest)
  {
    if Held(t) {
      ExecRedo(cfg, run, t, c, rest, Forget(t));
    } else {
      assert t.pb + "" == t.pb;
    }
  }

  lemma GiveUpEscape(cfg: Config, run: Runner, t: Tok, e: char, rest: string)
    requires Runs(run, cfg) && InLiteral(t) && e != 'u'
    ensures run(t, ['\\'] + ([e] + rest)) == run(Forget(t), ['\\'] + ([e] + rest))
  {
    if Held(t) {
      var x := Forget(t);
      ExecEat(cfg, run, t, '\\', [e] + rest, Goto(t, NeedU));
      ExecRedo(cfg, run, Goto(t, NeedU), e, rest, Escaping(x));
      ExecEat(cfg, run, x, '\\', [e] + rest, Escaping(x));
    } else {
      assert t.pb + "" == t.pb;
    }
  }

  lemma {:induction false} ReadRaw(cfg: Config, run: Runner, t: Tok, b: string, rest: string) returns (t': Tok)
    requires Runs(run, cfg) && InText(t)
    requires forall i :: 0 <= i < |b| ==> b[i] != t.quote && b[i] != '\\' && b[i] != NUL
    ensures Read(t, t', b) && run(t, b + rest) == run(t', rest)
    decreases |b|
  {
    if b == [] {
      t' := t;
      assert b + rest == rest && t.pb + b == t.pb;
    } else {
      var t1 := Append(t, [b[0]]);
      assert b + rest == [b[0]] + (b[1..] + rest);
      ExecEat(cfg, run, t, b[0], b[1..] + rest, t1);
      t' := ReadRaw(cfg, run, t1, b[1..], rest);
      ReadTrans(t, t1, t', [b[0]], b[1..]);
      assert [b[0]] + b[1..] == b;
    }
  }

  /** A raw character or a short escape. */
  lemma ReadPlain(cfg: Config, run: Runner, t: Tok, p: Piece, rest: string) returns (t': Tok)
    requires Runs(run, cfg) && InLiteral(t) && ValidPiece(p) && !p.Code? && (p.Raw? ==> t.quote !in p.b)
    ensures Read(Body(t), t', Lost(t.high) + Single(p)) && run(t, PieceText(p) + rest) == run(t', rest)
  {
    var x := Forget(t);
    ForgetRead(t);
    match p {
      case Raw(b) =>
        assert b + rest == [b[0]] + (b[1..] + rest);
        GiveUp(cfg, run, t, b[0], b[1..] + rest);
        t' := ReadRaw(cfg, run, x, b, rest);
      case Short(e) =>
        assert ['\\', e] + rest == ['\\'] + ([e] + rest);
        GiveUpEscape(cfg, run, t, e, rest);
        t' := ReadShortEscape(cfg, run, x, ShortValue(e), e, rest);
    }
    ReadTrans(Body(t), x, t', Lost(t.high), Single(p));
  }

  // ---------------------------------------------------------------- \u escapes

  /** Inside a \u escape, no digit read yet. */
  predicate InCode(t: Tok, u: Tok) {
    && u.pb == t.pb && u.quote == t.quote && u.scan == t.scan
    && u.high == t.high && u.ucs == 0 && u.stPos == 0
    && u.below == t.below && u.top == t.top.(state := EscapeUnicode, saved := Top(Body(t)).state)
  }

  lemma OpenCode(cfg: Config, run: Runner, t: Tok, rest: string) returns (u: Tok)
    requires Runs(run, cfg) && InLiteral(t)
    ensures InCode(t, u) && run(t, "\\u" + rest) == run(u, rest)
  {
    if Held(t) {
      u := Goto(t, EscapeUnicode);
      assert "\\u" + rest == ['\\'] + (['u'] + rest);
      ExecEat(cfg, run, t, '\\', ['u'] + rest, Goto(t, NeedU));
      assert Goto(Goto(t, NeedU), EscapeUnicode) == u;
      ExecEat(cfg, run, Goto(t, NeedU), 'u', rest, u);
    } else {
      u := Unicode(t);
      OpenUnicode(cfg, run, t, rest);
    }
  }

  /** What is written before the value of an escape. */
  function Front(high: nat, v: nat): string {
    if high != 0 && IsLowSurrogate(v) then "" else Lost(high)
  }

  lemma EscapeDoneIs(u: Tok)
    requires u.ucs < 0x10000 && (u.high == 0 || IsHighSurrogate(u.high))
    ensures var w, front := Combined(u.high, u.ucs), Front(u.high, u.ucs);
      EscapeDone(u) ==
        if IsHighSurrogate(w) then Goto(u.(pb := u.pb + front, ucs := 0, high := w, stPos := 0), NeedEscape)
        else Goto(u.(pb := u.pb + front + Written(w), ucs := w, high := 0, stPos := 0), Top(u).saved)
  {
    Low16Mod(Combined(u.high, u.ucs));
    assert u.pb + "" == u.pb;
  }

  lemma CodeDone(t: Tok, u: Tok, v: nat)
    requires InLiteral(t) && InCode(t, u) && v < 0x10000
    ensures var t', w := EscapeDone(u.(ucs := v, stPos := 3)), Combined(t.high, v);
      if IsHighSurrogate(w) then Held(t') && t'.high == w && Read(Body(t), Body(t'), Front(t.high, v))
      else InText(t') && Read(Body(t), t', Front(t.high, v) + Written(w))
  {
    var t', w := EscapeDone(u.(ucs := v, stPos := 3)), Combined(t.high, v);
    EscapeDoneIs(u.(ucs := v, stPos := 3));
    Assoc(t.pb, Front(t.high, v), Written(w));
  }

  /** A \u escape. */
  lemma ReadCode(cfg: Config, run: Runner, t: Tok, p: Piece, rest: string) returns (t': Tok)
    requires Runs(run, cfg) && InLiteral(t) && ValidPiece(p) && p.Code?
    ensures var v := CodeValue(p); var w := Combined(t.high, v);
      if IsHighSurrogate(w) then Held(t') && t'.high == w && Read(Body(t), Body(t'), Front(t.high, v))
      else InText(t') && Read(Body(t), t', Front(t.high, v) + Written(w))
    ensures run(t, PieceText(p) + rest) == run(t', rest)
  {
    Assoc("\\u", p.h, rest);
    var u := OpenCode(cfg, run, t, p.h + rest);
    CodeDone(t, u, CodeValue(p));
    t' := EscapeDone(u.(ucs := CodeValue(p), stPos := 3));
    ReadFourHex(cfg, run, u, p.h, rest, t');
  }

  // ---------------------------------------------------------------- whole literals

  lemma {:induction false} ReadPieces(cfg: Config, run: Runner, t: Tok, ps: seq<Piece>, rest: string)
    returns (t': Tok)
    requires Runs(run, cfg) && InLiteral(t) && Valid(ps) && Inside(ps, t.quote)
    ensures Read(Body(t), t', Machine(ps, t.high))
    ensures run(t, Text(ps) + ([t.quote] + rest)) == run(t', [t.quote] + rest)
    decreases |ps|
  {
    var end := [t.quote] + rest;
    if ps == [] {
      assert Text(ps) + end == end;
      GiveUp(cfg, run, t, t.quote, rest);
      ForgetRead(t);
      t' := Forget(t);
    } else {
      Assoc(PieceText(ps[0]), Text(ps[1..]), end);
      if !ps[0].Code? {
        var t1 := ReadPlain(cfg, run, t, ps[0], Text(ps[1..]) + end);
        t' := ReadPieces(cfg, run, t1, ps[1..], rest);
        ReadTrans(Body(t), t1, t', Lost(t.high) + Single(ps[0]), Machine(ps[1..], 0));
        Assoc(Lost(t.high), Single(ps[0]), Machine(ps[1..], 0));
      } else {
        var v := CodeValue(ps[0]);
        var w := Combined(t.high, v);
        var t1 := ReadCode(cfg, run, t, ps[0], Text(ps[1..]) + end);
        t' := ReadPieces(cfg, run, t1, ps[1..], rest);
        if IsHighSurrogate(w) {
          ReadTrans(Body(t), Body(t1), t', Front(t.high, v), Machine(ps[1..], w));
        } else {
          ReadTrans(Body(t), t1, t', Front(t.high, v) + Written(w), Machine(ps[1..], 0));
          Assoc(Front(t.high, v), Written(w), Machine(ps[1..], 0));
        }
      }
    }
  }

  /** Every literal is read to its end. The result is well-formed UTF-8, and it is what the
      literal means exactly when no pair in it clashes. */
  lemma LiteralRead(cfg: Config, ps: seq<Piece>)
    requires Valid(ps) && Inside(ps, '"') && RawUtf8(ps)
    ensures var r := ParseText(cfg, "\"" + Text(ps) + "\"");
      && r.err == Success && r.rest == [NUL] && Top(r.t).current.Str?
      && WellFormed(Top(r.t).current.s)
      && (Top(r.t).current == Str(Meaning(ps)) <==> !Clashes(ps))
  {
    var run, t := Calls(cfg), FreshTok();
    CallsRun(cfg);
    var tail := ['"'] + [NUL];
    assert "\"" + Text(ps) + "\"" + [NUL] == ['"'] + (Text(ps) + tail);
    ReadStart(cfg, run, t, '"', Text(ps) + tail);
    var t1 := Goto(t.(pb := "", quote := '"'), StringBody);
    ExecEat(cfg, run, Goto(t, Start), '"', Text(ps) + tail, t1);
    var t2 := ReadPieces(cfg, run, t1, ps, [NUL]);
    assert "" + Machine(ps, 0) == Machine(ps, 0);
    var t3 := Complete(t2, Str(Machine(ps, 0)));
    CloseString(cfg, run, t2, [NUL]);
    FinishTop(cfg, run, t3, Str(Machine(ps, 0)));
    MachineWellFormed(ps, 0);
    MeaningIff(ps);
  }
}
