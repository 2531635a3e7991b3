/** The frames of the session itself: pings, their answers and farewells. */
module Session {
  import opened Wire
  import opened Streams
  import opened Mux
  import opened Control
  import opened Registry

  /** The frames that belong to no stream. */
  function OfSession(fs: seq<Frame>): seq<Frame> {
    if fs == [] then []
    else OfSession(fs[..|fs| - 1]) + if fs[|fs| - 1].hdr.typ > WINDOW_UPDATE then [fs[|fs| - 1]] else []
  }

  lemma {:induction false} OfSessionAppend(a: seq<Frame>, b: seq<Frame>)
    ensures OfSession(a + b) == OfSession(a) + OfSession(b)
    decreases |b|
  {
    if b == [] {
      assert a + b == a && OfSession(a) + [] == OfSession(a);
    } else {
      var n := |b| - 1;
      assert (a + b)[..|a + b| - 1] == a + b[..n] && (a + b)[|a + b| - 1] == b[n];
      OfSessionAppend(a, b[..n]);
      var last := if b[n].hdr.typ > WINDOW_UPDATE then [b[n]] else [];
      assert OfSession(a) + OfSession(b[..n]) + last == OfSession(a) + (OfSession(b[..n]) + last);
    }
  }

  lemma {:induction false} OfSessionNone(fs: seq<Frame>)
    requires forall f <- fs :: f.hdr.typ <= WINDOW_UPDATE
    ensures OfSession(fs) == []
    decreases |fs|
  {
    if fs != [] {
      OfSessionNone(fs[..|fs| - 1]);
    }
  }

  lemma OfSessionOne(f: Frame)
    requires f.hdr.typ > WINDOW_UPDATE
    ensures OfSession([f]) == [f]
  {
    assert [f][..0] == [];
  }

  /** Frames of a stream, then perhaps one of the session. */
  lemma Sends(out: seq<Frame>, fs: seq<Frame>, tail: seq<Frame>)
    requires forall f <- fs :: f.hdr.typ <= WINDOW_UPDATE
    requires |tail| <= 1 && forall f <- tail :: f.hdr.typ > WINDOW_UPDATE
    ensures OfSession(out + fs + tail) == OfSession(out) + tail
  {
    OfSessionAppend(out + fs, tail);
    OfSessionAppend(out, fs);
    OfSessionNone(fs);
    assert OfSession(out) + [] == OfSession(out);
    if tail != [] {
      OfSessionOne(tail[0]);
      assert tail == [tail[0]];
    }
  }

  // ---------------------------------------------------------------- what is answered

  /** The answer to a ping: its number, with ACK. */
  function Pong(number: u32): Frame {
    Frame(Header(0, 2, 2, 0, number), [])
  }

  /** The farewell for a protocol error. */
  function ProtocolError(): Frame {
    Frame(Header(0, 3, 0, 0, 1), [])
  }

  /** An open stream is sent nothing, or more than its window without being reset. */
  predicate Offends(ep: Endpoint, hdr: Header) {
    && hdr.id in ep.streams && ep.streams[hdr.id].state == Established
    && (hdr.length == 0 ||
        (hdr.length > ep.streams[hdr.id].recvWindow &&
         (HasRst(hdr.flags) ==> HasAck(hdr.flags) || HasFin(hdr.flags))))
  }

  function Answer(ep: Endpoint, f: Frame): seq<Frame> {
    if f.hdr.typ == PING && HasSyn(f.hdr.flags) then [Pong(f.hdr.length)]
    else if f.hdr.typ == DATA && Offends(ep, f.hdr) then [ProtocolError()]
    else []
  }

  lemma UpdateSends(s: Stream, used: u32)
    ensures forall f <- SendWindowUpdate(s, used).1 :: f.hdr.typ == WINDOW_UPDATE
  {
  }

  lemma BodySends(base: Endpoint, s: Stream, length: u32, socks5: Socks5)
    requires s.id in base.streams && ProcessBody(base, s, length, Quiet(socks5)).Live?
    ensures OfSession(ProcessBody(base, s, length, Quiet(socks5)).ep.out) == OfSession(base.out)
    ensures ProcessBody(base, s, length, Quiet(socks5)).ep.remoteGoAway == base.remoteGoAway
  {
    var c := Consume(base, s, length, Quiet(socks5));
    var s1 := s.(rx := s.rx[c.taken..]);
    var ep1 := Store(base, s1).(log := base.log + [Event(s.id, s.rx[..c.taken])]);
    assert (if c.message then Quiet(socks5).onMessage(ep1, s.id, s.rx[..c.taken]) else ep1) == ep1;
    var (s2, fs) := SendWindowUpdate(s1, c.used);
    assert ProcessBody(base, s, length, Quiet(socks5)) == Live(Emit(Store(ep1, s2), fs));
    UpdateSends(s1, c.used);
    Sends(base.out, fs, []);
    assert base.out + fs + [] == base.out + fs;
    assert OfSession(base.out) + [] == OfSession(base.out);
  }

  lemma Complains(out: seq<Frame>)
    ensures GoAwayFrame(PROTO_ERR) == ProtocolError()
    ensures OfSession(out + [GoAwayFrame(PROTO_ERR)]) == OfSession(out) + [ProtocolError()]
  {
    OfSessionOne(ProtocolError());
    OfSessionAppend(out, [ProtocolError()]);
  }

  lemma Answers(out: seq<Frame>, number: u32)
    ensures OfSession(out + [PingAckFrame(number)]) == OfSession(out) + [Pong(number)]
  {
    OfSessionOne(Pong(number));
    OfSessionAppend(out, [Pong(number)]);
  }

  /** The answer and the memory of the session after a frame. */
  ghost predicate Answered(ep: Endpoint, ep': Endpoint, answer: seq<Frame>) {
    OfSession(ep'.out) == OfSession(ep.out) + answer && ep'.remoteGoAway == ep.remoteGoAway
  }

  lemma AcceptedSends(base: Endpoint, s: Stream, hdr: Header, socks5: Socks5)
    requires s.id in base.streams && ProcessBody(base, s, hdr.length, Quiet(socks5)).Live?
    ensures var ep := ProcessBody(base, s, hdr.length, Quiet(socks5)).ep;
      && Answered(base, Emit(ep, [GoAwayFrame(PROTO_ERR)]), [ProtocolError()])
      && Answered(base, ep, [])
  {
    BodySends(base, s, hdr.length, socks5);
    Complains(ProcessBody(base, s, hdr.length, Quiet(socks5)).ep.out);
    assert OfSession(base.out) + [] == OfSession(base.out);
  }

  lemma RefusedSends(base: Endpoint, ep: Endpoint)
    requires ep.out == base.out && ep.remoteGoAway == base.remoteGoAway
    ensures Answered(base, Emit(ep, [GoAwayFrame(PROTO_ERR)]), [ProtocolError()])
    ensures Answered(base, ep, [])
  {
    Complains(base.out);
    assert OfSession(base.out) + [] == OfSession(base.out);
  }

  /** The answer to an empty frame. */
  function Empty(length: u32): seq<Frame> {
    if length == 0 then [ProtocolError()] else []
  }

  lemma ResetSends(base: Endpoint, s: Stream, hdr: Header, h: Hooks)
    requires s.state == Established && ProcessFlags(s, hdr.flags).Flagged? && ProcessFlags(s, hdr.flags).remove
    ensures HandleData(base, s, hdr, h).Live? && Answered(base, HandleData(base, s, hdr, h).ep, Empty(hdr.length))
  {
    RefusedSends(base, DeleteStream(base, s.id));
  }

  lemma ExcessSends(base: Endpoint, s: Stream, hdr: Header, h: Hooks)
    requires s.state == Established && ProcessFlags(s, hdr.flags).Flagged? && !ProcessFlags(s, hdr.flags).remove
    requires hdr.length > ProcessFlags(s, hdr.flags).s.recvWindow
    ensures HandleData(base, s, hdr, h).Live? && Answered(base, HandleData(base, s, hdr, h).ep, [ProtocolError()])
  {
    RefusedSends(base, Store(base, ProcessFlags(s, hdr.flags).s));
  }

  lemma TakenSends(base: Endpoint, s: Stream, hdr: Header, socks5: Socks5)
    requires s.id in base.streams && HandleData(base, s, hdr, Quiet(socks5)).Live?
    requires s.state == Established && ProcessFlags(s, hdr.flags).Flagged? && !ProcessFlags(s, hdr.flags).remove
    requires hdr.length <= ProcessFlags(s, hdr.flags).s.recvWindow && ProcessFlags(s, hdr.flags).s.id == s.id
    ensures Answered(base, HandleData(base, s, hdr, Quiet(socks5)).ep, Empty(hdr.length))
  {
    var s1 := ProcessFlags(s, hdr.flags).s;
    AcceptedSends(base, s1.(recvWindow := s1.recvWindow - hdr.length), hdr, socks5);
  }

  lemma DataSends(base: Endpoint, s: Stream, hdr: Header, socks5: Socks5)
    requires s.id == hdr.id && hdr.id in base.streams && base.streams[hdr.id] == s
    requires HandleData(base, s, hdr, Quiet(socks5)).Live?
    ensures Answered(base, HandleData(base, s, hdr, Quiet(socks5)).ep,
                     if Offends(base, hdr) then [ProtocolError()] else [])
  {
    if s.state != Established {
      RefusedSends(base, base);
    } else {
      FlagsOffend(s, hdr.flags);
      var r := ProcessFlags(s, hdr.flags);
      if r.remove {
        ResetSends(base, s, hdr, Quiet(socks5));
      } else if hdr.length > r.s.recvWindow {
        ExcessSends(base, s, hdr, Quiet(socks5));
      } else {
        TakenSends(base, s, hdr, socks5);
      }
    }
  }

  /** What the flags of a frame do to an open stream. */
  lemma FlagsOffend(s: Stream, flags: u16)
    requires s.state == Established
    ensures var r := ProcessFlags(s, flags);
      && r.Flagged? && r.s.recvWindow == s.recvWindow && r.s.id == s.id
      && (r.remove <==> HasRst(flags) && !HasAck(flags) && !HasFin(flags))
  {
  }

  /** Handling a frame answers it as told, and remembers a farewell without an error. */
  lemma FrameAnswered(ep: Endpoint, f: Frame, socks5: Socks5)
    requires WellFramed(f) && GoodTable(ep) && HandleFrame(ep, f, Dispatcher(Quiet(socks5))).Live?
    ensures var ep' := HandleFrame(ep, f, Dispatcher(Quiet(socks5))).ep;
      && OfSession(ep'.out) == OfSession(ep.out) + Answer(ep, f)
      && (ep'.remoteGoAway <==> ep.remoteGoAway || (f.hdr.typ == GO_AWAY && f.hdr.length == 0))
  {
    RefusedSends(ep, ep);
    if f.hdr.typ == PING {
      Answers(ep.out, f.hdr.length);
    } else if f.hdr.typ == DATA && f.hdr.id in ep.streams {
      var s := ep.streams[f.hdr.id].(rx := ep.streams[f.hdr.id].rx + f.body);
      DataSends(ep.(streams := ep.streams[f.hdr.id := s]), s, f.hdr, socks5);
    }
  }

  // ---------------------------------------------------------------- whole runs

  /** The session frames that a step sends. */
  function Sent(c: Ctl, op: Op): seq<Frame> {
    match op
    case Arrive(f, _) => if WellFramed(f) then Answer(c.ep, f) else []
    case EndMessage(_, length) => Empty(length)
    case _ => []
  }

  predicate Farewell(op: Op) {
    op.Arrive? && WellFramed(op.f) && op.f.hdr.typ == GO_AWAY && op.f.hdr.length == 0
  }

  /** A step that sends nothing but frames of streams. */
  lemma OwnSends(c: Ctl, op: Op)
    requires Inv(c) && Step(c, op).Running?
    requires op.SendData? || op.OfferWindow? || op.CloseStream? || op.LocalLost? || op.Connect?
    ensures OfSession(Step(c, op).c.ep.out) == OfSession(c.ep.out)
    ensures Step(c, op).c.ep.remoteGoAway == c.ep.remoteGoAway
  {
    match op
    case SendData(id, data) => if id in c.ep.streams && |data| < U32_RANGE { WriteSends(c, id, data); }
    case OfferWindow(id, used) =>
      if id in c.ep.streams {
        UpdateSends(c.ep.streams[id], used);
        LocalSends(c.ep.out, SendWindowUpdate(c.ep.streams[id], used).1);
      }
    case CloseStream(id) => if id in c.ep.streams { CloseSends(c, id); }
    case LocalLost(id) => if id in c.ep.streams && id in c.ep.clients { CloseSends(c, id); }
    case Connect =>
      UpdateSends(NewStream(c.nextId), 0);
      LocalSends(c.ep.out, SendWindowUpdate(NewStream(c.nextId), 0).1);
  }

  lemma StepSends(c: Ctl, op: Op)
    requires Inv(c) && Step(c, op).Running? && !op.Clear?
    ensures var c1 := Step(c, op).c;
      && OfSession(c1.ep.out) == OfSession(c.ep.out) + Sent(c, op)
      && (c1.ep.remoteGoAway <==> c.ep.remoteGoAway || Farewell(op))
  {
    assert OfSession(c.ep.out) + [] == OfSession(c.ep.out);
    match op
    case Arrive(f, handler) => if WellFramed(f) { FrameAnswered(c.ep, f, handler); }
    case EndMessage(id, length) =>
      UpdateSends(c.ep.streams[id], length);
      Sends(c.ep.out, SendWindowUpdate(c.ep.streams[id], length).1, Complaint(length));
    case StartTunnel(_, _, _) =>
    case LocalOpen(_) =>
    case Delete(_) =>
    case BeginMessage(_) =>
    case _ => OwnSends(c, op);
  }

  lemma LocalSends(out: seq<Frame>, fs: seq<Frame>)
    requires forall f <- fs :: f.hdr.typ <= WINDOW_UPDATE
    ensures OfSession(out + fs) == OfSession(out)
  {
    Sends(out, fs, []);
    assert out + fs + [] == out + fs && OfSession(out) + [] == OfSession(out);
  }

  lemma WriteSends(c: Ctl, id: u32, data: seq<byte>)
    requires Inv(c) && id in c.ep.streams && |data| < U32_RANGE && Write(c.ep.streams[id], data).Written?
    ensures OfSession(c.ep.out + Write(c.ep.streams[id], data).frames) == OfSession(c.ep.out)
  {
    WriteLawful(c.ep.streams[id], data);
    LocalSends(c.ep.out, Write(c.ep.streams[id], data).frames);
  }

  lemma CloseSends(c: Ctl, id: u32)
    requires Inv(c) && id in c.ep.streams
    ensures OfSession(CloseOn(c.ep, id).out) == OfSession(c.ep.out)
  {
    CloseLawful(c.ep.streams[id]);
    LocalSends(c.ep.out, Close(c.ep.streams[id]).frames);
  }

  /** The session frames of a run, since the last reconnect. */
  function Trace(c: Ctl, ops: seq<Op>, sent: seq<Frame>): seq<Frame>
    decreases |ops|
  {
    if ops == [] then sent
    else match Step(c, ops[0])
      case Stopped => sent
      case Running(c1) => Trace(c1, ops[1..], if ops[0].Clear? then [] else sent + Sent(c, ops[0]))
  }

  lemma {:induction false} RunSends(c: Ctl, ops: seq<Op>)
    requires Inv(c) && IdsLast(c.nextId, ops) && Exec(c, ops).Running?
    ensures var r := Exec(c, ops).c;
      && OfSession(r.ep.out) == Trace(c, ops, OfSession(c.ep.out))
      && (r.ep.remoteGoAway <==> c.ep.remoteGoAway || exists op <- ops :: Farewell(op))
    decreases |ops|
  {
    if ops != [] {
      var c1 := Step(c, ops[0]).c;
      if !ops[0].Clear? { StepSends(c, ops[0]); }
      StepKeeps(c, ops[0]);
      StepNextId(c, ops[0]);
      RunSends(c1, ops[1..]);
      assert ops == [ops[0]] + ops[1..];
    }
  }

  /** Over every run, the pings and farewells sent since the last reconnect are, in order, one
      answer with its number to every ping, and one protocol error for every offence. The other
      side's farewell is remembered exactly if one without an error has arrived. */
  lemma SessionFrames(ops: seq<Op>)
    requires IdsLast(3, ops)
    ensures var r := Exec(Initial(), ops);
      r.Running? ==>
        && OfSession(r.c.ep.out) == Trace(Initial(), ops, [])
        && (r.c.ep.remoteGoAway <==> exists op <- ops :: Farewell(op))
  {
    InitialInv();
    if Exec(Initial(), ops).Running? { RunSends(Initial(), ops); }
  }
}
