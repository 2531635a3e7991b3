/** Frames for the message handler, which acts in the middle of them. */
module Messages {
  import opened Wire
  import opened Streams
  import opened Mux
  import opened Control
  import opened Registry

  lemma {:induction false} ExecAppend(c: Ctl, ops: seq<Op>, more: seq<Op>)
    ensures Exec(c, ops + more) == match Exec(c, ops) case Stopped => Stopped case Running(c1) => Exec(c1, more)
    decreases |ops|
  {
    if ops == [] {
      assert ops + more == more;
    } else {
      assert (ops + more)[0] == ops[0] && (ops + more)[1..] == ops[1..] + more;
      match Step(c, ops[0])
      case Stopped =>
      case Running(c1) => ExecAppend(c1, ops[1..], more);
    }
  }

  /** A frame during which the handler does `ops`. */
  function Message(f: Frame, ops: seq<Op>): seq<Op> {
    [BeginMessage(f)] + ops + [EndMessage(f.hdr.id, f.hdr.length)]
  }

  /** The body of such a frame, up to where the handler is called. */
  lemma BodyParts(base: Endpoint, s: Stream, length: u32, socks5: Socks5)
    requires s.id in base.streams && length <= |s.rx|
    requires s.id in base.clients ==> !base.clients[s.id].hasLocal && !base.clients[s.id].socks5
    ensures
      var s1 := s.(rx := s.rx[length..]);
      var (s2, fs) := SendWindowUpdate(s1, length);
      ProcessBody(base, s, length, Quiet(socks5)) ==
        Live(Emit(base.(streams := base.streams[s.id := s2], log := base.log + [Event(s.id, s.rx[..length])]), fs))
  {
    var s1 := s.(rx := s.rx[length..]);
    var ep1 := Store(base, s1).(log := base.log + [Event(s.id, s.rx[..length])]);
    assert Quiet(socks5).onMessage(ep1, s.id, s.rx[..length]) == ep1;
    var (s2, fs) := SendWindowUpdate(s1, length);
    assert ProcessBody(base, s, length, Quiet(socks5)) == Live(Emit(Store(ep1, s2), fs));
    assert Store(ep1, s2).streams == base.streams[s.id := s2];
  }

  /** Flags do not touch the ring. */
  lemma FlagsApart(s: Stream, rx: seq<byte>, flags: u16)
    requires ProcessFlags(s, flags).Flagged?
    ensures ProcessFlags(s.(rx := rx), flags) ==
      Flagged(ProcessFlags(s, flags).s.(rx := rx), ProcessFlags(s, flags).remove)
    ensures ProcessFlags(s, flags).s.recvWindow == s.recvWindow && ProcessFlags(s, flags).s.id == s.id
  {
  }

  function AfterMessage(ep: Endpoint, f: Frame): Endpoint
    requires ForHandler(ep, f)
  {
    Emit(UpdateOn(HandOver(ep, f), f.hdr.id, f.hdr.length), Complaint(f.hdr.length))
  }

  lemma HandleMessage(ep: Endpoint, f: Frame, handler: Socks5)
    requires ForHandler(ep, f)
    ensures HandleFrame(ep, f, Dispatcher(Quiet(handler))) == Live(AfterMessage(ep, f))
  {
    var s, id, rx := ep.streams[f.hdr.id], f.hdr.id, ep.streams[f.hdr.id].rx + f.body;
    var base := ep.(streams := ep.streams[id := s.(rx := rx)]);
    FlagsApart(s, rx, f.hdr.flags);
    var sf := ProcessFlags(s, f.hdr.flags).s;
    var sr := sf.(rx := rx, recvWindow := sf.recvWindow - f.hdr.length);
    assert HandleFrame(ep, f, Dispatcher(Quiet(handler))) ==
      HandleData(base, s.(rx := rx), f.hdr, Quiet(handler));
    BodyParts(base, sr, f.hdr.length, handler);
    MessageEnd(ep, base, f, sr);
  }

  /** What the two ways to the end of a message have in common. */
  lemma MessageEnd(ep: Endpoint, base: Endpoint, f: Frame, sr: Stream)
    requires ForHandler(ep, f) && f.hdr.id in base.streams
    requires base == ep.(streams := ep.streams[f.hdr.id := base.streams[f.hdr.id]])
    requires sr.rx == ep.streams[f.hdr.id].rx + f.body
    requires sr.(rx := sr.rx[|f.body|..]) == HandedOver(ep.streams[f.hdr.id], f)
    ensures
      var s1 := sr.(rx := sr.rx[|f.body|..]);
      var (s2, fs) := SendWindowUpdate(s1, f.hdr.length);
      var ep1 := Emit(base.(streams := base.streams[f.hdr.id := s2],
                            log := base.log + [Event(f.hdr.id, sr.rx[..|f.body|])]), fs);
      AfterMessage(ep, f) == if f.hdr.length == 0 then Emit(ep1, [GoAwayFrame(PROTO_ERR)]) else ep1
  {
    var id, s1 := f.hdr.id, sr.(rx := sr.rx[|f.body|..]);
    var (s2, fs) := SendWindowUpdate(s1, f.hdr.length);
    assert base.streams[id := s2] == ep.streams[id := s1][id := s2];
    var out := ep.out + fs;
    assert out + [] == out;
  }

  /** A handler that does nothing: the two halves are the frame. */
  lemma QuietMessage(c: Ctl, f: Frame, handler: Socks5)
    requires ForHandler(c.ep, f)
    ensures Exec(c, Message(f, [])) == Step(c, Arrive(f, handler))
  {
    HandleMessage(c.ep, f, handler);
    TwoHalves(c, f);
  }

  lemma TwoHalves(c: Ctl, f: Frame)
    requires ForHandler(c.ep, f)
    ensures Exec(c, Message(f, [])) == Running(c.(ep := AfterMessage(c.ep, f)))
  {
    var c1, last := c.(ep := HandOver(c.ep, f)), EndMessage(f.hdr.id, f.hdr.length);
    BeginStep(c, f);
    Around(c, BeginMessage(f), c1, [], last);
    EndStep(c1, f.hdr.id, f.hdr.length);
    assert Exec(c1, []) == Running(c1);
  }

  /** A frame whose handler does `ops` stops the program exactly when one of them does, or
      when they leave the frame's own stream deleted: it is used again behind them. */
  lemma MessageStopsIff(c: Ctl, f: Frame, ops: seq<Op>)
    requires ForHandler(c.ep, f)
    ensures var r := Exec(c.(ep := HandOver(c.ep, f)), ops);
      Exec(c, Message(f, ops)) == Stopped <==> r == Stopped || f.hdr.id !in r.c.ep.streams
  {
    var c1 := c.(ep := HandOver(c.ep, f));
    BeginStep(c, f);
    Around(c, BeginMessage(f), c1, ops, EndMessage(f.hdr.id, f.hdr.length));
    var r := Exec(c1, ops);
    if r.Running? {
      EndStep(r.c, f.hdr.id, f.hdr.length);
    }
  }

  lemma BeginStep(c: Ctl, f: Frame)
    requires ForHandler(c.ep, f)
    ensures Step(c, BeginMessage(f)) == Running(c.(ep := HandOver(c.ep, f)))
  {
  }

  lemma EndStep(c: Ctl, id: u32, length: u32)
    ensures Step(c, EndMessage(id, length)) ==
      if id in c.ep.streams then Running(c.(ep := Emit(UpdateOn(c.ep, id, length), Complaint(length)))) else Stopped
  {
  }

  lemma Around(c: Ctl, first: Op, c1: Ctl, ops: seq<Op>, last: Op)
    requires Step(c, first) == Running(c1)
    ensures Exec(c, [first] + ops + [last]) ==
      match Exec(c1, ops) case Stopped => Stopped case Running(c2) => Step(c2, last)
  {
    assert [first] + ops + [last] == [first] + (ops + [last]);
    OneOp(c, first);
    ExecAppend(c, [first], ops + [last]);
    ExecAppend(c1, ops, [last]);
    match Exec(c1, ops)
    case Stopped =>
    case Running(c2) => OneOp(c2, last);
  }

  lemma OneOp(c: Ctl, op: Op)
    ensures Exec(c, [op]) == Step(c, op)
  {
    match Step(c, op)
    case Stopped =>
    case Running(c1) => assert [op][1..] == [] && Exec(c1, []) == Running(c1);
  }

  /** That happens: a client is told to start, its local connection is refused, and the
      client deletes the stream that the message came on. */
  lemma RefusedTunnelStops(c: Ctl, f: Frame)
    requires ForHandler(c.ep, f) && f.hdr.id in c.ep.clients
    ensures Exec(c, Message(f, [StartTunnel(f.hdr.id, false, false)])) == Stopped
    ensures Exec(c, Message(f, [StartTunnel(f.hdr.id, false, true)])).Running?
  {
    var c1 := c.(ep := HandOver(c.ep, f));
    OneOp(c1, StartTunnel(f.hdr.id, false, false));
    OneOp(c1, StartTunnel(f.hdr.id, false, true));
    MessageStopsIff(c, f, [StartTunnel(f.hdr.id, false, false)]);
    MessageStopsIff(c, f, [StartTunnel(f.hdr.id, false, true)]);
  }
}
