/** A stream's state, told from the flags it has sent and been sent. */
module History {
  import opened Options
  import opened Wire
  import opened Streams
  import opened Mux
  import opened Control
  import opened Registry

  /** A frame of the stream was sent, or one arrived. */
  datatype Event = Sent(flags: u16) | Got(typ: byte, flags: u16)

  function Last(h: seq<Event>): Event
    requires h != []
  {
    h[|h| - 1]
  }

  function Before(h: seq<Event>): seq<Event>
    requires h != []
  {
    h[..|h| - 1]
  }

  /** A frame with SYN was sent. */
  predicate SynSent(h: seq<Event>) {
    h != [] && (SynSent(Before(h)) || (Last(h).Sent? && HasSyn(Last(h).flags)))
  }

  /** A frame with FIN was sent. */
  predicate FinSent(h: seq<Event>) {
    h != [] && (FinSent(Before(h)) || (Last(h).Sent? && HasFin(Last(h).flags)))
  }

  /** The peer has answered the SYN: a WINDOW_UPDATE with ACK arrived after it. */
  predicate AckHeard(h: seq<Event>) {
    h != [] && (AckHeard(Before(h)) ||
                (SynSent(Before(h)) && Last(h).Got? && Last(h).typ == WINDOW_UPDATE && HasAck(Last(h).flags)))
  }

  /** The peer has said FIN. It is not listened to in a frame with ACK, nor in a DATA frame
      unless the stream is open. */
  predicate FinHeard(h: seq<Event>)
    decreases |h|, 0
  {
    h != [] && (FinHeard(Before(h)) ||
                (Last(h).Got? && HasFin(Last(h).flags) && !HasAck(Last(h).flags) &&
                 (Last(h).typ == WINDOW_UPDATE || Open(Before(h)))))
  }

  predicate Open(h: seq<Event>)
    decreases |h|, 1
  {
    SynSent(h) && AckHeard(h) && !FinSent(h) && !FinHeard(h)
  }

  /** What each state says about the frames so far. */
  predicate Describes(s: State, h: seq<Event>) {
    && LiveState(s)
    && (s == Init <==> !SynSent(h) && !FinSent(h) && !FinHeard(h))
    && (s == SynSend <==> SynSent(h) && !AckHeard(h) && !FinSent(h) && !FinHeard(h))
    && (s == Established <==> SynSent(h) && AckHeard(h) && !FinSent(h) && !FinHeard(h))
    && (s == LocalClose <==> FinSent(h) && !FinHeard(h))
    && (s == RemoteClose <==> FinHeard(h) && !FinSent(h))
  }

  // ---------------------------------------------------------------- one event more

  lemma OneMore(h: seq<Event>, e: Event)
    ensures Last(h + [e]) == e && Before(h + [e]) == h
  {
  }

  lemma {:induction false} SentOne(s: State, h: seq<Event>, flags: u16)
    requires Describes(s, h) && (s == Init ==> HasSyn(flags))
    ensures !HasFin(flags) ==> Describes(if s == Init then SynSend else s, h + [Sent(flags)])
    ensures HasFin(flags) && s in {SynSend, Established, LocalClose} ==> Describes(LocalClose, h + [Sent(flags)])
  {
    OneMore(h, Sent(flags));
    if s == Init {
      NoAckYet(h);
    }
  }

  lemma {:induction false} FirstSyn()
    ensures Describes(SynSend, [Sent(SYN)])
  {
    assert [] + [Sent(SYN)] == [Sent(SYN)];
    SentOne(Init, [], SYN);
  }

  lemma {:induction false} NoAckYet(h: seq<Event>)
    requires !SynSent(h)
    ensures !AckHeard(h)
    decreases |h|
  {
    if h != [] {
      NoAckYet(Before(h));
    }
  }

  /** The state after a frame whose flags are listened to. */
  predicate Turns(s: State, flags: u16, s': State) {
    if HasAck(flags) then s' == if s == SynSend then Established else s
    else if HasFin(flags) then (s == SynSend || s == Established) && s' == RemoteClose
    else s' == s
  }

  lemma {:induction false} GotOne(s: State, h: seq<Event>, typ: byte, flags: u16, s': State)
    requires Describes(s, h) && typ <= WINDOW_UPDATE
    requires if typ == WINDOW_UPDATE || s == Established then Turns(s, flags, s') else s' == s
    ensures Describes(s', h + [Got(typ, flags)])
  {
    OneMore(h, Got(typ, flags));
  }

  /** The flags of frames that were sent. */
  function Sents(fs: seq<Frame>): seq<Event> {
    if fs == [] then [] else [Sent(fs[0].hdr.flags)] + Sents(fs[1..])
  }

  lemma SentsOne(fs: seq<Frame>)
    requires |fs| <= 1
    ensures Sents(fs) == if fs == [] then [] else [Sent(fs[0].hdr.flags)]
  {
    if fs != [] {
      assert fs[1..] == [];
    }
  }

  lemma NothingSent(h: seq<Event>)
    ensures h + Sents([]) == h
  {
  }

  // ---------------------------------------------------------------- single moves

  lemma FlagsTurn(s: Stream, flags: u16)
    requires LiveState(s.state) && ProcessFlags(s, flags).Flagged? && !ProcessFlags(s, flags).remove
    ensures Turns(s.state, flags, ProcessFlags(s, flags).s.state)
  {
  }

  lemma WriteMoves(s: Stream, data: seq<byte>, h: seq<Event>)
    requires |data| < U32_RANGE && Write(s, data).Written? && Describes(s.state, h)
    ensures Describes(Write(s, data).s.state, h + Sents(Write(s, data).frames))
  {
    var w := Write(s, data);
    SentsOne(w.frames);
    if w.frames != [] {
      SentOne(s.state, h, w.frames[0].hdr.flags);
    } else {
      NothingSent(h);
    }
  }

  lemma UpdateMoves(s: Stream, used: u32, h: seq<Event>)
    requires Describes(s.state, h)
    ensures var (s', fs) := SendWindowUpdate(s, used); Describes(s'.state, h + Sents(fs))
  {
    var (s', fs) := SendWindowUpdate(s, used);
    SentsOne(fs);
    if fs != [] {
      SentOne(s.state, h, fs[0].hdr.flags);
    } else {
      NothingSent(h);
    }
  }

  lemma CloseMoves(s: Stream, h: seq<Event>)
    requires Describes(s.state, h) && !Close(s).remove
    ensures Describes(Close(s).s.state, h + Sents(Close(s).frames))
  {
    var c := Close(s);
    SentsOne(c.frames);
    if c.frames != [] {
      SentOne(s.state, h, c.frames[0].hdr.flags);
    } else {
      NothingSent(h);
    }
  }

  // ---------------------------------------------------------------- arriving frames

  /** The flags of the frame matter to the stream. */
  predicate ListensTo(s: Stream, f: Frame) {
    f.hdr.typ == WINDOW_UPDATE || (f.hdr.typ == DATA && s.state == Established)
  }

  /** The body of a frame changes no state once the flags are looked at. */
  lemma BodyState(base: Endpoint, s: Stream, length: u32, socks5: Socks5)
    requires s.id in base.streams && (s.state == Established || s.state == RemoteClose)
    requires ProcessBody(base, s, length, Quiet(socks5)).Live?
    ensures var ep := ProcessBody(base, s, length, Quiet(socks5)).ep;
      s.id in ep.streams && ep.streams[s.id].state == s.state
  {
    var c := Consume(base, s, length, Quiet(socks5));
    var s1 := s.(rx := s.rx[c.taken..]);
    var ep1 := Store(base, s1).(log := base.log + [Mux.Event(s.id, s.rx[..c.taken])]);
    assert (if c.message then Quiet(socks5).onMessage(ep1, s.id, s.rx[..c.taken]) else ep1) == ep1;
    var (s2, fs) := SendWindowUpdate(s1, c.used);
    assert ProcessBody(base, s, length, Quiet(socks5)) == Live(Emit(Store(ep1, s2), fs));
  }

  lemma DataState(base: Endpoint, s: Stream, hdr: Header, socks5: Socks5)
    requires s.id in base.streams && s.state == Established
    requires HandleData(base, s, hdr, Quiet(socks5)).Live?
    ensures var ep, r := HandleData(base, s, hdr, Quiet(socks5)).ep, ProcessFlags(s, hdr.flags);
      && r.Flagged? && (s.id in ep.streams <==> !r.remove)
      && (!r.remove ==> ep.streams[s.id].state == r.s.state)
  {
    var r := ProcessFlags(s, hdr.flags);
    if !r.remove && hdr.length <= r.s.recvWindow {
      BodyState(base, r.s.(recvWindow := r.s.recvWindow - hdr.length), hdr.length, socks5);
    }
  }

  /** What a frame does to its stream: the flags decide, if they matter. */
  lemma ArriveState(ep: Endpoint, f: Frame, socks5: Socks5)
    requires WellFramed(f) && GoodTable(ep) && f.hdr.typ <= WINDOW_UPDATE && f.hdr.id in ep.streams
    requires HandleFrame(ep, f, Dispatcher(Quiet(socks5))).Live?
    ensures var id := f.hdr.id;
      var s, ep' := ep.streams[id], HandleFrame(ep, f, Dispatcher(Quiet(socks5))).ep;
      if ListensTo(s, f) then
        var r := ProcessFlags(s, f.hdr.flags);
        && r.Flagged? && (id in ep'.streams <==> !r.remove)
        && (!r.remove ==> ep'.streams[id].state == r.s.state)
      else id in ep'.streams && ep'.streams[id].state == s.state
  {
    var s := ep.streams[f.hdr.id];
    if f.hdr.typ == DATA && s.state == Established {
      var s1 := s.(rx := s.rx + f.body);
      DataState(ep.(streams := ep.streams[f.hdr.id := s1]), s1, f.hdr, socks5);
    }
  }

  /** A stream leaves the table by a frame exactly when the frame resets it, or answers the FIN
      that the stream has sent with another. */
  lemma ArriveRemovesIff(ep: Endpoint, f: Frame, socks5: Socks5, h: seq<Event>)
    requires WellFramed(f) && GoodTable(ep) && f.hdr.typ <= WINDOW_UPDATE && f.hdr.id in ep.streams
    requires HandleFrame(ep, f, Dispatcher(Quiet(socks5))).Live? && Describes(ep.streams[f.hdr.id].state, h)
    ensures f.hdr.id !in HandleFrame(ep, f, Dispatcher(Quiet(socks5))).ep.streams <==>
      && (f.hdr.typ == WINDOW_UPDATE || Open(h)) && !HasAck(f.hdr.flags)
      && (if HasFin(f.hdr.flags) then FinSent(h) else HasRst(f.hdr.flags))
  {
    ArriveState(ep, f, socks5);
  }

  /** A WINDOW_UPDATE stops the program exactly when it says FIN to a stream that has sent
      nothing yet, or says it again. */
  lemma UpdateStopsIff(ep: Endpoint, f: Frame, socks5: Socks5, h: seq<Event>)
    requires WellFramed(f) && GoodTable(ep) && f.hdr.typ == WINDOW_UPDATE && f.hdr.id in ep.streams
    requires Describes(ep.streams[f.hdr.id].state, h)
    ensures HandleFrame(ep, f, Dispatcher(Quiet(socks5))) == Aborted <==>
      HasFin(f.hdr.flags) && !HasAck(f.hdr.flags) && ((!SynSent(h) && !FinSent(h)) || FinHeard(h))
  {
  }

  // ---------------------------------------------------------------- whole runs

  /** The frames of a stream that a step has sent. */
  function NewFrames(c: Ctl, c1: Ctl, id: u32): seq<Frame> {
    var a, b := OfStream(c.ep.out, id), OfStream(c1.ep.out, id);
    if |a| <= |b| then b[|a|..] else []
  }

  /** The frame of a stream that arrives in a step. */
  function Arrival(c: Ctl, op: Op, id: u32): seq<Event> {
    match op
    case Arrive(f, _) => ArrivalOf(f, id)
    case BeginMessage(f) => if ForHandler(c.ep, f) then ArrivalOf(f, id) else []
    case _ => []
  }

  function ArrivalOf(f: Frame, id: u32): seq<Event> {
    if WellFramed(f) && f.hdr.typ <= WINDOW_UPDATE && f.hdr.id == id then [Got(f.hdr.typ, f.hdr.flags)] else []
  }

  /** The history of a stream after a step. It begins when the stream does. */
  function Next(c: Ctl, op: Op, c1: Ctl, id: u32, h: seq<Event>): seq<Event> {
    if op.Clear? then []
    else if op.Connect? && id == c.nextId then Sents(NewFrames(c, c1, id))
    else h + Arrival(c, op, id) + Sents(NewFrames(c, c1, id))
  }

  function Trace(c: Ctl, ops: seq<Op>, id: u32, h: seq<Event>): seq<Event>
    decreases |ops|
  {
    if ops == [] then h
    else match Step(c, ops[0])
      case Stopped => h
      case Running(c1) => Trace(c1, ops[1..], id, Next(c, ops[0], c1, id, h))
  }

  predicate Tracked(c: Ctl, id: u32, h: seq<Event>) {
    id in c.ep.streams ==> Describes(c.ep.streams[id].state, h)
  }

  lemma FramesAre(c: Ctl, c1: Ctl, id: u32, fs: seq<Frame>)
    requires OfStream(c1.ep.out, id) == OfStream(c.ep.out, id) + fs
    ensures NewFrames(c, c1, id) == fs
  {
  }

  /** A step that leaves a stream alone. */
  lemma {:induction false} Aside(c: Ctl, op: Op, c1: Ctl, id: u32, h: seq<Event>)
    requires Tracked(c, id, h) && !op.Clear? && !(op.Connect? && id == c.nextId)
    requires Arrival(c, op, id) == [] && OfStream(c1.ep.out, id) == OfStream(c.ep.out, id)
    requires id in c1.ep.streams ==> id in c.ep.streams && c1.ep.streams[id].state == c.ep.streams[id].state
    ensures Tracked(c1, id, Next(c, op, c1, id, h))
  {
    FramesAre(c, c1, id, []);
    assert h + [] + Sents([]) == h;
  }

  lemma {:induction false} NextSends(c: Ctl, op: Op, c1: Ctl, id: u32, h: seq<Event>, fs: seq<Frame>)
    requires !op.Clear? && !op.Connect? && Arrival(c, op, id) == []
    requires OfStream(c1.ep.out, id) == OfStream(c.ep.out, id) + fs
    ensures Next(c, op, c1, id, h) == h + Sents(fs)
  {
    FramesAre(c, c1, id, fs);
    assert h + [] == h;
  }

  /** A step that makes a stream send `fs`, and nothing else happens to its state. */
  lemma {:induction false} Sending(c: Ctl, op: Op, c1: Ctl, id: u32, h: seq<Event>, fs: seq<Frame>, s': State)
    requires !op.Clear? && !op.Connect? && Arrival(c, op, id) == []
    requires OfStream(c1.ep.out, id) == OfStream(c.ep.out, id) + fs
    requires Describes(s', h + Sents(fs)) && (id in c1.ep.streams ==> c1.ep.streams[id].state == s')
    ensures Tracked(c1, id, Next(c, op, c1, id, h))
  {
    NextSends(c, op, c1, id, h, fs);
  }

  /** A step on stream i: it sends `fs`, at most one frame, and ends in state s' or is gone. */
  lemma {:induction false} LocalStep(c: Ctl, op: Op, c1: Ctl, i: u32, fs: seq<Frame>, tail: seq<Frame>, s': State,
                                     id: u32, h: seq<Event>)
    requires !op.Clear? && !op.Connect? && Arrival(c, op, id) == [] && Tracked(c, id, h)
    requires |fs| <= 1 && forall f <- fs :: f.hdr.typ <= WINDOW_UPDATE && f.hdr.id == i
    requires |tail| <= 1 && forall f <- tail :: f.hdr.typ > WINDOW_UPDATE
    requires c1.ep.out == c.ep.out + fs + tail
    requires id != i ==> Lookup(c1.ep, id) == Lookup(c.ep, id)
    requires id == i ==> Describes(s', h + Sents(fs)) && (i in c1.ep.streams ==> c1.ep.streams[i].state == s')
    ensures Tracked(c1, id, Next(c, op, c1, id, h))
  {
    EmitOfStream(c.ep.out, fs, tail, i, id);
    if id == i {
      Sending(c, op, c1, id, h, fs, s');
    } else {
      assert OfStream(c.ep.out, id) + [] == OfStream(c.ep.out, id);
      Aside(c, op, c1, id, h);
    }
  }

  lemma SendStep(c: Ctl, op: Op, id: u32, h: seq<Event>)
    requires Inv(c) && Tracked(c, id, h) && Step(c, op).Running?
    requires (op.SendData? || op.OfferWindow?) && op.id in c.ep.streams
    requires op.SendData? ==> |op.data| < U32_RANGE
    ensures Tracked(Step(c, op).c, id, Next(c, op, Step(c, op).c, id, h))
  {
    var s, c1 := c.ep.streams[op.id], Step(c, op).c;
    match op
    case SendData(i, data) =>
      WriteLawful(s, data);
      var w := Write(s, data);
      if id == i { WriteMoves(s, data, h); }
      assert c1.ep.out == c.ep.out + w.frames + [];
      LocalStep(c, op, c1, i, w.frames, [], w.s.state, id, h);
    case OfferWindow(i, used) =>
      UpdateLawful(s, used);
      var (s1, fs) := SendWindowUpdate(s, used);
      if id == i { UpdateMoves(s, used, h); }
      assert c1.ep.out == c.ep.out + fs + [];
      LocalStep(c, op, c1, i, fs, [], s1.state, id, h);
  }

  lemma EndStep(c: Ctl, i: u32, length: u32, id: u32, h: seq<Event>)
    requires Inv(c) && Tracked(c, id, h) && i in c.ep.streams
    ensures var op := EndMessage(i, length);
      Step(c, op).Running? && Tracked(Step(c, op).c, id, Next(c, op, Step(c, op).c, id, h))
  {
    var op := EndMessage(i, length);
    var s, c1 := c.ep.streams[i], Step(c, op).c;
    UpdateLawful(s, length);
    var (s1, fs) := SendWindowUpdate(s, length);
    if id == i { UpdateMoves(s, length, h); }
    LocalStep(c, op, c1, i, fs, Complaint(length), s1.state, id, h);
  }

  /** Closing a stream, with whatever becomes of its client. */
  lemma ClosingStep(c: Ctl, op: Op, id: u32, h: seq<Event>)
    requires Inv(c) && Tracked(c, id, h)
    requires (op.CloseStream? || op.LocalLost?) && op.id in c.ep.streams && (op.LocalLost? ==> op.id in c.ep.clients)
    ensures Step(c, op).Running? && Tracked(Step(c, op).c, id, Next(c, op, Step(c, op).c, id, h))
  {
    var i := op.id;
    var s, c1 := c.ep.streams[i], Step(c, op).c;
    CloseLawful(s);
    var r := Close(s);
    assert c1.ep.out == c.ep.out + r.frames + [];
    if r.remove {
      if id == i {
        assert id !in c1.ep.streams;
      } else {
        LocalStep(c, op, c1, i, r.frames, [], Init, id, h);
      }
    } else {
      if id == i { CloseMoves(s, h); }
      LocalStep(c, op, c1, i, r.frames, [], r.s.state, id, h);
    }
  }

  lemma ConnectState(c: Ctl, id: u32)
    ensures var s := Lookup(ConnectClient(c).ep, id);
      if id == c.nextId then s.Some? && s.value.state == SynSend else s == Lookup(c.ep, id)
  {
  }

  /** The history of a new stream begins with its SYN. */
  lemma Connected(c: Ctl, c1: Ctl, id: u32, f: Frame, h: seq<Event>)
    requires id == c.nextId && OfStream(c1.ep.out, id) == OfStream(c.ep.out, id) + [f] && f.hdr.flags == SYN
    requires id in c1.ep.streams ==> c1.ep.streams[id].state == SynSend
    ensures Tracked(c1, id, Next(c, Connect, c1, id, h))
  {
    FramesAre(c, c1, id, [f]);
    SentsOne([f]);
    FirstSyn();
  }

  lemma ConnectStep(c: Ctl, id: u32, h: seq<Event>)
    requires Inv(c) && Tracked(c, id, h)
    ensures Tracked(ConnectClient(c), id, Next(c, Connect, ConnectClient(c), id, h))
  {
    var c1, f := ConnectClient(c), WindowFrame(SYN, c.nextId, 0);
    ConnectAdds(c);
    ConnectState(c, id);
    OfStreamAppend(c.ep.out, [f], id);
    OfStreamOne(f, id);
    if id == c.nextId {
      Connected(c, c1, id, f, h);
    } else {
      assert OfStream(c.ep.out, id) + [] == OfStream(c.ep.out, id);
      Aside(c, Connect, c1, id, h);
    }
  }

  lemma MessageStep(c: Ctl, f: Frame, id: u32, h: seq<Event>)
    requires Inv(c) && Tracked(c, id, h) && ForHandler(c.ep, f)
    ensures var op := BeginMessage(f);
      Step(c, op).Running? && Tracked(Step(c, op).c, id, Next(c, op, Step(c, op).c, id, h))
  {
    var op := BeginMessage(f);
    var c1 := Step(c, op).c;
    if id == f.hdr.id {
      var s := c.ep.streams[id];
      FlagsTurn(s, f.hdr.flags);
      GotOne(s.state, h, DATA, f.hdr.flags, HandedOver(s, f).state);
      FramesAre(c, c1, id, []);
      assert h + [Got(DATA, f.hdr.flags)] + Sents([]) == h + [Got(DATA, f.hdr.flags)];
    } else {
      Aside(c, op, c1, id, h);
    }
  }

  /** What a frame that a stream sends in answer says about it. */
  lemma AnswerSent(before: Stream, after: Stream, fs: seq<Frame>, h: seq<Event>)
    requires Lawful(before, Some(after), fs) && Describes(after.state, h)
    requires before.state == Init ==> after.state == Init
    ensures Describes(after.state, h + Sents(fs))
  {
    SentsOne(fs);
    if fs == [] {
      NothingSent(h);
    } else {
      SentOne(after.state, h, fs[0].hdr.flags);
    }
  }

  lemma FrameStep(c: Ctl, f: Frame, handler: Socks5, id: u32, h: seq<Event>)
    requires Inv(c) && Tracked(c, id, h) && WellFramed(f) && Step(c, Arrive(f, handler)).Running?
    ensures var op := Arrive(f, handler); Tracked(Step(c, op).c, id, Next(c, op, Step(c, op).c, id, h))
  {
    var op := Arrive(f, handler);
    var c1 := Step(c, op).c;
    var fs := ArriveEffect(c.ep, f, handler);
    if f.hdr.typ > WINDOW_UPDATE {
      SessionStep(c, f, handler, id, h);
    } else if id != f.hdr.id {
      assert Lookup(c1.ep, id) == Lookup(c.ep, id);
      assert OfStream(c.ep.out, id) + [] == OfStream(c.ep.out, id);
      Aside(c, op, c1, id, h);
    } else if id in c1.ep.streams {
      var s, s1 := c.ep.streams[id], c1.ep.streams[id];
      ArriveState(c.ep, f, handler);
      if ListensTo(s, f) {
        FlagsTurn(s, f.hdr.flags);
      }
      GotOne(s.state, h, f.hdr.typ, f.hdr.flags, s1.state);
      AnswerSent(s, s1, fs, h + [Got(f.hdr.typ, f.hdr.flags)]);
      FramesAre(c, c1, id, fs);
    }
  }

  /** Pings and go-aways are nobody's frames. */
  lemma SessionStep(c: Ctl, f: Frame, handler: Socks5, id: u32, h: seq<Event>)
    requires Tracked(c, id, h) && WellFramed(f) && f.hdr.typ > WINDOW_UPDATE
    requires Step(c, Arrive(f, handler)).Running?
    ensures var op := Arrive(f, handler); Tracked(Step(c, op).c, id, Next(c, op, Step(c, op).c, id, h))
  {
    var op := Arrive(f, handler);
    var c1 := Step(c, op).c;
    var tail := if f.hdr.typ == PING && HasSyn(f.hdr.flags) then [PingAckFrame(f.hdr.length)] else [];
    assert c1.ep.streams == c.ep.streams;
    assert c.ep.out + [] == c.ep.out;
    assert c1.ep.out == c.ep.out + [] + tail;
    EmitOfStream(c.ep.out, [], tail, id, id);
    assert OfStream(c.ep.out, id) + [] == OfStream(c.ep.out, id);
    Aside(c, op, c1, id, h);
  }

  /** What happens to a client, or to the whole stream, changes no state. */
  lemma ClientStep(c: Ctl, op: Op, id: u32, h: seq<Event>)
    requires Tracked(c, id, h) && (op.StartTunnel? || op.LocalOpen? || op.Delete?)
    ensures Step(c, op).Running? && Tracked(Step(c, op).c, id, Next(c, op, Step(c, op).c, id, h))
  {
    Aside(c, op, Step(c, op).c, id, h);
  }

  /** Nothing happens to a stream that is not there. */
  lemma IdleStep(c: Ctl, op: Op, id: u32, h: seq<Event>)
    requires Tracked(c, id, h) && Step(c, op) == Running(c) && !op.Clear? && !op.Connect?
    requires Arrival(c, op, id) == []
    ensures Tracked(Step(c, op).c, id, Next(c, op, Step(c, op).c, id, h))
  {
    Aside(c, op, c, id, h);
  }

  lemma StepTracks(c: Ctl, op: Op, id: u32, h: seq<Event>)
    requires Inv(c) && Tracked(c, id, h) && Step(c, op).Running?
    ensures Tracked(Step(c, op).c, id, Next(c, op, Step(c, op).c, id, h))
  {
    match op
    case Connect => ConnectStep(c, id, h);
    case SendData(i, data) =>
      if i in c.ep.streams && |data| < U32_RANGE { SendStep(c, op, id, h); } else { IdleStep(c, op, id, h); }
    case OfferWindow(i, used) =>
      if i in c.ep.streams { SendStep(c, op, id, h); } else { IdleStep(c, op, id, h); }
    case CloseStream(i) =>
      if i in c.ep.streams { ClosingStep(c, op, id, h); } else { IdleStep(c, op, id, h); }
    case LocalLost(i) =>
      if i in c.ep.streams && i in c.ep.clients { ClosingStep(c, op, id, h); } else { IdleStep(c, op, id, h); }
    case Arrive(f, handler) =>
      if WellFramed(f) { FrameStep(c, f, handler, id, h); } else { IdleStep(c, op, id, h); }
    case BeginMessage(f) =>
      if ForHandler(c.ep, f) { MessageStep(c, f, id, h); } else { IdleStep(c, op, id, h); }
    case EndMessage(i, length) => EndStep(c, i, length, id, h);
    case Clear(reset) => ClearStep(c, reset, id, h);
    case _ => ClientStep(c, op, id, h);
  }

  lemma ClearStep(c: Ctl, reset: bool, id: u32, h: seq<Event>)
    ensures var op := Clear(reset);
      Step(c, op).Running? && Tracked(Step(c, op).c, id, Next(c, op, Step(c, op).c, id, h))
  {
  }

  lemma {:induction false} RunTracks(c: Ctl, ops: seq<Op>, id: u32, h: seq<Event>)
    requires Inv(c) && Tracked(c, id, h) && IdsLast(c.nextId, ops)
    ensures Exec(c, ops).Running? ==> Tracked(Exec(c, ops).c, id, Trace(c, ops, id, h))
    decreases |ops|
  {
    if ops != [] {
      match Step(c, ops[0])
      case Stopped =>
      case Running(c1) =>
        StepTracks(c, ops[0], id, h);
        StepKeeps(c, ops[0]);
        StepNextId(c, ops[0]);
        RunTracks(c1, ops[1..], id, Next(c, ops[0], c1, id, h));
    }
  }

  /** Over every run the state of every stream is told by the flags that it has sent and been
      sent since it began: it is established exactly when its SYN was answered and neither
      side has said FIN, closed locally exactly when it has said FIN and its peer has not, and
      closed remotely exactly the other way round. */
  lemma StateIsHistory(ops: seq<Op>, id: u32)
    requires IdsLast(3, ops)
    ensures var r := Exec(Initial(), ops);
      r.Running? && id in r.c.ep.streams ==> Describes(r.c.ep.streams[id].state, Trace(Initial(), ops, id, []))
  {
    InitialInv();
    RunTracks(Initial(), ops, id, []);
  }
}
