/** The control side of an endpoint: streams and clients are created, closed, reset and
    cleared on reconnect. Two invariants over every run: the two tables agree, and every
    stream sends its frames in a lawful order. */
module Control {
  import opened Options
  import opened Wire
  import opened RingBuffers
  import opened Streams
  import opened Mux

  /** `ctlId` is the control stream, `nextId` the session id handed out next. */
  datatype Ctl = Ctl(ep: Endpoint, ctlId: u32, nextId: u32)

  /** `StartTunnel` is the start of a client's proxy: SOCKS5, or a local connection that was
      reached or refused. `LocalOpen` and `LocalLost` are events of a local connection. Every
      arriving frame has its own answer of the SOCKS5 handler. `BeginMessage` and `EndMessage`
      are the two halves of a frame for the message handler, which acts between them. */
  datatype Op =
    | Connect
    | StartTunnel(id: u32, socks5: bool, reached: bool)
    | LocalOpen(id: u32)
    | LocalLost(id: u32)
    | SendData(id: u32, data: seq<byte>)
    | OfferWindow(id: u32, used: u32)
    | CloseStream(id: u32)
    | Delete(id: u32)
    | Arrive(f: Frame, handler: Socks5)
    | BeginMessage(f: Frame)
    | EndMessage(id: u32, length: u32)
    | Clear(reset: bool)

  datatype Result = Running(c: Ctl) | Stopped

  function FreshStream(ep: Endpoint, id: u32): Endpoint {
    ep.(streams := ep.streams[id := NewStream(id)])
  }

  function UpdateOn(ep: Endpoint, id: u32, used: u32): Endpoint
    requires id in ep.streams
  {
    var (s, fs) := SendWindowUpdate(ep.streams[id], used);
    Emit(ep.(streams := ep.streams[id := s]), fs)
  }

  function CloseOn(ep: Endpoint, id: u32): Endpoint
    requires id in ep.streams
  {
    var c := Close(ep.streams[id]);
    var ep1 := Emit(ep.(streams := ep.streams[id := c.s]), c.frames);
    if c.remove then DeleteStream(ep1, id) else ep1
  }

  /** A new work connection: the next session id, a stream, a client, and a first frame. */
  function ConnectClient(c: Ctl): Ctl {
    var id := c.nextId;
    var ep1 := FreshStream(c.ep, id);
    var ep2 := ep1.(clients := ep1.clients[id := Client(false, false)]);
    c.(ep := UpdateOn(ep2, id, 0), nextId := Wrap(c.nextId + 2))
  }

  /** A client whose local connection is refused goes. */
  function Tunnel(ep: Endpoint, id: u32, socks5: bool, reached: bool): Endpoint
    requires id in ep.clients
  {
    if socks5 then ep.(clients := ep.clients[id := ep.clients[id].(socks5 := true)])
    else if reached then ep.(clients := ep.clients[id := Client(true, false)])
    else DeleteStream(ep, id)
  }

  /** A lost local connection closes the stream. If that was the first close the client stays
      and waits for its peer, without the connection. */
  function LoseLocal(ep: Endpoint, id: u32): Endpoint
    requires id in ep.clients && id in ep.streams
  {
    var ep1 := CloseOn(ep, id);
    if Close(ep.streams[id]).ret == 0 || id !in ep1.clients then ep1
    else ep1.(clients := ep1.clients[id := ep1.clients[id].(hasLocal := false)])
  }

  /** The frame goes to the message handler as a whole. */
  predicate ForHandler(ep: Endpoint, f: Frame) {
    && WellFramed(f) && f.hdr.typ == DATA && f.hdr.id in ep.streams
    && (f.hdr.id in ep.clients ==> !ep.clients[f.hdr.id].hasLocal && !ep.clients[f.hdr.id].socks5)
    && var s := ep.streams[f.hdr.id];
    && s.id == f.hdr.id && s.state == Established && |s.rx| + |f.body| <= CAPACITY
    && f.hdr.length <= s.recvWindow
    && match ProcessFlags(s, f.hdr.flags) case BadFin => false case Flagged(_, remove) => !remove
  }

  /** The stream when the handler has the message. */
  function HandedOver(s: Stream, f: Frame): Stream
    requires WellFramed(f) && f.hdr.length <= s.recvWindow && ProcessFlags(s, f.hdr.flags).Flagged?
  {
    var s1 := ProcessFlags(s, f.hdr.flags).s;
    s1.(rx := (s.rx + f.body)[|f.body|..], recvWindow := s.recvWindow - f.hdr.length)
  }

  function HandOver(ep: Endpoint, f: Frame): Endpoint
    requires ForHandler(ep, f)
  {
    var s := ep.streams[f.hdr.id];
    ep.(streams := ep.streams[f.hdr.id := HandedOver(s, f)],
        log := ep.log + [Event(f.hdr.id, (s.rx + f.body)[..|f.body|])])
  }

  /** An empty message is taken for an error behind it. */
  function Complaint(length: u32): seq<Frame> {
    if length == 0 then [GoAwayFrame(PROTO_ERR)] else []
  }

  /** Everything is dropped and a new control stream is made on a new connection. */
  function ClearAll(c: Ctl, reset: bool): Ctl {
    var id: u32 := if reset then 1 else c.nextId;
    Ctl(Endpoint(map[id := NewStream(id)], map[], [], c.ep.log, c.ep.remoteGoAway), id, Wrap(id + 2))
  }

  function Step(c: Ctl, op: Op): Result {
    match op
    case Connect => Running(ConnectClient(c))
    case StartTunnel(id, socks5, reached) =>
      Running(if id in c.ep.clients then c.(ep := Tunnel(c.ep, id, socks5, reached)) else c)
    case LocalOpen(id) =>
      Running(if id in c.ep.clients && c.ep.clients[id].socks5 then c.(ep := Flush(c.ep, id)) else c)
    case LocalLost(id) =>
      Running(if id in c.ep.clients && id in c.ep.streams then c.(ep := LoseLocal(c.ep, id)) else c)
    case SendData(id, data) =>
      if id !in c.ep.streams || |data| >= U32_RANGE then Running(c)
      else (match Write(c.ep.streams[id], data)
            case Written(s, fs, _) =>
              Running(c.(ep := Emit(c.ep.(streams := c.ep.streams[id := s]), fs)))
            case _ => Stopped)
    case OfferWindow(id, used) =>
      Running(if id in c.ep.streams then c.(ep := UpdateOn(c.ep, id, used)) else c)
    case CloseStream(id) =>
      Running(if id in c.ep.streams then c.(ep := CloseOn(c.ep, id)) else c)
    case Delete(id) => Running(c.(ep := DeleteStream(c.ep, id)))
    case Arrive(f, handler) =>
      if !WellFramed(f) then Running(c)
      else (match HandleFrame(c.ep, f, Dispatcher(Quiet(handler)))
            case Aborted => Stopped
            case Live(ep) => Running(c.(ep := ep)))
    case BeginMessage(f) => Running(if ForHandler(c.ep, f) then c.(ep := HandOver(c.ep, f)) else c)
    case EndMessage(id, length) =>
      // The stream is used again, whether or not the handler has deleted it.
      if id !in c.ep.streams then Stopped
      else Running(c.(ep := Emit(UpdateOn(c.ep, id, length), Complaint(length))))
    case Clear(reset) => Running(ClearAll(c, reset))
  }

  function Initial(): Ctl {
    Ctl(Endpoint(map[1 := NewStream(1)], map[], [], [], false), 1, 3)
  }

  // ---------------------------------------------------------------- lawful order of frames

  function OfStream(fs: seq<Frame>, id: u32): seq<Frame> {
    if fs == [] then []
    else OfStream(fs[..|fs| - 1], id) +
         (if fs[|fs| - 1].hdr.typ <= WINDOW_UPDATE && fs[|fs| - 1].hdr.id == id
          then [fs[|fs| - 1]] else [])
  }

  /** SYN on the first frame and on no other; no DATA behind a FIN. */
  predicate WellOrdered(fs: seq<Frame>) {
    && (forall k :: 0 <= k < |fs| ==> (HasSyn(fs[k].hdr.flags) <==> k == 0))
    && (forall j, k :: 0 <= j < k < |fs| && HasFin(fs[j].hdr.flags) ==> fs[k].hdr.typ != DATA)
  }

  predicate SentFin(fs: seq<Frame>) {
    exists k :: 0 <= k < |fs| && HasFin(fs[k].hdr.flags)
  }

  function Lookup(ep: Endpoint, id: u32): Option<Stream> {
    if id in ep.streams then Some(ep.streams[id]) else None
  }

  predicate LiveState(s: State) {
    s != SynReceived && s != Closed && s != Reset
  }

  /** What a stream's state says about the frames it has sent so far. */
  predicate Orderly(s: Option<Stream>, fs: seq<Frame>) {
    && WellOrdered(fs)
    && (s.Some? ==>
          && LiveState(s.value.state)
          && (s.value.state == Init <==> fs == [])
          && (SentFin(fs) ==> s.value.state == LocalClose))
  }

  /** One lawful move of one stream, sending `fs`. */
  predicate Lawful(before: Stream, after: Option<Stream>, fs: seq<Frame>) {
    && |fs| <= 1
    && (fs != [] ==>
          && (HasSyn(fs[0].hdr.flags) <==> before.state == Init)
          && (fs[0].hdr.typ == DATA ==> before.state != LocalClose)
          && (HasFin(fs[0].hdr.flags) ==> after.None? || after.value.state == LocalClose))
    && (after.Some? ==>
          && LiveState(after.value.state)
          && Ord(before.state) <= Ord(after.value.state)
          && (before.state == Init ==> (after.value.state == Init <==> fs == []))
          && (before.state == LocalClose ==> after.value.state == LocalClose))
  }

  lemma LawfulKeepsOrder(before: Stream, after: Option<Stream>, old_: seq<Frame>, fs: seq<Frame>)
    requires Orderly(Some(before), old_) && Lawful(before, after, fs)
    ensures Orderly(after, old_ + fs)
  {
    if fs == [] {
      assert old_ + fs == old_;
    } else {
      var all := old_ + fs;
      assert all[|old_|] == fs[0];
      if SentFin(all) && !SentFin(old_) {
        assert HasFin(fs[0].hdr.flags);
      }
    }
  }

  lemma WriteLawful(s: Stream, data: seq<byte>)
    requires |data| < U32_RANGE && LiveState(s.state)
    ensures var w := Write(s, data); w.Written? ==>
      Lawful(s, Some(w.s), w.frames) && forall f <- w.frames :: f.hdr.typ == DATA && f.hdr.id == s.id
  {
  }

  lemma UpdateLawful(s: Stream, used: u32)
    requires LiveState(s.state)
    ensures var (s', fs) := SendWindowUpdate(s, used);
      Lawful(s, Some(s'), fs) && s'.id == s.id &&
      forall f <- fs :: f.hdr.typ == WINDOW_UPDATE && f.hdr.id == s.id
  {
  }

  lemma CloseLawful(s: Stream)
    requires LiveState(s.state)
    ensures var c := Close(s);
      && Lawful(s, if c.remove then None else Some(c.s), c.frames)
      && c.s.id == s.id && |c.frames| <= 1
      && forall f <- c.frames :: f.hdr.typ == WINDOW_UPDATE && f.hdr.id == s.id
  {
  }

  /** Flags of an arriving frame: lawful, or the stream goes. */
  lemma FlagsLawful(s: Stream, flags: u16)
    requires LiveState(s.state) && ProcessFlags(s, flags) != BadFin
    ensures var r := ProcessFlags(s, flags);
      && Lawful(s, if r.remove then None else Some(r.s), [])
      && r.s.(state := s.state) == s
      && (r.remove <==> r.s.state == Closed || r.s.state == Reset)
  {
  }

  // ---------------------------------------------------------------- effect on the tables

  /** An operation on stream `id` that makes it send `fs`: every other stream is left
      alone, and a removed stream takes its client with it. */
  ghost predicate Effect(ep: Endpoint, ep': Endpoint, id: u32, fs: seq<Frame>) {
    && (forall i: u32 :: OfStream(ep'.out, i) == OfStream(ep.out, i) + if i == id then fs else [])
    && (forall i: u32 :: i != id ==> Lookup(ep', i) == Lookup(ep, i))
    && (id in ep.streams ==> Lawful(ep.streams[id], Lookup(ep', id), fs))
    && (id !in ep.streams ==> id !in ep'.streams && fs == [])
    && (id in ep'.streams ==> ep'.streams[id].id == id)
    && ep'.clients == if id in ep'.streams || id !in ep.streams then ep.clients else ep.clients - {id}
  }

  lemma {:induction false} OfStreamAppend(out: seq<Frame>, fs: seq<Frame>, i: u32)
    ensures OfStream(out + fs, i) == OfStream(out, i) + OfStream(fs, i)
    decreases |fs|
  {
    if fs == [] {
      assert out + fs == out;
    } else {
      var last := |fs| - 1;
      OfStreamAppend(out, fs[..last], i);
      assert (out + fs)[..|out + fs| - 1] == out + fs[..last];
      assert (out + fs)[|out + fs| - 1] == fs[last];
    }
  }

  lemma OfStreamOne(f: Frame, i: u32)
    ensures OfStream([f], i) == if f.hdr.typ <= WINDOW_UPDATE && f.hdr.id == i then [f] else []
  {
    assert [f][..0] == [];
  }

  /** Emitting frames of stream `id`, at most one, and session frames behind them. */
  lemma EmitOfStream(out: seq<Frame>, fs: seq<Frame>, tail: seq<Frame>, id: u32, i: u32)
    requires |fs| <= 1 && forall f <- fs :: f.hdr.typ <= WINDOW_UPDATE && f.hdr.id == id
    requires |tail| <= 1 && forall f <- tail :: f.hdr.typ > WINDOW_UPDATE
    ensures OfStream(out + fs + tail, i) == OfStream(out, i) + if i == id then fs else []
  {
    OfStreamAppend(out + fs, tail, i);
    OfStreamAppend(out, fs, i);
    OfStreamShort(fs, id, i);
    NoneOfStream(tail, i);
    var sent := OfStream(out, i) + OfStream(fs, i);
    assert sent + [] == sent;
  }

  lemma OfStreamShort(fs: seq<Frame>, id: u32, i: u32)
    requires |fs| <= 1 && forall f <- fs :: f.hdr.typ <= WINDOW_UPDATE && f.hdr.id == id
    ensures OfStream(fs, i) == if i == id then fs else []
  {
    if fs != [] {
      OfStreamOne(fs[0], i);
      assert fs == [fs[0]] && fs[0] in fs;
    }
  }

  lemma NoneOfStream(tail: seq<Frame>, i: u32)
    requires |tail| <= 1 && forall f <- tail :: f.hdr.typ > WINDOW_UPDATE
    ensures OfStream(tail, i) == []
  {
    if tail != [] {
      OfStreamOne(tail[0], i);
      assert tail == [tail[0]] && tail[0] in tail;
    }
  }

  /** Storing a stream and emitting its frames. */
  lemma StoreEffect(ep: Endpoint, s: Stream, fs: seq<Frame>, tail: seq<Frame>, ep': Endpoint)
    requires s.id in ep.streams && Lawful(ep.streams[s.id], Some(s), fs)
    requires forall f <- fs :: f.hdr.typ <= WINDOW_UPDATE && f.hdr.id == s.id
    requires |tail| <= 1 && forall f <- tail :: f.hdr.typ > WINDOW_UPDATE
    requires ep'.streams == ep.streams[s.id := s] && ep'.clients == ep.clients
    requires ep'.out == ep.out + fs + tail
    ensures Effect(ep, ep', s.id, fs)
  {
    forall i: u32 ensures OfStream(ep'.out, i) == OfStream(ep.out, i) + if i == s.id then fs else [] {
      EmitOfStream(ep.out, fs, tail, s.id, i);
    }
  }

  /** Removing a stream, after a last frame perhaps. */
  lemma RemoveEffect(ep: Endpoint, id: u32, fs: seq<Frame>, tail: seq<Frame>, ep': Endpoint)
    requires id in ep.streams ==> Lawful(ep.streams[id], None, fs)
    requires id !in ep.streams ==> fs == [] && id !in ep.clients
    requires |fs| <= 1 && forall f <- fs :: f.hdr.typ <= WINDOW_UPDATE && f.hdr.id == id
    requires |tail| <= 1 && forall f <- tail :: f.hdr.typ > WINDOW_UPDATE
    requires ep'.streams == ep.streams - {id} && ep'.clients == ep.clients - {id}
    requires ep'.out == ep.out + fs + tail
    ensures Effect(ep, ep', id, fs)
  {
    forall i: u32 ensures OfStream(ep'.out, i) == OfStream(ep.out, i) + if i == id then fs else [] {
      EmitOfStream(ep.out, fs, tail, id, i);
    }
  }

  lemma NoEffect(ep: Endpoint, tail: seq<Frame>, ep': Endpoint, id: u32)
    requires |tail| <= 1 && forall f <- tail :: f.hdr.typ > WINDOW_UPDATE
    requires ep'.streams == ep.streams && ep'.clients == ep.clients && ep'.out == ep.out + tail
    requires id in ep.streams ==> ep.streams[id].id == id && LiveState(ep.streams[id].state)
    ensures Effect(ep, ep', id, [])
  {
    forall i: u32 ensures OfStream(ep'.out, i) == OfStream(ep.out, i) + if i == id then [] else [] {
      EmitOfStream(ep.out, [], tail, id, i);
      assert ep.out + [] == ep.out;
    }
  }

  // ---------------------------------------------------------------- arriving frames

  ghost predicate GoodTable(ep: Endpoint) {
    forall i <- ep.streams :: ep.streams[i].id == i && LiveState(ep.streams[i].state)
  }

  /** Lawful moves of an established stream with no frame sent compose with a move that
      sends a window update. */
  lemma EstablishedLawful(s: Stream, s1: Stream, used: u32)
    requires s.state == Established && s1.id == s.id
    requires s1.state == Established || s1.state == RemoteClose
    ensures var (s2, fs) := SendWindowUpdate(s1, used);
      Lawful(s, Some(s2), fs) && s2.id == s.id &&
      forall f <- fs :: f.hdr.typ == WINDOW_UPDATE && f.hdr.id == s.id
  {
  }

  /** The body of a DATA frame: `base` is the endpoint `ep` with the payload already in
      the ring, `s1` the stream after its flags were applied. */
  lemma BodyEffect(ep: Endpoint, base: Endpoint, s1: Stream, length: u32,
                   socks5: Socks5, tail: seq<Frame>)
    returns (fs: seq<Frame>)
    requires s1.id in ep.streams && ep.streams[s1.id].id == s1.id
    requires ep.streams[s1.id].state == Established
    requires s1.state == Established || s1.state == RemoteClose
    requires forall s: Stream | s.id == s1.id :: base.streams[s1.id := s] == ep.streams[s1.id := s]
    requires base.clients == ep.clients && base.out == ep.out
    requires |tail| <= 1 && forall f <- tail :: f.hdr.typ > WINDOW_UPDATE
    requires ProcessBody(base, s1, length, Quiet(socks5)).Live?
    ensures Effect(ep, Emit(ProcessBody(base, s1, length, Quiet(socks5)).ep, tail), s1.id, fs)
  {
    var h := Quiet(socks5);
    var used := Consume(base, s1, length, h);
    var s2 := s1.(rx := s1.rx[used.taken..]);
    var ep1 := Store(base, s2).(log := base.log + [Event(s1.id, s1.rx[..used.taken])]);
    assert (if used.message then h.onMessage(ep1, s1.id, s1.rx[..used.taken]) else ep1) == ep1;
    var (s3, sent) := SendWindowUpdate(s2, used.used);
    fs := sent;
    var ep2 := Emit(Store(ep1, s3), fs);
    assert ProcessBody(base, s1, length, h) == Live(ep2);
    assert ep2.streams == base.streams[s1.id := s3];
    EstablishedLawful(ep.streams[s1.id], s2, used.used);
    StoreEffect(ep, s3, fs, tail, Emit(ep2, tail));
  }

  lemma DataEffect(ep: Endpoint, f: Frame, socks5: Socks5)
    returns (fs: seq<Frame>)
    requires WellFramed(f) && f.hdr.typ == DATA && f.hdr.id in ep.streams && GoodTable(ep)
    requires |ep.streams[f.hdr.id].rx| + |f.body| <= CAPACITY
    requires var s := ep.streams[f.hdr.id].(rx := ep.streams[f.hdr.id].rx + f.body);
      HandleData(ep.(streams := ep.streams[f.hdr.id := s]), s, f.hdr, Quiet(socks5)).Live?
    ensures var s := ep.streams[f.hdr.id].(rx := ep.streams[f.hdr.id].rx + f.body);
      Effect(ep, HandleData(ep.(streams := ep.streams[f.hdr.id := s]), s, f.hdr, Quiet(socks5)).ep,
             f.hdr.id, fs)
  {
    var id, h := f.hdr.id, Quiet(socks5);
    var s := ep.streams[id].(rx := ep.streams[id].rx + f.body);
    var base := ep.(streams := ep.streams[id := s]);
    if s.state != Established {
      fs := [];
      StoreEffect(ep, s, [], [], HandleData(base, s, f.hdr, h).ep);
    } else {
      fs := EstablishedEffect(ep, base, s, f.hdr, socks5);
    }
  }

  /** The stream `s` is the one of `ep` with a payload in its ring, `base` the endpoint with it. */
  ghost predicate PayloadIn(ep: Endpoint, base: Endpoint, s: Stream, id: u32) {
    && id in ep.streams && GoodTable(ep) && s == ep.streams[id].(rx := s.rx)
    && base == ep.(streams := ep.streams[id := s]) && s.state == Established
  }

  lemma EstablishedEffect(ep: Endpoint, base: Endpoint, s: Stream, hdr: Header, socks5: Socks5)
    returns (fs: seq<Frame>)
    requires PayloadIn(ep, base, s, hdr.id) && HandleData(base, s, hdr, Quiet(socks5)).Live?
    ensures Effect(ep, HandleData(base, s, hdr, Quiet(socks5)).ep, hdr.id, fs)
  {
    var flagged := ProcessFlags(s, hdr.flags);
    if flagged.remove || hdr.length > flagged.s.recvWindow {
      fs := [];
      RefusedEffect(ep, base, s, hdr, Quiet(socks5));
    } else {
      fs := AcceptedEffect(ep, base, s, hdr, socks5);
    }
  }

  lemma RefusedEffect(ep: Endpoint, base: Endpoint, s: Stream, hdr: Header, h: Hooks)
    requires PayloadIn(ep, base, s, hdr.id) && ProcessFlags(s, hdr.flags).Flagged?
    requires ProcessFlags(s, hdr.flags).remove || hdr.length > ProcessFlags(s, hdr.flags).s.recvWindow
    ensures HandleData(base, s, hdr, h).Live? && Effect(ep, HandleData(base, s, hdr, h).ep, hdr.id, [])
  {
    var id, ep' := hdr.id, HandleData(base, s, hdr, h).ep;
    FlagsLawful(s, hdr.flags);
    var Flagged(s1, remove) := ProcessFlags(s, hdr.flags);
    if remove {
      assert base.streams - {id} == ep.streams - {id};
      RemoveEffect(ep, id, [], Complaint(hdr.length), ep');
    } else {
      assert base.streams[id := s1] == ep.streams[id := s1];
      StoreEffect(ep, s1, [], [GoAwayFrame(PROTO_ERR)], ep');
    }
  }

  lemma AcceptedEffect(ep: Endpoint, base: Endpoint, s: Stream, hdr: Header, socks5: Socks5)
    returns (fs: seq<Frame>)
    requires PayloadIn(ep, base, s, hdr.id) && HandleData(base, s, hdr, Quiet(socks5)).Live?
    requires !ProcessFlags(s, hdr.flags).remove && hdr.length <= ProcessFlags(s, hdr.flags).s.recvWindow
    ensures Effect(ep, HandleData(base, s, hdr, Quiet(socks5)).ep, hdr.id, fs)
  {
    FlagsLawful(s, hdr.flags);
    var s1 := ProcessFlags(s, hdr.flags).s;
    var s2 := s1.(recvWindow := s1.recvWindow - hdr.length);
    fs := BodyEffect(ep, base, s2, hdr.length, socks5, Complaint(hdr.length));
    EmitComplaint(ProcessBody(base, s2, hdr.length, Quiet(socks5)).ep, hdr.length);
  }

  lemma EmitComplaint(ep: Endpoint, length: u32)
    ensures Emit(ep, Complaint(length)) == if length == 0 then Emit(ep, [GoAwayFrame(PROTO_ERR)]) else ep
  {
    assert ep.out + [] == ep.out;
  }

  lemma WindowEffect(ep: Endpoint, s: Stream, hdr: Header)
    requires hdr.id in ep.streams && ep.streams[hdr.id] == s && GoodTable(ep)
    requires HandleWindowUpdate(ep, s, hdr).Live?
    ensures Effect(ep, HandleWindowUpdate(ep, s, hdr).ep, hdr.id, [])
  {
    FlagsLawful(s, hdr.flags);
    var Flagged(s1, remove) := ProcessFlags(s, hdr.flags);
    var ep' := HandleWindowUpdate(ep, s, hdr).ep;
    assert ep.out + [] + [] == ep.out;
    if remove {
      RemoveEffect(ep, hdr.id, [], [], ep');
    } else {
      StoreEffect(ep, s1.(sendWindow := Wrap(s1.sendWindow + hdr.length)), [], [], ep');
    }
  }

  lemma ArriveEffect(ep: Endpoint, f: Frame, socks5: Socks5)
    returns (fs: seq<Frame>)
    requires WellFramed(f) && GoodTable(ep)
    requires HandleFrame(ep, f, Dispatcher(Quiet(socks5))).Live?
    ensures Effect(ep, HandleFrame(ep, f, Dispatcher(Quiet(socks5))).ep, f.hdr.id, fs)
  {
    var r := HandleFrame(ep, f, Dispatcher(Quiet(socks5)));
    fs := [];
    assert ep.out + [] == ep.out;
    if f.hdr.typ == PING {
      NoEffect(ep, if HasSyn(f.hdr.flags) then [PingAckFrame(f.hdr.length)] else [], r.ep, f.hdr.id);
    } else if f.hdr.typ == GO_AWAY || f.hdr.id !in ep.streams {
      NoEffect(ep, [], r.ep, f.hdr.id);
    } else if f.hdr.typ == WINDOW_UPDATE {
      WindowEffect(ep, ep.streams[f.hdr.id], f.hdr);
    } else {
      fs := DataEffect(ep, f, socks5);
    }
  }
}
