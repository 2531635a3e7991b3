/** What the flow-control invariant means for whole runs of two endpoints, down to the bytes
    on the wire. */
module Delivery {
  import opened Arith
  import opened Seqs
  import opened Wire
  import opened RingBuffers
  import opened Streams
  import opened Mux
  import opened Demux
  import opened FlowControl

  // ---------------------------------------------------------------- whole runs

  /** The environment respects the write conditions all along the run. */
  predicate CanRun(sys: System, acts: seq<Action>)
    decreases |acts|
  {
    acts != [] ==>
      && Enabled(sys, acts[0])
      && (Step(sys, acts[0]).Ok? ==> CanRun(Step(sys, acts[0]).sys, acts[1..]))
  }

  function Exec(sys: System, acts: seq<Action>): Stepped
    requires CanRun(sys, acts)
    decreases |acts|
  {
    if acts == [] then Ok(sys)
    else match Step(sys, acts[0])
      case Crashed => Crashed
      case Ok(sys1) => Exec(sys1, acts[1..])
  }

  /** Every write and every delivery finds room in the ring it needs, all along the run. */
  predicate RoomAlong(sys: System, acts: seq<Action>)
    requires CanRun(sys, acts)
    decreases |acts|
  {
    acts != [] ==>
      && FindsRoom(sys, acts[0])
      && (Step(sys, acts[0]).Ok? ==> RoomAlong(Step(sys, acts[0]).sys, acts[1..]))
  }

  lemma {:induction false} RunKeeps(sys: System, ids: set<u32>, acts: seq<Action>)
    requires Inv(sys, ids) && CanRun(sys, acts)
    ensures Exec(sys, acts).Ok? <==> RoomAlong(sys, acts)
    ensures Exec(sys, acts).Ok? ==> Inv(Exec(sys, acts).sys, ids)
    decreases |acts|
  {
    if acts != [] {
      StepKeeps(sys, ids, acts[0]);
      if Step(sys, acts[0]).Ok? {
        RunKeeps(Step(sys, acts[0]).sys, ids, acts[1..]);
      }
    }
  }

  predicate NoSocks5(x: Endpoint) {
    forall i <- x.clients :: !x.clients[i].socks5
  }

  /** The frames on the link fit a ring. */
  predicate ShortLink(x: Endpoint) {
    forall f <- x.out :: |f.body| <= CAPACITY
  }

  /** A write that sends no more than a ring holds and leaves no more over. */
  predicate ShortWrite(x: Endpoint, id: u32, data: seq<byte>)
    requires id in x.streams
  {
    var s := x.streams[id];
    Min(s.sendWindow, |s.tx| + |data|) <= CAPACITY && Leftover(s, |data|) <= CAPACITY
  }

  predicate ShortAct(sys: System, act: Action)
    requires Enabled(sys, act)
  {
    match act
    case WriteA(id, data) => ShortWrite(sys.a, id, data)
    case WriteB(id, data) => ShortWrite(sys.b, id, data)
    case _ => true
  }

  /** Every write is short, all along the run. */
  predicate ShortAlong(sys: System, acts: seq<Action>)
    requires CanRun(sys, acts)
    decreases |acts|
  {
    acts != [] ==>
      && ShortAct(sys, acts[0])
      && (Step(sys, acts[0]).Ok? ==> ShortAlong(Step(sys, acts[0]).sys, acts[1..]))
  }

  lemma WriteShort(x: Endpoint, ids: set<u32>, id: u32, data: seq<byte>)
    requires GoodEndpoint(x, ids) && MayWrite(x, id, data) && ShortWrite(x, id, data) && ShortLink(x)
    ensures var w := Write(x.streams[id], data); w.Written? && ShortLink(AfterWrite(x, id, w.s, w.frames))
  {
    WriteFrames(x, ids, id, data);
    var w := Write(x.streams[id], data);
    if w.frames != [] {
      assert w.frames == [w.frames[0]];
      PayloadOne(w.frames[0]);
    }
  }

  lemma DeliverShort(x: Endpoint, y: Endpoint, ids: set<u32>, sentX: map<u32, seq<byte>>,
                     sentY: map<u32, seq<byte>>, socks5: Socks5)
    requires Linked(x, y, sentX, sentY, ids) && x.out != [] && HasRoom(y, x.out[0]) && ShortLink(y)
    ensures WellFramed(x.out[0])
    ensures var o := HandleFrame(y, x.out[0], Dispatcher(Quiet(socks5))); o.Live? && ShortLink(o.ep)
  {
    NextAcceptable(x, y, ids, sentX, sentY);
    AfterShort(y, x.out[0], socks5);
  }

  /** Replies carry no payload. */
  lemma AfterShort(y: Endpoint, f: Frame, socks5: Socks5)
    requires Acceptable(y, f) && ShortLink(y)
    ensures var o := HandleFrame(y, f, Dispatcher(Quiet(socks5))); o.Live? && ShortLink(o.ep)
  {
    HandleAcceptable(y, f, socks5);
    if f.hdr.typ == DATA {
      var g := Granted(Received(y.streams[f.hdr.id], f), Use(y, f, socks5).used);
      assert After(y, f, socks5).out == y.out + Replies(f, g);
      assert forall r <- Replies(f, g) :: r.body == [];
    }
  }

  /** Without SOCKS5 clients an empty ring takes every short frame. */
  lemma ShortFits(x: Endpoint, y: Endpoint, ids: set<u32>)
    requires GoodEndpoint(x, ids) && GoodEndpoint(y, ids) && NoSocks5(y) && x.out != [] && ShortLink(x)
    ensures HasRoom(y, x.out[0])
  {
    var f := x.out[0];
    assert f in x.out;
    if f.hdr.typ == DATA && f.hdr.id in y.streams {
      assert GoodStream(y, f.hdr.id);
    }
  }

  /** One step of the first endpoint, or a delivery to the second, between short links. */
  lemma ShortForth(sys: System, ids: set<u32>, act: Action)
    requires Inv(sys, ids) && Enabled(sys, act) && ShortAct(sys, act) && ShortLink(sys.a) && ShortLink(sys.b)
    requires NoSocks5(sys.a) && NoSocks5(sys.b) && (act.WriteA? || act.DeliverToB? || act.FlushA?)
    ensures var r := Step(sys, act); r.Ok? && ShortLink(r.sys.a) && ShortLink(r.sys.b)
  {
    match act
    case WriteA(id, data) => WriteShort(sys.a, ids, id, data);
    case DeliverToB(socks5) =>
      ShortFits(sys.a, sys.b, ids);
      DeliverShort(sys.a, sys.b, ids, sys.sentA, sys.sentB, socks5);
    case FlushA(id) =>
  }

  lemma ShortStep(sys: System, ids: set<u32>, act: Action)
    requires Inv(sys, ids) && Enabled(sys, act) && ShortAct(sys, act) && ShortLink(sys.a) && ShortLink(sys.b)
    requires NoSocks5(sys.a) && NoSocks5(sys.b)
    ensures var r := Step(sys, act); r.Ok? && ShortLink(r.sys.a) && ShortLink(r.sys.b)
  {
    if act.WriteA? || act.DeliverToB? || act.FlushA? {
      ShortForth(sys, ids, act);
    } else {
      LinkedSymmetric(sys.a, sys.b, sys.sentA, sys.sentB, ids);
      ShortForth(Swap(sys), ids, SwapAct(act));
      SwapStep(sys, act);
    }
  }

  /** Without SOCKS5 clients there always is room for short writes: the message handler and
      local connections empty the ring at every frame. */
  lemma {:induction false} AlwaysRoom(sys: System, ids: set<u32>, acts: seq<Action>)
    requires Inv(sys, ids) && CanRun(sys, acts) && ShortLink(sys.a) && ShortLink(sys.b)
    requires NoSocks5(sys.a) && NoSocks5(sys.b) && ShortAlong(sys, acts)
    ensures RoomAlong(sys, acts)
    decreases |acts|
  {
    if acts != [] {
      StepKeeps(sys, ids, acts[0]);
      ShortStep(sys, ids, acts[0]);
      AlwaysRoom(Step(sys, acts[0]).sys, ids, acts[1..]);
    }
  }

  /** Credit conservation over every run from freshly established streams, whatever is written
      without mis-splitting and however much the SOCKS5 handlers take. An endpoint stops at an
      assertion exactly when a write or a frame finds no room in a ring, so never with short
      writes and without SOCKS5 clients. Otherwise the sender's window plus the data and the
      credit in flight is the receiver's window, so no window exceeds 256 KiB and the next DATA
      frame is always covered by the receiver's window. When nothing is in flight the sender
      has credit to send, so no stream starves. */
  lemma CreditConservation(sys: System, ids: set<u32>, acts: seq<Action>, id: u32)
    requires Start(sys, ids) && CanRun(sys, acts) && id in ids
    ensures Exec(sys, acts).Ok? <==> RoomAlong(sys, acts)
    ensures NoSocks5(sys.a) && NoSocks5(sys.b) && ShortAlong(sys, acts) ==> Exec(sys, acts).Ok?
    ensures Exec(sys, acts).Ok? ==>
      var t := Exec(sys, acts).sys;
      && id in t.a.streams && id in t.b.streams
      && Conserved(t.a.streams[id], t.a.out, t.b.streams[id], t.b.out, id)
      && Conserved(t.b.streams[id], t.b.out, t.a.streams[id], t.a.out, id)
  {
    StartInv(sys, ids);
    RunKeeps(sys, ids, acts);
    if NoSocks5(sys.a) && NoSocks5(sys.b) && ShortAlong(sys, acts) {
      AlwaysRoom(sys, ids, acts);
    }
    if Exec(sys, acts).Ok? {
      var t := Exec(sys, acts).sys;
      assert Way(t.a, t.b, t.sentA, t.sentB, id);
      FlowConserves(t.a.streams[id], t.a.out, t.b.streams[id], t.b.out, t.b.log, t.sentA[id], id);
      FlowConserves(t.b.streams[id], t.b.out, t.a.streams[id], t.a.out, t.a.log, t.sentB[id], id);
    }
  }

  ghost predicate Conserved(s: Stream, out: seq<Frame>, r: Stream, back: seq<Frame>, id: u32) {
    && s.sendWindow + |DataInFlight(out, id)| + CreditInFlight(back, id) == r.recvWindow
    && s.sendWindow <= MAX_WINDOW
    && (out != [] && out[0].hdr.typ == DATA && out[0].hdr.id == id ==> |out[0].body| <= r.recvWindow)
    && (out == back == [] ==> s.sendWindow > MAX_WINDOW / 2 - CAPACITY)
  }

  lemma FlowConserves(s: Stream, out: seq<Frame>, r: Stream, back: seq<Frame>, log: seq<Event>,
                      accepted: seq<byte>, id: u32)
    requires Flow(s, out, r, back, log, accepted, id)
    ensures Conserved(s, out, r, back, id)
  {
    if out != [] && out[0].hdr.typ == DATA && out[0].hdr.id == id {
      assert DataInFlight(out, id) == out[0].body + DataInFlight(out[1..], id);
    }
  }

  /** The data written for a stream is what it was handed, what waits in its receive ring,
      what is on the link and what waits in the sender's ring, in this order. Only a SOCKS5
      client lets anything wait in its receive ring. */
  ghost predicate InOrder(x: Endpoint, y: Endpoint, sent: map<u32, seq<byte>>, id: u32) {
    && id in x.streams && id in y.streams && id in sent
    && Delivered(y.log, id) + y.streams[id].rx + DataInFlight(x.out, id) + x.streams[id].tx == sent[id]
    && (Socks5Client(y, id) || y.streams[id].rx == [])
  }

  lemma LinkedInOrder(x: Endpoint, y: Endpoint, sentX: map<u32, seq<byte>>, sentY: map<u32, seq<byte>>,
                      ids: set<u32>, id: u32)
    requires Linked(x, y, sentX, sentY, ids) && id in ids
    ensures InOrder(x, y, sentX, id)
  {
    assert Way(x, y, sentX, sentY, id);
    assert GoodStream(y, id);
  }

  lemma DeliveryInOrder(sys: System, ids: set<u32>, acts: seq<Action>, id: u32)
    requires Start(sys, ids) && CanRun(sys, acts) && id in ids && Exec(sys, acts).Ok?
    ensures var t := Exec(sys, acts).sys;
      InOrder(t.a, t.b, t.sentA, id) && InOrder(t.b, t.a, t.sentB, id)
  {
    StartInv(sys, ids);
    RunKeeps(sys, ids, acts);
    var t := Exec(sys, acts).sys;
    LinkedSymmetric(t.a, t.b, t.sentA, t.sentB, ids);
    LinkedInOrder(t.a, t.b, t.sentA, t.sentB, ids, id);
    LinkedInOrder(t.b, t.a, t.sentB, t.sentA, ids, id);
  }

  /** The room is needed: a SOCKS5 handler that waits for its connection takes nothing, and
      a byte behind a ringful stops the program although the window allows it. */
  lemma RingOverflows(sys: System, ids: set<u32>, id: u32, data: seq<byte>)
    requires Start(sys, ids) && id in ids && Socks5Client(sys.b, id) && |data| == CAPACITY
    ensures var acts := [WriteA(id, data), DeliverToB(WAIT), WriteA(id, [0]), DeliverToB(WAIT)];
      CanRun(sys, acts) && Exec(sys, acts) == Crashed
  {
    var t1 := SendAtOnce(sys, sys.a.streams[id], data);
    var t2 := HeldBack(t1, id, data);
    var t3 := SendAtOnce(t2, t2.a.streams[id], [0]);
    var last := DeliverToB(WAIT);
    assert Step(t3, last) == Crashed;
    FourSteps(sys, WriteA(id, data), t1, last, t2, WriteA(id, [0]), t3, last);
  }

  /** Short writes are needed too: a frame longer than a ring stops the program although the
      window allows it, whoever it is for. */
  lemma LongFrameStops(sys: System, ids: set<u32>, id: u32, data: seq<byte>)
    requires Start(sys, ids) && id in ids && CAPACITY < |data| < MAX_WINDOW
    ensures var acts := [WriteA(id, data), DeliverToB(WAIT)];
      CanRun(sys, acts) && Exec(sys, acts) == Crashed
  {
    var t1 := SendAtOnce(sys, sys.a.streams[id], data);
    var first, last := WriteA(id, data), DeliverToB(WAIT);
    assert Step(t1, last) == Crashed;
    assert CanRun(t1, [last]) && Exec(t1, [last]) == Crashed;
    assert [first, last][1..] == [last];
  }

  const WAIT: Socks5 := (_, _, _) => (0, 0)

  lemma FourSteps(sys: System, a1: Action, t1: System, a2: Action, t2: System, a3: Action, t3: System,
                  a4: Action)
    requires Enabled(sys, a1) && Step(sys, a1) == Ok(t1)
    requires Enabled(t1, a2) && Step(t1, a2) == Ok(t2)
    requires Enabled(t2, a3) && Step(t2, a3) == Ok(t3)
    requires Enabled(t3, a4) && Step(t3, a4) == Crashed
    ensures CanRun(sys, [a1, a2, a3, a4]) && Exec(sys, [a1, a2, a3, a4]) == Crashed
  {
    assert CanRun(t3, [a4]) && Exec(t3, [a4]) == Crashed;
    assert [a3, a4][1..] == [a4];
    assert CanRun(t2, [a3, a4]) && Exec(t2, [a3, a4]) == Crashed;
    assert [a2, a3, a4][1..] == [a3, a4];
    assert CanRun(t1, [a2, a3, a4]) && Exec(t1, [a2, a3, a4]) == Crashed;
    assert [a1, a2, a3, a4][1..] == [a2, a3, a4];
  }

  /** With an empty ring and window to spare a write goes out at once. */
  lemma WritesAtOnce(x: Endpoint, s: Stream, data: seq<byte>)
    requires s.id in x.streams && x.streams[s.id] == s && s.state == Established
    requires s.tx == [] && |data| < s.sendWindow
    ensures MayWrite(x, s.id, data)
    ensures Write(s, data) ==
      Written(s.(sendWindow := s.sendWindow - |data|), [DataFrame(0, s.id, |data|, data)], |data|)
  {
    assert [] + data == data;
  }

  lemma SendAtOnce(sys: System, s: Stream, data: seq<byte>) returns (t: System)
    requires s.id in sys.a.streams && sys.a.streams[s.id] == s && s.id in sys.sentA
    requires sys.a.out == [] && s.state == Established
    requires s.tx == [] && |data| < s.sendWindow
    ensures Enabled(sys, WriteA(s.id, data)) && Step(sys, WriteA(s.id, data)) == Ok(t)
    ensures t.b == sys.b && t.a.out == [DataFrame(0, s.id, |data|, data)] && s.id in t.sentA
    ensures s.id in t.a.streams && t.a.streams[s.id] == s.(sendWindow := s.sendWindow - |data|)
  {
    WritesAtOnce(sys.a, s, data);
    t := Step(sys, WriteA(s.id, data)).sys;
  }

  lemma HeldBack(sys: System, id: u32, data: seq<byte>) returns (t: System)
    requires |data| < U32_RANGE && sys.a.out == [DataFrame(0, id, |data|, data)] && Acceptable(sys.b, sys.a.out[0])
    requires Socks5Client(sys.b, id) && sys.b.streams[id].rx == []
    ensures Enabled(sys, DeliverToB(WAIT)) && Step(sys, DeliverToB(WAIT)) == Ok(t)
    ensures t.a == sys.a.(out := []) && t.b.clients == sys.b.clients && t.sentA == sys.sentA
    ensures id in t.b.streams && t.b.streams[id].rx == data
  {
    Untouched(sys.b, sys.a.out[0]);
    t := Step(sys, DeliverToB(WAIT)).sys;
  }

  lemma Untouched(y: Endpoint, f: Frame)
    requires Acceptable(y, f) && f.hdr.typ == DATA && Socks5Client(y, f.hdr.id)
    requires y.streams[f.hdr.id].rx == []
    ensures var o := HandleFrame(y, f, Dispatcher(Quiet(WAIT)));
      && o.Live? && f.hdr.id in o.ep.streams && o.ep.streams[f.hdr.id].rx == f.body
      && o.ep.clients == y.clients
  {
    HandleAcceptable(y, f, WAIT);
    assert Use(y, f, WAIT).taken == 0;
    assert ([] + f.body)[0..] == f.body;
  }

  // ---------------------------------------------------------------- down to bytes

  /** The link of x is read: nothing is left but what waits in the two rings. */
  ghost predicate Arrived(x: Endpoint, y: Endpoint, sent: map<u32, seq<byte>>, id: u32) {
    && id in x.streams && id in y.streams && id in sent
    && Delivered(y.log, id) + y.streams[id].rx + x.streams[id].tx == sent[id]
    && (Socks5Client(y, id) || y.streams[id].rx == [])
  }

  /** A link that is empty but for a pending zero-length frame carries no data. */
  lemma DrainedLink(x: Endpoint, y: Endpoint, ids: set<u32>,
                    sentX: map<u32, seq<byte>>, sentY: map<u32, seq<byte>>)
    requires Linked(x, y, sentX, sentY, ids)
    requires x.out == [] || (|x.out| == 1 && x.out[0].body == [])
    ensures forall i <- ids :: Arrived(x, y, sentX, i)
  {
    forall i <- ids ensures Arrived(x, y, sentX, i) {
      LinkedInOrder(x, y, sentX, sentY, ids, i);
      NothingInFlight(x.out, i);
      var got := Delivered(y.log, i) + y.streams[i].rx;
      assert got + [] == got;
    }
  }

  lemma NothingInFlight(fs: seq<Frame>, i: u32)
    requires fs == [] || (|fs| == 1 && fs[0].body == [])
    ensures DataInFlight(fs, i) == []
  {
    assert fs != [] ==> fs[1..] == [];
  }

  lemma LinkWellFramed(x: Endpoint, ids: set<u32>)
    requires GoodEndpoint(x, ids)
    ensures forall f <- x.out :: WellFramed(f)
  {
    forall f <- x.out ensures WellFramed(f) {
      assert PlainFrame(f, ids);
    }
  }

  /** Every frame of a link finds room when its turn comes. */
  predicate Fits(y: Endpoint, fs: seq<Frame>, socks5: Socks5)
    requires forall f <- fs :: WellFramed(f)
    decreases |fs|
  {
    fs != [] ==>
      && HasRoom(y, fs[0])
      && var o := HandleFrame(y, fs[0], Dispatcher(Quiet(socks5)));
         o.Live? ==> Fits(o.ep, fs[1..], socks5)
  }

  /** A lone zero-length frame always fits. */
  lemma LagFits(x: Endpoint, y: Endpoint, ids: set<u32>, sentX: map<u32, seq<byte>>,
                sentY: map<u32, seq<byte>>, socks5: Socks5)
    requires Linked(x, y, sentX, sentY, ids)
    requires |x.out| == 1 && WellFramed(x.out[0]) && x.out[0].body == []
    ensures Fits(y, x.out, socks5)
  {
    if x.out[0].hdr.id in ids {
      assert GoodStream(y, x.out[0].hdr.id);
    }
    assert x.out[1..] == [];
  }

  /** Reading a whole link succeeds exactly when all of it fits, and then leaves nothing
      undelivered but what waits in the rings. */
  lemma {:induction false} DrainLink(x: Endpoint, c: Conn, ids: set<u32>, sentX: map<u32, seq<byte>>,
                                     sentY: map<u32, seq<byte>>, socks5: Socks5)
    requires Linked(x, c.ep, sentX, sentY, ids)
    requires forall f <- x.out :: WellFramed(f)
    ensures var p := Settled(c, x.out, Dispatcher(Quiet(socks5)));
      && (p.Up? <==> Fits(c.ep, x.out, socks5))
      && (p.Up? ==> forall i <- ids :: Arrived(x, p.c.ep, sentX, i))
    decreases |x.out|
  {
    if x.out == [] || (|x.out| == 1 && Lags(c.ep, x.out[0])) {
      if x.out != [] {
        assert x.out[0] in x.out && WellFramed(x.out[0]);
      }
      DrainedLink(x, c.ep, ids, sentX, sentY);
      if x.out != [] {
        LagFits(x, c.ep, ids, sentX, sentY, socks5);
      }
    } else {
      DeliverIff(x, c.ep, ids, sentX, sentY, socks5);
      var o := HandleFrame(c.ep, x.out[0], Dispatcher(Quiet(socks5)));
      if o.Live? {
        DrainLink(x.(out := x.out[1..]), c.(ep := o.ep), ids, sentX, sentY, socks5);
      }
    }
  }

  /** Without SOCKS5 clients all short frames fit. */
  lemma {:induction false} AlwaysFits(x: Endpoint, y: Endpoint, ids: set<u32>, sentX: map<u32, seq<byte>>,
                                      sentY: map<u32, seq<byte>>, socks5: Socks5)
    requires Linked(x, y, sentX, sentY, ids) && NoSocks5(y) && ShortLink(x)
    requires forall f <- x.out :: WellFramed(f)
    ensures Fits(y, x.out, socks5)
    decreases |x.out|
  {
    if x.out != [] {
      ShortFits(x, y, ids);
      DeliverIff(x, y, ids, sentX, sentY, socks5);
      var o := HandleFrame(y, x.out[0], Dispatcher(Quiet(socks5)));
      AlwaysFits(x.(out := x.out[1..]), o.ep, ids, sentX, sentY, socks5);
    }
  }

  /** End to end: after any run, the bytes one endpoint has on the wire, cut into chunks in
      any way, take its peer to a state where every stream has been handed exactly its own
      data, in order, up to what still waits in the two rings. The peer gets there exactly
      when its rings have room for every frame, so always without SOCKS5 clients if no frame
      is longer than a ring. */
  lemma EndToEnd(sys: System, ids: set<u32>, acts: seq<Action>, chunks: seq<seq<byte>>, socks5: Socks5)
    requires Start(sys, ids) && CanRun(sys, acts) && Exec(sys, acts).Ok?
    requires Flatten(chunks) == Bytes(Exec(sys, acts).sys.a.out)
    ensures var t := Exec(sys, acts).sys;
      var p := FeedAll(Up(Conn(AtHeader, t.b, [], [])), chunks, Dispatcher(Quiet(socks5)));
      && (forall f <- t.a.out :: WellFramed(f))
      && (p.Up? <==> Fits(t.b, t.a.out, socks5))
      && (NoSocks5(t.b) && ShortLink(t.a) ==> p.Up?)
      && (p.Up? ==> forall i <- ids :: Arrived(t.a, p.c.ep, t.sentA, i))
  {
    StartInv(sys, ids);
    RunKeeps(sys, ids, acts);
    var t := Exec(sys, acts).sys;
    var c := Conn(AtHeader, t.b, [], []);
    LinkWellFramed(t.a, ids);
    DrainLink(t.a, c, ids, t.sentA, t.sentB, socks5);
    if NoSocks5(t.b) && ShortLink(t.a) {
      AlwaysFits(t.a, t.b, ids, t.sentA, t.sentB, socks5);
    }
    ChunkedFrames(t.b, t.a.out, chunks, Dispatcher(Quiet(socks5)));
  }
}
