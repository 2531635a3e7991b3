/** Two endpoints joined by two FIFO links, over every interleaving of writes, deliveries
    and opening connections of SOCKS5 clients, on any number of established streams. The
    frames an endpoint has written and its peer has not read yet are its `out` queue. */
module FlowControl {
  import opened Seqs
  import opened Wire
  import opened RingBuffers
  import opened Streams
  import opened Mux

  // ---------------------------------------------------------------- what is in flight

  function DataInFlight(fs: seq<Frame>, id: u32): seq<byte> {
    if fs == [] then []
    else (if fs[0].hdr.typ == DATA && fs[0].hdr.id == id then fs[0].body else []) +
         DataInFlight(fs[1..], id)
  }

  function CreditInFlight(fs: seq<Frame>, id: u32): nat {
    if fs == [] then 0
    else (if fs[0].hdr.typ == WINDOW_UPDATE && fs[0].hdr.id == id then fs[0].hdr.length else 0) +
         CreditInFlight(fs[1..], id)
  }

  lemma {:induction false} DataAppend(fs: seq<Frame>, gs: seq<Frame>, id: u32)
    ensures DataInFlight(fs + gs, id) == DataInFlight(fs, id) + DataInFlight(gs, id)
    decreases |fs|
  {
    if fs == [] {
      assert fs + gs == gs;
    } else {
      DataAppend(fs[1..], gs, id);
      assert (fs + gs)[0] == fs[0] && (fs + gs)[1..] == fs[1..] + gs;
      var first := if fs[0].hdr.typ == DATA && fs[0].hdr.id == id then fs[0].body else [];
      Assoc(first, DataInFlight(fs[1..], id), DataInFlight(gs, id));
    }
  }

  lemma {:induction false} CreditAppend(fs: seq<Frame>, gs: seq<Frame>, id: u32)
    ensures CreditInFlight(fs + gs, id) == CreditInFlight(fs, id) + CreditInFlight(gs, id)
    decreases |fs|
  {
    if fs == [] {
      assert fs + gs == gs;
    } else {
      CreditAppend(fs[1..], gs, id);
      assert (fs + gs)[0] == fs[0] && (fs + gs)[1..] == fs[1..] + gs;
    }
  }

  lemma InFlightAppend(fs: seq<Frame>, gs: seq<Frame>, id: u32)
    ensures DataInFlight(fs + gs, id) == DataInFlight(fs, id) + DataInFlight(gs, id)
    ensures CreditInFlight(fs + gs, id) == CreditInFlight(fs, id) + CreditInFlight(gs, id)
  {
    DataAppend(fs, gs, id);
    CreditAppend(fs, gs, id);
  }

  // ---------------------------------------------------------------- the invariant

  /** A frame of the established phase: no flags. */
  predicate PlainFrame(f: Frame, ids: set<u32>) {
    && WellFramed(f)
    && f.hdr.typ != PING
    && (f.hdr.typ != GO_AWAY ==> f.hdr.flags == 0 && f.hdr.id in ids)
  }

  /** One stream in one direction: the sender's stream `s` and its link `out`, the
      receiver's stream `r`, its link back and its log. `accepted` is all data ever
      handed to the sender for this stream. */
  ghost predicate Flow(s: Stream, out: seq<Frame>, r: Stream, back: seq<Frame>, log: seq<Event>,
                       accepted: seq<byte>, id: u32)
  {
    // credit conservation
    && s.sendWindow + |DataInFlight(out, id)| + CreditInFlight(back, id) == r.recvWindow
    && r.recvWindow <= MAX_WINDOW
    // enough credit outstanding never to starve
    && r.recvWindow > MAX_WINDOW / 2 - CAPACITY
    // end-to-end delivery
    && Delivered(log, id) + r.rx + DataInFlight(out, id) + s.tx == accepted
  }

  ghost predicate Direction(x: Endpoint, y: Endpoint, accepted: seq<byte>, id: u32)
    requires id in x.streams && id in y.streams
  {
    Flow(x.streams[id], x.out, y.streams[id], y.out, y.log, accepted, id)
  }

  predicate Socks5Client(x: Endpoint, id: u32) {
    id in x.clients && x.clients[id].socks5
  }

  /** Only the SOCKS5 handler leaves bytes in a receive ring. */
  ghost predicate GoodStream(x: Endpoint, id: u32) {
    && id in x.streams
    && var s := x.streams[id];
    && s.id == id && s.Valid() && s.state == Established
    && (Socks5Client(x, id) || s.rx == [])
  }

  ghost predicate GoodEndpoint(x: Endpoint, ids: set<u32>) {
    && x.streams.Keys == ids
    && (forall i <- ids :: GoodStream(x, i))
    && (forall f <- x.out :: PlainFrame(f, ids))
  }

  datatype System = System(a: Endpoint, b: Endpoint,
                           sentA: map<u32, seq<byte>>, sentB: map<u32, seq<byte>>)

  /** Both directions of all streams. */
  ghost predicate Linked(x: Endpoint, y: Endpoint, sentX: map<u32, seq<byte>>,
                         sentY: map<u32, seq<byte>>, ids: set<u32>)
  {
    && GoodEndpoint(x, ids) && GoodEndpoint(y, ids)
    && AllWays(x, y, sentX, sentY, ids)
  }

  ghost predicate AllWays(x: Endpoint, y: Endpoint, sentX: map<u32, seq<byte>>,
                          sentY: map<u32, seq<byte>>, ids: set<u32>)
  {
    && x.streams.Keys == ids && y.streams.Keys == ids && sentX.Keys == ids && sentY.Keys == ids
    && forall i <- ids :: Way(x, y, sentX, sentY, i)
  }

  ghost predicate Way(x: Endpoint, y: Endpoint, sentX: map<u32, seq<byte>>, sentY: map<u32, seq<byte>>, i: u32) {
    && i in x.streams && i in y.streams && i in sentX && i in sentY
    && BothWays(x, y, sentX[i], sentY[i], i)
  }

  ghost predicate BothWays(x: Endpoint, y: Endpoint, acceptedX: seq<byte>, acceptedY: seq<byte>,
                           id: u32)
    requires id in x.streams && id in y.streams
  {
    Direction(x, y, acceptedX, id) && Direction(y, x, acceptedY, id)
  }

  ghost predicate Inv(sys: System, ids: set<u32>) {
    Linked(sys.a, sys.b, sys.sentA, sys.sentB, ids)
  }

  /** All streams freshly established, nothing sent yet. */
  ghost predicate Start(sys: System, ids: set<u32>) {
    && sys.sentA.Keys == ids && sys.sentB.Keys == ids
    && (forall i <- ids :: sys.sentA[i] == [] && sys.sentB[i] == [])
    && StartEndpoint(sys.a, ids) && StartEndpoint(sys.b, ids)
  }

  ghost predicate StartEndpoint(x: Endpoint, ids: set<u32>) {
    && x.streams.Keys == ids && x.out == [] && x.log == []
    && (forall i <- ids :: x.streams[i] == NewStream(i).(state := Established))
  }

  lemma StartInv(sys: System, ids: set<u32>)
    requires Start(sys, ids)
    ensures Inv(sys, ids)
  {
  }

  // ---------------------------------------------------------------- steps

  /** What the environment must respect when it writes: the write does not mis-split. */
  predicate MayWrite(x: Endpoint, id: u32, data: seq<byte>) {
    id in x.streams && |data| < U32_RANGE && !MisSplits(x.streams[id], |data|)
  }

  function AfterWrite(x: Endpoint, id: u32, s': Stream, fs: seq<Frame>): Endpoint {
    Emit(x.(streams := x.streams[id := s']), fs)
  }

  /** Every delivery has its own answer of the SOCKS5 handler. */
  datatype Action =
    | WriteA(id: u32, data: seq<byte>)
    | WriteB(id: u32, data: seq<byte>)
    | DeliverToA(socks5: Socks5)
    | DeliverToB(socks5: Socks5)
    | FlushA(id: u32)
    | FlushB(id: u32)

  predicate Enabled(sys: System, act: Action) {
    match act
    case WriteA(id, data) => MayWrite(sys.a, id, data) && id in sys.sentA
    case WriteB(id, data) => MayWrite(sys.b, id, data) && id in sys.sentB
    case DeliverToA(_) => sys.b.out != [] && WellFramed(sys.b.out[0])
    case DeliverToB(_) => sys.a.out != [] && WellFramed(sys.a.out[0])
    case FlushA(id) => Socks5Client(sys.a, id)
    case FlushB(id) => Socks5Client(sys.b, id)
  }

  datatype Stepped = Ok(sys: System) | Crashed

  function Step(sys: System, act: Action): Stepped
    requires Enabled(sys, act)
  {
    match act
    case WriteA(id, data) =>
      (match Write(sys.a.streams[id], data)
       case Written(s, fs, _) =>
         Ok(sys.(a := AfterWrite(sys.a, id, s, fs), sentA := sys.sentA[id := sys.sentA[id] + data]))
       case _ => Crashed)
    case WriteB(id, data) =>
      (match Write(sys.b.streams[id], data)
       case Written(s, fs, _) =>
         Ok(sys.(b := AfterWrite(sys.b, id, s, fs), sentB := sys.sentB[id := sys.sentB[id] + data]))
       case _ => Crashed)
    case DeliverToA(socks5) =>
      (match HandleFrame(sys.a, sys.b.out[0], Dispatcher(Quiet(socks5)))
       case Aborted => Crashed
       case Live(a) => Ok(sys.(a := a, b := sys.b.(out := sys.b.out[1..]))))
    case DeliverToB(socks5) =>
      (match HandleFrame(sys.b, sys.a.out[0], Dispatcher(Quiet(socks5)))
       case Aborted => Crashed
       case Live(b) => Ok(sys.(b := b, a := sys.a.(out := sys.a.out[1..]))))
    case FlushA(id) => Ok(sys.(a := Flush(sys.a, id)))
    case FlushB(id) => Ok(sys.(b := Flush(sys.b, id)))
  }

  /** A DATA frame fits in the receive ring, behind the bytes that a SOCKS5 handler has left in it. */
  predicate HasRoom(y: Endpoint, f: Frame) {
    f.hdr.typ == DATA && f.hdr.id in y.streams ==> |y.streams[f.hdr.id].rx| + |f.body| <= CAPACITY
  }

  /** What the window leaves over fits in the transmit ring. */
  predicate RoomToWrite(x: Endpoint, id: u32, data: seq<byte>)
    requires id in x.streams
  {
    Leftover(x.streams[id], |data|) <= CAPACITY
  }

  /** The next step finds room in the ring it needs. */
  predicate FindsRoom(sys: System, act: Action)
    requires Enabled(sys, act)
  {
    match act
    case DeliverToA(_) => HasRoom(sys.a, sys.b.out[0])
    case DeliverToB(_) => HasRoom(sys.b, sys.a.out[0])
    case WriteA(id, data) => RoomToWrite(sys.a, id, data)
    case WriteB(id, data) => RoomToWrite(sys.b, id, data)
    case _ => true
  }

  // ---------------------------------------------------------------- writes keep the invariant

  lemma WriteInFlight(s: Stream, data: seq<byte>, i: u32)
    requires |data| < U32_RANGE && Write(s, data).Written?
    ensures var fs := Write(s, data).frames;
      && DataInFlight(fs, i) == (if i == s.id then Payload(fs) else [])
      && CreditInFlight(fs, i) == 0
  {
    var fs := Write(s, data).frames;
    if fs != [] {
      assert fs[1..] == [];
    }
  }

  /** What some frames of stream `id` add to the link of stream i. */
  ghost predicate Sends(fs: seq<Frame>, id: u32, i: u32) {
    && DataInFlight(fs, i) == (if i == id then Payload(fs) else [])
    && CreditInFlight(fs, i) == 0
  }

  lemma WriteFlow(s: Stream, out: seq<Frame>, r: Stream, back: seq<Frame>, log: seq<Event>,
                  accepted: seq<byte>, data: seq<byte>, s': Stream, fs: seq<Frame>)
    requires Flow(s, out, r, back, log, accepted, s.id)
    requires Accounts(s, data, s', Payload(fs)) && Sends(fs, s.id, s.id)
    ensures Flow(s', out + fs, r, back, log, accepted + data, s.id)
  {
    InFlightAppend(out, fs, s.id);
    var delivered, sent := Delivered(log, s.id) + r.rx, Payload(fs);
    Assoc(delivered, DataInFlight(out, s.id), sent);
    Regroup(delivered + DataInFlight(out, s.id), sent, s'.tx, s.tx, data);
  }

  lemma WriteFrames(x: Endpoint, ids: set<u32>, id: u32, data: seq<byte>)
    requires GoodEndpoint(x, ids) && MayWrite(x, id, data) && RoomToWrite(x, id, data)
    ensures var w := Write(x.streams[id], data);
      && Faithful(x.streams[id], data, w)
      && w.s.state == Established
      && forall f <- w.frames :: PlainFrame(f, ids)
  {
    var s := x.streams[id];
    WriteFaithfulIff(s, data);
    var w := Write(s, data);
    if w.frames != [] {
      assert w.frames == [w.frames[0]];
    }
  }

  lemma WriteBothWays(x: Endpoint, y: Endpoint, id: u32, data: seq<byte>, s': Stream, fs: seq<Frame>,
                      i: u32, accX: seq<byte>, accY: seq<byte>)
    requires i in x.streams && i in y.streams && id in x.streams && x.streams[id].id == id
    requires BothWays(x, y, accX, accY, i)
    requires Accounts(x.streams[id], data, s', Payload(fs)) && Sends(fs, id, i)
    ensures BothWays(AfterWrite(x, id, s', fs), y, if i == id then accX + data else accX, accY, i)
  {
    InFlightAppend(x.out, fs, i);
    if i == id {
      WriteFlow(x.streams[id], x.out, y.streams[id], y.out, y.log, accX, data, s', fs);
    } else {
      assert DataInFlight(x.out + fs, i) == DataInFlight(x.out, i);
    }
  }

  /** One stream changes and some frames are sent. */
  lemma StoreGood(x: Endpoint, x': Endpoint, ids: set<u32>, id: u32, s': Stream, fs: seq<Frame>)
    requires GoodEndpoint(x, ids) && id in ids
    requires s'.state == Established && s'.id == id && s'.Valid() && (Socks5Client(x, id) || s'.rx == [])
    requires forall f <- fs :: PlainFrame(f, ids)
    requires x'.streams == x.streams[id := s'] && x'.clients == x.clients && x'.out == x.out + fs
    ensures GoodEndpoint(x', ids)
  {
    SameKeys(x.streams, id, s');
    forall i <- ids ensures GoodStream(x', i) {
      assert GoodStream(x, i);
    }
  }

  lemma WriteAllWays(x: Endpoint, y: Endpoint, ids: set<u32>, id: u32, data: seq<byte>,
                     s': Stream, fs: seq<Frame>, sentX: map<u32, seq<byte>>, sentY: map<u32, seq<byte>>)
    requires AllWays(x, y, sentX, sentY, ids) && id in ids && x.streams[id].id == id
    requires Accounts(x.streams[id], data, s', Payload(fs)) && forall i <- ids :: Sends(fs, id, i)
    ensures AllWays(AfterWrite(x, id, s', fs), y, sentX[id := sentX[id] + data], sentY, ids)
  {
    var x', sentX' := AfterWrite(x, id, s', fs), sentX[id := sentX[id] + data];
    SameKeys(x.streams, id, s');
    SameKeys(sentX, id, sentX[id] + data);
    forall i <- ids ensures Way(x', y, sentX', sentY, i) {
      assert Way(x, y, sentX, sentY, i) && Sends(fs, id, i);
      WriteEach(x, y, id, data, s', fs, sentX, sentY, i);
    }
  }

  lemma SameKeys<K, V>(m: map<K, V>, k: K, v: V)
    requires k in m
    ensures m[k := v].Keys == m.Keys
  {
  }

  lemma WriteEach(x: Endpoint, y: Endpoint, id: u32, data: seq<byte>, s': Stream, fs: seq<Frame>,
                  sentX: map<u32, seq<byte>>, sentY: map<u32, seq<byte>>, i: u32)
    requires id in x.streams && x.streams[id].id == id && id in sentX && Way(x, y, sentX, sentY, i)
    requires Accounts(x.streams[id], data, s', Payload(fs)) && Sends(fs, id, i)
    ensures Way(AfterWrite(x, id, s', fs), y, sentX[id := sentX[id] + data], sentY, i)
  {
    WriteBothWays(x, y, id, data, s', fs, i, sentX[i], sentY[i]);
  }

  lemma WriteLinked(x: Endpoint, y: Endpoint, ids: set<u32>, id: u32, data: seq<byte>,
                    s': Stream, fs: seq<Frame>, sentX: map<u32, seq<byte>>, sentY: map<u32, seq<byte>>)
    requires Linked(x, y, sentX, sentY, ids) && id in ids
    requires Accounts(x.streams[id], data, s', Payload(fs)) && forall i <- ids :: Sends(fs, id, i)
    requires GoodEndpoint(AfterWrite(x, id, s', fs), ids)
    ensures Linked(AfterWrite(x, id, s', fs), y, sentX[id := sentX[id] + data], sentY, ids)
  {
    WriteAllWays(x, y, ids, id, data, s', fs, sentX, sentY);
  }

  lemma WriteKeeps(x: Endpoint, y: Endpoint, ids: set<u32>, id: u32, data: seq<byte>,
                   sentX: map<u32, seq<byte>>, sentY: map<u32, seq<byte>>)
    requires Linked(x, y, sentX, sentY, ids) && MayWrite(x, id, data) && RoomToWrite(x, id, data)
    ensures var w := Write(x.streams[id], data);
      w.Written? && Linked(AfterWrite(x, id, w.s, w.frames), y, sentX[id := sentX[id] + data], sentY, ids)
  {
    WriteFrames(x, ids, id, data);
    var w := Write(x.streams[id], data);
    forall i <- ids ensures Sends(w.frames, id, i) {
      WriteInFlight(x.streams[id], data, i);
    }
    assert GoodStream(x, id);
    StoreGood(x, AfterWrite(x, id, w.s, w.frames), ids, id, w.s, w.frames);
    WriteLinked(x, y, ids, id, data, w.s, w.frames, sentX, sentY);
  }

  // ---------------------------------------------------------------- deliveries keep it

  /** The stream of a DATA frame when the payload is in its ring and paid for. */
  function Received(r: Stream, f: Frame): Stream
    requires f.hdr.length <= r.recvWindow
  {
    r.(rx := r.rx + f.body, recvWindow := r.recvWindow - f.hdr.length)
  }

  /** The receiver grants what its window lacks beside the bytes just used, once that is half
      a window. */
  function Granted(s: Stream, used: u32): u32
    requires used + s.recvWindow <= MAX_WINDOW
  {
    var lacks := MAX_WINDOW - used - s.recvWindow;
    if lacks >= MAX_WINDOW / 2 then lacks else 0
  }

  function GrantFrames(id: u32, granted: u32): seq<Frame> {
    if granted > 0 then [WindowFrame(0, id, granted)] else []
  }

  function Replies(f: Frame, granted: u32): seq<Frame> {
    GrantFrames(f.hdr.id, granted) + if f.hdr.length == 0 then [GoAwayFrame(PROTO_ERR)] else []
  }

  /** The unsigned difference does not wrap: the credit offered is what the window lacks. */
  lemma WindowAfterData(s: Stream, used: u32)
    requires s.state == Established && used + s.recvWindow <= MAX_WINDOW
    ensures WindowDelta(s, used) == MAX_WINDOW - used - s.recvWindow
    ensures SendWindowUpdate(s, used) ==
            (s.(recvWindow := s.recvWindow + Granted(s, used)), GrantFrames(s.id, Granted(s, used)))
  {
  }

  /** The stream when `taken` bytes have left its ring and credit was granted. */
  function Drained(s: Stream, taken: nat, granted: u32): Stream
    requires taken <= |s.rx| && s.recvWindow + granted < U32_RANGE
  {
    s.(rx := s.rx[taken..], recvWindow := s.recvWindow + granted)
  }

  lemma HandleBody(y: Endpoint, s: Stream, length: u32, socks5: Socks5)
    requires s.id in y.streams && s.state == Established
    requires length <= |s.rx| && length + s.recvWindow <= MAX_WINDOW
    ensures
      var c := Consume(y, s, length, Quiet(socks5));
      var g := Granted(s, c.used);
      ProcessBody(y, s, length, Quiet(socks5)) ==
      Live(y.(streams := y.streams[s.id := Drained(s, c.taken, g)],
              log := y.log + [Event(s.id, s.rx[..c.taken])],
              out := y.out + GrantFrames(s.id, g)))
  {
    var c := Consume(y, s, length, Quiet(socks5));
    var s1 := s.(rx := s.rx[c.taken..]);
    WindowAfterData(s1, c.used);
    var y1 := Store(y, s1).(log := y.log + [Event(s.id, s.rx[..c.taken])]);
    assert Quiet(socks5).onMessage(y1, s.id, s.rx[..c.taken]) == y1;
    assert y1.streams[s.id] == s1;
    var (s2, fs) := SendWindowUpdate(s1, c.used);
    assert ProcessBody(y, s, length, Quiet(socks5)) == Live(Emit(Store(y1, s2), fs));
    assert Store(y1, s2).streams == y.streams[s.id := s2];
  }

  /** An endpoint can take a frame: in particular its window and its ring cover a payload. */
  predicate Acceptable(y: Endpoint, f: Frame) {
    && WellFramed(f)
    && f.hdr.typ != PING
    && (f.hdr.typ != GO_AWAY ==>
          && f.hdr.id in y.streams && f.hdr.flags == 0
          && var s := y.streams[f.hdr.id];
          && s.id == f.hdr.id && s.state == Established
          && (f.hdr.typ == DATA ==> |s.rx| + |f.body| <= CAPACITY && f.hdr.length <= s.recvWindow <= MAX_WINDOW)
          && (f.hdr.typ == WINDOW_UPDATE ==> s.sendWindow + f.hdr.length < U32_RANGE))
  }

  /** What the client of an arriving DATA frame takes and reports. */
  function Use(y: Endpoint, f: Frame, socks5: Socks5): (c: Consumption)
    requires Acceptable(y, f) && f.hdr.typ == DATA
    ensures c.Consumption? && c.taken <= |y.streams[f.hdr.id].rx| + |f.body| && c.used <= f.hdr.length
  {
    Consume(y, Received(y.streams[f.hdr.id], f), f.hdr.length, Quiet(socks5))
  }

  function AfterData(y: Endpoint, f: Frame, taken: nat, used: u32): Endpoint
    requires Acceptable(y, f) && f.hdr.typ == DATA
    requires taken <= |y.streams[f.hdr.id].rx| + |f.body| && used <= f.hdr.length
  {
    var s := Received(y.streams[f.hdr.id], f);
    y.(streams := y.streams[f.hdr.id := Drained(s, taken, Granted(s, used))],
       log := y.log + [Event(f.hdr.id, s.rx[..taken])],
       out := y.out + Replies(f, Granted(s, used)))
  }

  /** The endpoint after a frame it can take. */
  function After(y: Endpoint, f: Frame, socks5: Socks5): Endpoint
    requires Acceptable(y, f)
  {
    if f.hdr.typ == DATA then
      var c := Use(y, f, socks5);
      AfterData(y, f, c.taken, c.used)
    else if f.hdr.typ == WINDOW_UPDATE then
      var s := y.streams[f.hdr.id];
      y.(streams := y.streams[f.hdr.id := s.(sendWindow := s.sendWindow + f.hdr.length)])
    else
      y.(remoteGoAway := y.remoteGoAway || f.hdr.length == 0)
  }

  /** `r` is the stream before the frame, `y1` the endpoint with the payload in its ring. */
  lemma HandleDataBody(y1: Endpoint, r: Stream, f: Frame, socks5: Socks5)
    requires WellFramed(f) && f.hdr.typ == DATA && f.hdr.flags == 0
    requires r.id == f.hdr.id && r.id in y1.streams && r.state == Established
    requires f.hdr.length <= r.recvWindow <= MAX_WINDOW
    ensures
      var s := Received(r, f);
      var c := Consume(y1, s, f.hdr.length, Quiet(socks5));
      var g := Granted(s, c.used);
      HandleData(y1, r.(rx := r.rx + f.body), f.hdr, Quiet(socks5)) ==
      Live(y1.(streams := y1.streams[s.id := Drained(s, c.taken, g)],
               log := y1.log + [Event(s.id, s.rx[..c.taken])],
               out := y1.out + Replies(f, g)))
  {
    var s := Received(r, f);
    HandleBody(y1, s, f.hdr.length, socks5);
    ReplyParts(y1.out, f, Granted(s, Consume(y1, s, f.hdr.length, Quiet(socks5)).used));
  }

  lemma ReplyParts(out: seq<Frame>, f: Frame, granted: u32)
    ensures out + Replies(f, granted) ==
      if f.hdr.length == 0 then out + GrantFrames(f.hdr.id, granted) + [GoAwayFrame(PROTO_ERR)]
      else out + GrantFrames(f.hdr.id, granted)
  {
    var g := GrantFrames(f.hdr.id, granted);
    assert g + [] == g;
    Assoc(out, g, [GoAwayFrame(PROTO_ERR)]);
  }

  lemma HandleAcceptableData(y: Endpoint, f: Frame, socks5: Socks5)
    requires Acceptable(y, f) && f.hdr.typ == DATA
    ensures HandleFrame(y, f, Dispatcher(Quiet(socks5))) == Live(After(y, f, socks5))
  {
    var r := y.streams[f.hdr.id];
    var y1 := y.(streams := y.streams[r.id := r.(rx := r.rx + f.body)]);
    assert HandleFrame(y, f, Dispatcher(Quiet(socks5))) ==
      HandleData(y1, r.(rx := r.rx + f.body), f.hdr, Quiet(socks5));
    HandleDataBody(y1, r, f, socks5);
    var s := Received(r, f);
    var c := Consume(y1, s, f.hdr.length, Quiet(socks5));
    assert c == Use(y, f, socks5);
    var s' := Drained(s, c.taken, Granted(s, c.used));
    assert y1.streams[r.id := s'] == y.streams[r.id := s'];
  }

  lemma HandleAcceptable(y: Endpoint, f: Frame, socks5: Socks5)
    requires Acceptable(y, f)
    ensures HandleFrame(y, f, Dispatcher(Quiet(socks5))) == Live(After(y, f, socks5))
  {
    if f.hdr.typ == DATA {
      HandleAcceptableData(y, f, socks5);
    }
  }

  lemma RepliesInFlight(f: Frame, granted: u32, i: u32)
    ensures DataInFlight(Replies(f, granted), i) == []
    ensures CreditInFlight(Replies(f, granted), i) == if i == f.hdr.id then granted else 0
  {
    var g := GrantFrames(f.hdr.id, granted);
    var z := if f.hdr.length == 0 then [GoAwayFrame(PROTO_ERR)] else [];
    InFlightAppend(g, z, i);
    assert CreditInFlight(g, i) == if i == f.hdr.id then granted else 0;
  }

  lemma DeliveredAppend(log: seq<Event>, e: Event, i: u32)
    ensures Delivered(log + [e], i) == Delivered(log, i) + if e.id == i then e.data else []
  {
    assert (log + [e])[..|log|] == log;
  }

  /** Taking some bytes out of the ring moves the border between log and ring. */
  lemma BorderMoves(delivered: seq<byte>, rx: seq<byte>, body: seq<byte>, rest: seq<byte>, taken: nat)
    requires taken <= |rx + body|
    ensures delivered + (rx + body)[..taken] + (rx + body)[taken..] + rest == delivered + rx + (body + rest)
  {
    var ring := rx + body;
    assert ring[..taken] + ring[taken..] == ring;
  }

  /** Forward direction of the stream a DATA frame belongs to. */
  lemma DataFlow(s: Stream, out: seq<Frame>, r: Stream, back: seq<Frame>, log: seq<Event>,
                 accepted: seq<byte>, taken: nat, used: u32)
    requires out != [] && WellFramed(out[0]) && out[0].hdr.typ == DATA && |out[0].body| <= CAPACITY
    requires Flow(s, out, r, back, log, accepted, out[0].hdr.id)
    requires out[0].hdr.length <= r.recvWindow
    requires taken <= |r.rx| + |out[0].body| && used <= out[0].hdr.length
    ensures var f, q := out[0], Received(r, out[0]);
      Flow(s, out[1..], Drained(q, taken, Granted(q, used)), back + Replies(f, Granted(q, used)),
           log + [Event(f.hdr.id, q.rx[..taken])], accepted, f.hdr.id)
  {
    var f, id, q := out[0], out[0].hdr.id, Received(r, out[0]);
    InFlightAppend(back, Replies(f, Granted(q, used)), id);
    RepliesInFlight(f, Granted(q, used), id);
    DeliveredAppend(log, Event(id, q.rx[..taken]), id);
    BorderMoves(Delivered(log, id), r.rx, f.body, DataInFlight(out[1..], id), taken);
  }

  /** Only four numbers and four byte strings matter to a flow. */
  lemma FlowCongruent(s: Stream, s': Stream, out: seq<Frame>, out': seq<Frame>,
                      r: Stream, r': Stream, back: seq<Frame>, back': seq<Frame>,
                      log: seq<Event>, log': seq<Event>, accepted: seq<byte>, i: u32)
    requires Flow(s, out, r, back, log, accepted, i)
    requires s'.sendWindow - s.sendWindow == CreditInFlight(back, i) - CreditInFlight(back', i)
    requires s'.tx == s.tx && r'.recvWindow == r.recvWindow && r'.rx == r.rx
    requires DataInFlight(out', i) == DataInFlight(out, i) && Delivered(log', i) == Delivered(log, i)
    ensures Flow(s', out', r', back', log', accepted, i)
  {
  }

  lemma DataForward(x: Endpoint, y: Endpoint, i: u32, accepted: seq<byte>, taken: nat, used: u32)
    requires i in x.streams && i in y.streams && Direction(x, y, accepted, i)
    requires x.out != [] && x.out[0].hdr.typ == DATA && Acceptable(y, x.out[0])
    requires taken <= |y.streams[x.out[0].hdr.id].rx| + |x.out[0].body| && used <= x.out[0].hdr.length
    ensures Direction(x.(out := x.out[1..]), AfterData(y, x.out[0], taken, used), accepted, i)
  {
    if i == x.out[0].hdr.id {
      DataFlow(x.streams[i], x.out, y.streams[i], y.out, y.log, accepted, taken, used);
    } else {
      DataAside(x, y, i, accepted, taken, used);
    }
  }

  /** A stream that the frame does not belong to. */
  lemma DataAside(x: Endpoint, y: Endpoint, i: u32, accepted: seq<byte>, taken: nat, used: u32)
    requires i in x.streams && i in y.streams && Direction(x, y, accepted, i)
    requires x.out != [] && x.out[0].hdr.typ == DATA && Acceptable(y, x.out[0]) && i != x.out[0].hdr.id
    requires taken <= |y.streams[x.out[0].hdr.id].rx| + |x.out[0].body| && used <= x.out[0].hdr.length
    ensures Direction(x.(out := x.out[1..]), AfterData(y, x.out[0], taken, used), accepted, i)
  {
    var f := x.out[0];
    var y' := AfterData(y, f, taken, used);
    var s := Received(y.streams[f.hdr.id], f);
    RepliesAside(y.out, f, Granted(s, used), i);
    DeliveredAppend(y.log, Event(f.hdr.id, s.rx[..taken]), i);
    assert DataInFlight(x.out, i) == [] + DataInFlight(x.out[1..], i);
    FlowCongruent(x.streams[i], x.streams[i], x.out, x.out[1..], y.streams[i], y.streams[i],
                  y.out, y'.out, y.log, y'.log, accepted, i);
  }

  lemma RepliesAside(out: seq<Frame>, f: Frame, granted: u32, i: u32)
    requires i != f.hdr.id
    ensures DataInFlight(out + Replies(f, granted), i) == DataInFlight(out, i)
    ensures CreditInFlight(out + Replies(f, granted), i) == CreditInFlight(out, i)
  {
    InFlightAppend(out, Replies(f, granted), i);
    RepliesInFlight(f, granted, i);
  }

  lemma DataBackward(x: Endpoint, y: Endpoint, i: u32, accepted: seq<byte>, taken: nat, used: u32)
    requires i in x.streams && i in y.streams && Direction(y, x, accepted, i)
    requires x.out != [] && x.out[0].hdr.typ == DATA && Acceptable(y, x.out[0])
    requires taken <= |y.streams[x.out[0].hdr.id].rx| + |x.out[0].body| && used <= x.out[0].hdr.length
    ensures Direction(AfterData(y, x.out[0], taken, used), x.(out := x.out[1..]), accepted, i)
  {
    var f := x.out[0];
    var y' := AfterData(y, f, taken, used);
    var g := Granted(Received(y.streams[f.hdr.id], f), used);
    InFlightAppend(y.out, Replies(f, g), i);
    RepliesInFlight(f, g, i);
    FlowCongruent(y.streams[i], y'.streams[i], y.out, y'.out,
                  x.streams[i], x.streams[i], x.out, x.out[1..], x.log, x.log, accepted, i);
  }

  lemma OtherBothWays(x: Endpoint, y: Endpoint, i: u32, accX: seq<byte>, accY: seq<byte>, socks5: Socks5)
    requires i in x.streams && i in y.streams && BothWays(x, y, accX, accY, i)
    requires x.out != [] && x.out[0].hdr.typ != DATA && Acceptable(y, x.out[0])
    ensures BothWays(x.(out := x.out[1..]), After(y, x.out[0], socks5), accX, accY, i)
  {
    var f := x.out[0];
    var y' := After(y, f, socks5);
    assert DataInFlight(x.out, i) == [] + DataInFlight(x.out[1..], i);
    FlowCongruent(x.streams[i], x.streams[i], x.out, x.out[1..], y.streams[i], y'.streams[i],
                  y.out, y'.out, y.log, y'.log, accX, i);
    FlowCongruent(y.streams[i], y'.streams[i], y.out, y'.out, x.streams[i], x.streams[i],
                  x.out, x.out[1..], x.log, x.log, accY, i);
  }

  /** A client that does not speak SOCKS5 leaves nothing in its ring. */
  lemma TakesAll(y: Endpoint, f: Frame, socks5: Socks5)
    requires Acceptable(y, f) && f.hdr.typ == DATA
    requires !Socks5Client(y, f.hdr.id) && y.streams[f.hdr.id].rx == []
    ensures After(y, f, socks5).streams[f.hdr.id].rx == []
  {
  }

  lemma AfterGood(y: Endpoint, ids: set<u32>, f: Frame, socks5: Socks5)
    requires GoodEndpoint(y, ids) && Acceptable(y, f)
    ensures GoodEndpoint(After(y, f, socks5), ids)
  {
    var y' := After(y, f, socks5);
    if f.hdr.typ == DATA {
      DataGood(y, ids, f, socks5);
    } else if f.hdr.typ == WINDOW_UPDATE {
      assert GoodStream(y, f.hdr.id);
      StoreGood(y, y', ids, f.hdr.id, y'.streams[f.hdr.id], []);
    } else {
      forall i <- ids ensures GoodStream(y', i) {
        assert GoodStream(y, i);
      }
    }
  }

  lemma RepliesPlain(f: Frame, granted: u32, ids: set<u32>)
    requires f.hdr.id in ids
    ensures forall g <- Replies(f, granted) :: PlainFrame(g, ids)
  {
  }

  lemma DataGood(y: Endpoint, ids: set<u32>, f: Frame, socks5: Socks5)
    requires GoodEndpoint(y, ids) && Acceptable(y, f) && f.hdr.typ == DATA
    ensures GoodEndpoint(After(y, f, socks5), ids)
  {
    var y', id := After(y, f, socks5), f.hdr.id;
    assert GoodStream(y, id);
    if !Socks5Client(y, id) {
      TakesAll(y, f, socks5);
    }
    var fs := Replies(f, Granted(Received(y.streams[id], f), Use(y, f, socks5).used));
    RepliesPlain(f, Granted(Received(y.streams[id], f), Use(y, f, socks5).used), ids);
    StoreGood(y, y', ids, id, y'.streams[id], fs);
  }

  lemma Covered(s: Stream, out: seq<Frame>, r: Stream, back: seq<Frame>, log: seq<Event>,
                accepted: seq<byte>)
    requires out != [] && Flow(s, out, r, back, log, accepted, out[0].hdr.id)
    ensures out[0].hdr.typ == DATA ==> |out[0].body| <= r.recvWindow <= MAX_WINDOW
  {
  }

  lemma Credited(s: Stream, out: seq<Frame>, r: Stream, back: seq<Frame>, log: seq<Event>,
                 accepted: seq<byte>)
    requires back != [] && Flow(s, out, r, back, log, accepted, back[0].hdr.id)
    ensures back[0].hdr.typ == WINDOW_UPDATE ==> s.sendWindow + back[0].hdr.length <= MAX_WINDOW
  {
  }

  /** The next frame on a link is acceptable to its receiver if the ring of a SOCKS5 client
      has room for it: the receiver's window always covers a DATA frame. */
  lemma NextAcceptable(x: Endpoint, y: Endpoint, ids: set<u32>,
                       sentX: map<u32, seq<byte>>, sentY: map<u32, seq<byte>>)
    requires Linked(x, y, sentX, sentY, ids) && x.out != [] && HasRoom(y, x.out[0])
    ensures Acceptable(y, x.out[0])
  {
    var f, id := x.out[0], x.out[0].hdr.id;
    assert f in x.out && PlainFrame(f, ids);
    if f.hdr.typ != GO_AWAY {
      assert GoodStream(y, id);
      assert Way(x, y, sentX, sentY, id);
      Covered(x.streams[id], x.out, y.streams[id], y.out, y.log, sentX[id]);
      Credited(y.streams[id], y.out, x.streams[id], x.out, x.log, sentY[id]);
    }
  }

  lemma DeliverWay(x: Endpoint, y: Endpoint, sentX: map<u32, seq<byte>>, sentY: map<u32, seq<byte>>,
                   socks5: Socks5, i: u32)
    requires Way(x, y, sentX, sentY, i) && x.out != [] && Acceptable(y, x.out[0])
    ensures Way(x.(out := x.out[1..]), After(y, x.out[0], socks5), sentX, sentY, i)
  {
    var f := x.out[0];
    if f.hdr.typ == DATA {
      var c := Use(y, f, socks5);
      DataForward(x, y, i, sentX[i], c.taken, c.used);
      DataBackward(x, y, i, sentY[i], c.taken, c.used);
    } else {
      OtherBothWays(x, y, i, sentX[i], sentY[i], socks5);
    }
  }

  lemma DeliverAllWays(x: Endpoint, y: Endpoint, ids: set<u32>,
                       sentX: map<u32, seq<byte>>, sentY: map<u32, seq<byte>>, socks5: Socks5)
    requires AllWays(x, y, sentX, sentY, ids) && x.out != [] && Acceptable(y, x.out[0])
    requires After(y, x.out[0], socks5).streams.Keys == ids
    ensures AllWays(x.(out := x.out[1..]), After(y, x.out[0], socks5), sentX, sentY, ids)
  {
    var x', y' := x.(out := x.out[1..]), After(y, x.out[0], socks5);
    forall i <- ids ensures Way(x', y', sentX, sentY, i) {
      assert Way(x, y, sentX, sentY, i);
      DeliverWay(x, y, sentX, sentY, socks5, i);
    }
  }

  lemma DeliverKeeps(x: Endpoint, y: Endpoint, ids: set<u32>,
                     sentX: map<u32, seq<byte>>, sentY: map<u32, seq<byte>>, socks5: Socks5)
    requires Linked(x, y, sentX, sentY, ids) && x.out != [] && Acceptable(y, x.out[0])
    ensures Linked(x.(out := x.out[1..]), After(y, x.out[0], socks5), sentX, sentY, ids)
  {
    AfterGood(y, ids, x.out[0], socks5);
    ShorterGood(x, ids);
    DeliverAllWays(x, y, ids, sentX, sentY, socks5);
  }

  lemma ShorterGood(x: Endpoint, ids: set<u32>)
    requires GoodEndpoint(x, ids) && x.out != []
    ensures GoodEndpoint(x.(out := x.out[1..]), ids)
  {
    forall i <- ids ensures GoodStream(x.(out := x.out[1..]), i) {
      assert GoodStream(x, i);
    }
  }

  /** A delivery succeeds exactly when the ring has room, and then keeps the invariant. */
  lemma DeliverIff(x: Endpoint, y: Endpoint, ids: set<u32>,
                   sentX: map<u32, seq<byte>>, sentY: map<u32, seq<byte>>, socks5: Socks5)
    requires Linked(x, y, sentX, sentY, ids) && x.out != [] && WellFramed(x.out[0])
    ensures var o := HandleFrame(y, x.out[0], Dispatcher(Quiet(socks5)));
      && (o.Live? <==> HasRoom(y, x.out[0]))
      && (o.Live? ==> Linked(x.(out := x.out[1..]), o.ep, sentX, sentY, ids) && o.ep.clients == y.clients)
  {
    if HasRoom(y, x.out[0]) {
      NextAcceptable(x, y, ids, sentX, sentY);
      HandleAcceptable(y, x.out[0], socks5);
      DeliverKeeps(x, y, ids, sentX, sentY, socks5);
    }
  }

  // ---------------------------------------------------------------- flushing keeps it

  lemma FlushEach(x: Endpoint, y: Endpoint, id: u32, sentX: map<u32, seq<byte>>,
                  sentY: map<u32, seq<byte>>, i: u32)
    requires Way(x, y, sentX, sentY, i)
    ensures Way(Flush(x, id), y, sentX, sentY, i)
  {
    var x' := Flush(x, id);
    if id in x.streams && x.streams[id].rx != [] {
      DeliveredAppend(x.log, Event(id, x.streams[id].rx), i);
      if i == id {
        assert Delivered(x.log, i) + x.streams[i].rx + [] == Delivered(x.log, i) + x.streams[i].rx;
      }
    }
    assert Direction(x', y, sentX[i], i);
    assert Direction(y, x', sentY[i], i);
  }

  lemma FlushKeeps(x: Endpoint, y: Endpoint, ids: set<u32>, id: u32,
                   sentX: map<u32, seq<byte>>, sentY: map<u32, seq<byte>>)
    requires Linked(x, y, sentX, sentY, ids)
    ensures Linked(Flush(x, id), y, sentX, sentY, ids) && Flush(x, id).clients == x.clients
  {
    var x' := Flush(x, id);
    if id in ids && x.streams[id].rx != [] {
      assert GoodStream(x, id);
      StoreGood(x, x', ids, id, x.streams[id].(rx := []), []);
      forall i <- ids ensures Way(x', y, sentX, sentY, i) {
        assert Way(x, y, sentX, sentY, i);
        FlushEach(x, y, id, sentX, sentY, i);
      }
    }
  }

  // ---------------------------------------------------------------- every step

  lemma LinkedSymmetric(x: Endpoint, y: Endpoint, sentX: map<u32, seq<byte>>,
                        sentY: map<u32, seq<byte>>, ids: set<u32>)
    requires Linked(x, y, sentX, sentY, ids)
    ensures Linked(y, x, sentY, sentX, ids)
  {
    forall i <- ids ensures Way(y, x, sentY, sentX, i) {
      assert Way(x, y, sentX, sentY, i);
    }
  }

  ghost predicate Kept(sys: System, ids: set<u32>, act: Action)
    requires Enabled(sys, act)
  {
    var r := Step(sys, act);
    && (r.Ok? <==> FindsRoom(sys, act))
    && (r.Ok? ==> Inv(r.sys, ids) && r.sys.a.clients == sys.a.clients && r.sys.b.clients == sys.b.clients)
  }

  lemma WriteStep(sys: System, ids: set<u32>, id: u32, data: seq<byte>)
    requires Inv(sys, ids) && Enabled(sys, WriteA(id, data))
    ensures Kept(sys, ids, WriteA(id, data))
  {
    if RoomToWrite(sys.a, id, data) {
      RoomyWrite(sys, ids, id, data);
    } else {
      StoppedWrite(sys, ids, id, data);
    }
  }

  lemma StoppedWrite(sys: System, ids: set<u32>, id: u32, data: seq<byte>)
    requires GoodEndpoint(sys.a, ids) && Enabled(sys, WriteA(id, data)) && !RoomToWrite(sys.a, id, data)
    ensures Kept(sys, ids, WriteA(id, data))
  {
    WriteFails(sys.a, ids, id, data);
  }

  lemma RoomyWrite(sys: System, ids: set<u32>, id: u32, data: seq<byte>)
    requires Inv(sys, ids) && Enabled(sys, WriteA(id, data)) && RoomToWrite(sys.a, id, data)
    ensures Kept(sys, ids, WriteA(id, data))
  {
    WriteKeeps(sys.a, sys.b, ids, id, data, sys.sentA, sys.sentB);
    var w := Write(sys.a.streams[id], data);
    var a := AfterWrite(sys.a, id, w.s, w.frames);
    assert a.clients == sys.a.clients;
    var sys' := sys.(a := a, sentA := sys.sentA[id := sys.sentA[id] + data]);
    assert Step(sys, WriteA(id, data)) == Ok(sys');
  }

  lemma WriteFails(x: Endpoint, ids: set<u32>, id: u32, data: seq<byte>)
    requires GoodEndpoint(x, ids) && MayWrite(x, id, data) && !RoomToWrite(x, id, data)
    ensures Write(x.streams[id], data) == NoRoom
  {
    assert GoodStream(x, id);
    WriteNoRoomIff(x.streams[id], data);
  }

  lemma DeliverStep(sys: System, ids: set<u32>, socks5: Socks5)
    requires Inv(sys, ids) && Enabled(sys, DeliverToB(socks5))
    ensures Kept(sys, ids, DeliverToB(socks5))
  {
    DeliverIff(sys.a, sys.b, ids, sys.sentA, sys.sentB, socks5);
    if HasRoom(sys.b, sys.a.out[0]) {
      var b := HandleFrame(sys.b, sys.a.out[0], Dispatcher(Quiet(socks5))).ep;
      assert Step(sys, DeliverToB(socks5)) == Ok(sys.(b := b, a := sys.a.(out := sys.a.out[1..])));
    }
  }

  lemma FlushStep(sys: System, ids: set<u32>, id: u32)
    requires Inv(sys, ids) && Enabled(sys, FlushA(id))
    ensures Kept(sys, ids, FlushA(id))
  {
    FlushKeeps(sys.a, sys.b, ids, id, sys.sentA, sys.sentB);
  }

  /** Steps of the first endpoint, and deliveries to the second. */
  lemma StepForth(sys: System, ids: set<u32>, act: Action)
    requires Inv(sys, ids) && Enabled(sys, act) && (act.WriteA? || act.DeliverToB? || act.FlushA?)
    ensures Kept(sys, ids, act)
  {
    match act
    case WriteA(id, data) => WriteStep(sys, ids, id, data);
    case DeliverToB(socks5) => DeliverStep(sys, ids, socks5);
    case FlushA(id) => FlushStep(sys, ids, id);
  }

  function Swap(sys: System): System {
    System(sys.b, sys.a, sys.sentB, sys.sentA)
  }

  function SwapAct(act: Action): Action {
    match act
    case WriteA(id, data) => WriteB(id, data)
    case WriteB(id, data) => WriteA(id, data)
    case DeliverToA(socks5) => DeliverToB(socks5)
    case DeliverToB(socks5) => DeliverToA(socks5)
    case FlushA(id) => FlushB(id)
    case FlushB(id) => FlushA(id)
  }

  /** Every step keeps the invariant and the clients; it stops the program exactly when it is
      a write or a delivery that finds no room. */
  lemma StepKeeps(sys: System, ids: set<u32>, act: Action)
    requires Inv(sys, ids) && Enabled(sys, act)
    ensures Kept(sys, ids, act)
  {
    if act.WriteA? || act.DeliverToB? || act.FlushA? {
      StepForth(sys, ids, act);
    } else {
      LinkedSymmetric(sys.a, sys.b, sys.sentA, sys.sentB, ids);
      StepForth(Swap(sys), ids, SwapAct(act));
      SwapStep(sys, act);
      if FindsRoom(sys, act) {
        var sys' := Step(sys, act).sys;
        LinkedSymmetric(sys'.b, sys'.a, sys'.sentB, sys'.sentA, ids);
      }
    }
  }

  lemma SwapStep(sys: System, act: Action)
    requires Enabled(sys, act) && Enabled(Swap(sys), SwapAct(act))
    ensures FindsRoom(Swap(sys), SwapAct(act)) == FindsRoom(sys, act)
    ensures Step(Swap(sys), SwapAct(act)) ==
      match Step(sys, act) case Crashed => Crashed case Ok(sys') => Ok(Swap(sys'))
  {
  }
}
