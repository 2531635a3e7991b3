/** The stream table and the client table over every run of connects, tunnels, writes,
    closes, arriving frames and reconnects. */
module Registry {
  import opened Options
  import opened Wire
  import opened Streams
  import opened Mux
  import opened Control

  // ---------------------------------------------------------------- the invariant of a run

  /** The tables agree: the clients are the streams without the control stream, each stored
      under its own id, and all ids are odd and below the next session id. */
  ghost predicate Registered(c: Ctl) {
    && GoodTable(c.ep)
    && c.ep.clients.Keys == c.ep.streams.Keys - {c.ctlId}
    && (forall i <- c.ep.streams :: i % 2 == 1 && i < c.nextId)
    && c.ctlId % 2 == 1 && c.ctlId < c.nextId && c.nextId % 2 == 1
  }

  /** Every stream, gone or not, has sent its frames in order; ids not handed out yet have
      sent none. */
  ghost predicate Ordered(c: Ctl) {
    && (forall i: u32 :: Orderly(Lookup(c.ep, i), OfStream(c.ep.out, i)))
    && (forall i: u32 :: c.nextId <= i ==> OfStream(c.ep.out, i) == [])
  }

  ghost predicate Inv(c: Ctl) {
    Registered(c) && Ordered(c)
  }

  lemma EffectKeeps(c: Ctl, ep': Endpoint, id: u32, fs: seq<Frame>)
    requires Inv(c) && Effect(c.ep, ep', id, fs)
    ensures Inv(c.(ep := ep'))
  {
    var c' := c.(ep := ep');
    forall i <- ep'.streams ensures i in c.ep.streams && ep'.streams[i].id == i && LiveState(ep'.streams[i].state) {
      if i != id {
        assert Lookup(ep', i) == Lookup(c.ep, i);
      } else {
        assert Lookup(ep', id) == Some(ep'.streams[id]);
      }
    }
    forall i <- c.ep.streams ensures i in ep'.streams || i == id {
      if i != id {
        assert Lookup(ep', i) == Lookup(c.ep, i);
      }
    }
    assert ep'.clients.Keys == ep'.streams.Keys - {c.ctlId};
    EffectKeepsOrder(c, ep', id, fs);
  }

  lemma EffectKeepsOrder(c: Ctl, ep': Endpoint, id: u32, fs: seq<Frame>)
    requires Inv(c) && Effect(c.ep, ep', id, fs)
    ensures Ordered(c.(ep := ep'))
  {
    forall i: u32
      ensures Orderly(Lookup(ep', i), OfStream(ep'.out, i))
      ensures c.nextId <= i ==> OfStream(ep'.out, i) == []
    {
      assert Orderly(Lookup(c.ep, i), OfStream(c.ep.out, i));
      if i == id && id in c.ep.streams {
        LawfulKeepsOrder(c.ep.streams[id], Lookup(ep', id), OfStream(c.ep.out, id), fs);
      } else {
        assert OfStream(c.ep.out, i) + [] == OfStream(c.ep.out, i);
      }
    }
  }

  /** A new client keeps the tables in agreement exactly while a session id is left: handing
      out the last one starts the ids over, at those in use. */
  lemma ConnectKeeps(c: Ctl)
    requires Inv(c)
    ensures Inv(ConnectClient(c)) <==> c.nextId + 2 < U32_RANGE
  {
    if c.nextId + 2 < U32_RANGE {
      FreshKeeps(c);
      UpdateKeeps(WithFresh(c), c.nextId, 0);
    }
  }

  /** A new client and its stream, before the first frame is sent. */
  function WithFresh(c: Ctl): Ctl
    requires c.nextId + 2 < U32_RANGE
  {
    var id := c.nextId;
    c.(ep := FreshStream(c.ep, id).(clients := c.ep.clients[id := Client(false, false)]), nextId := c.nextId + 2)
  }

  lemma FreshKeeps(c: Ctl)
    requires Inv(c) && c.nextId + 2 < U32_RANGE
    ensures Inv(WithFresh(c))
  {
    var c1 := WithFresh(c);
    assert c.nextId !in c.ep.streams;
    assert c1.ep.clients.Keys == c1.ep.streams.Keys - {c1.ctlId};
    forall i: u32 ensures Orderly(Lookup(c1.ep, i), OfStream(c1.ep.out, i)) {
      assert Orderly(Lookup(c.ep, i), OfStream(c.ep.out, i));
    }
  }

  lemma UpdateKeeps(c: Ctl, id: u32, used: u32)
    requires Inv(c) && id in c.ep.streams
    ensures Inv(c.(ep := UpdateOn(c.ep, id, used)))
  {
    UpdateLawful(c.ep.streams[id], used);
    var (s, fs) := SendWindowUpdate(c.ep.streams[id], used);
    var ep' := UpdateOn(c.ep, id, used);
    assert c.ep.out + fs + [] == c.ep.out + fs;
    StoreEffect(c.ep, s, fs, [], ep');
    EffectKeeps(c, ep', id, fs);
  }

  lemma WriteKeeps(c: Ctl, id: u32, data: seq<byte>)
    requires Inv(c) && id in c.ep.streams && |data| < U32_RANGE
    requires Write(c.ep.streams[id], data).Written?
    ensures var w := Write(c.ep.streams[id], data);
      Inv(c.(ep := Emit(c.ep.(streams := c.ep.streams[id := w.s]), w.frames)))
  {
    var w := Write(c.ep.streams[id], data);
    WriteLawful(c.ep.streams[id], data);
    var ep' := Emit(c.ep.(streams := c.ep.streams[id := w.s]), w.frames);
    assert w.s.id == id;
    assert c.ep.out + w.frames + [] == c.ep.out + w.frames;
    StoreEffect(c.ep, w.s, w.frames, [], ep');
    EffectKeeps(c, ep', id, w.frames);
  }

  lemma CloseKeeps(c: Ctl, id: u32)
    requires Inv(c) && id in c.ep.streams
    ensures Inv(c.(ep := CloseOn(c.ep, id)))
  {
    CloseLawful(c.ep.streams[id]);
    var r := Close(c.ep.streams[id]);
    var ep' := CloseOn(c.ep, id);
    assert c.ep.out + r.frames + [] == c.ep.out + r.frames;
    if r.remove {
      assert ep'.streams == c.ep.streams - {id};
      RemoveEffect(c.ep, id, r.frames, [], ep');
    } else {
      StoreEffect(c.ep, r.s, r.frames, [], ep');
    }
    EffectKeeps(c, ep', id, r.frames);
  }

  lemma DeleteKeeps(c: Ctl, id: u32)
    requires Inv(c)
    ensures Inv(c.(ep := DeleteStream(c.ep, id)))
  {
    var ep' := DeleteStream(c.ep, id);
    assert c.ep.out + [] + [] == c.ep.out;
    RemoveEffect(c.ep, id, [], [], ep');
    EffectKeeps(c, ep', id, []);
  }

  /** Starting over with the session ids needs none; going on with them needs one. */
  lemma ClearKeeps(c: Ctl, reset: bool)
    requires Inv(c)
    ensures Inv(ClearAll(c, reset)) <==> reset || c.nextId + 2 < U32_RANGE
  {
    var c' := ClearAll(c, reset);
    assert forall i: u32 :: OfStream(c'.ep.out, i) == [];
    assert !SentFin([]);
  }

  /** What a client's local connection is does not matter to the invariant. */
  lemma ClientsKeep(c: Ctl, clients: map<u32, Client>)
    requires Inv(c) && clients.Keys == c.ep.clients.Keys
    ensures Inv(c.(ep := c.ep.(clients := clients)))
  {
    var c' := c.(ep := c.ep.(clients := clients));
    forall i: u32 ensures Orderly(Lookup(c'.ep, i), OfStream(c'.ep.out, i)) {
      assert Lookup(c'.ep, i) == Lookup(c.ep, i);
    }
  }

  lemma TunnelKeeps(c: Ctl, id: u32, socks5: bool, reached: bool)
    requires Inv(c) && id in c.ep.clients
    ensures Inv(c.(ep := Tunnel(c.ep, id, socks5, reached)))
  {
    if socks5 || reached {
      ClientsKeep(c, Tunnel(c.ep, id, socks5, reached).clients);
    } else {
      DeleteKeeps(c, id);
    }
  }

  lemma LoseLocalKeeps(c: Ctl, id: u32)
    requires Inv(c) && id in c.ep.clients && id in c.ep.streams
    ensures Inv(c.(ep := LoseLocal(c.ep, id)))
  {
    CloseKeeps(c, id);
    var c1 := c.(ep := CloseOn(c.ep, id));
    ClientsKeep(c1, LoseLocal(c.ep, id).clients);
  }

  lemma FlushKeeps(c: Ctl, id: u32)
    requires Inv(c)
    ensures Inv(c.(ep := Flush(c.ep, id)))
  {
    if id in c.ep.streams && c.ep.streams[id].rx != [] {
      assert c.ep.out + [] + [] == c.ep.out;
      StoreEffect(c.ep, c.ep.streams[id].(rx := []), [], [], Flush(c.ep, id));
      EffectKeeps(c, Flush(c.ep, id), id, []);
    }
  }

  lemma HandOverKeeps(c: Ctl, f: Frame)
    requires Inv(c) && ForHandler(c.ep, f)
    ensures Inv(c.(ep := HandOver(c.ep, f)))
  {
    var s := c.ep.streams[f.hdr.id];
    FlagsLawful(s, f.hdr.flags);
    assert c.ep.out + [] + [] == c.ep.out;
    StoreEffect(c.ep, HandedOver(s, f), [], [], HandOver(c.ep, f));
    EffectKeeps(c, HandOver(c.ep, f), f.hdr.id, []);
  }

  lemma EndMessageKeeps(c: Ctl, id: u32, length: u32)
    requires Inv(c) && id in c.ep.streams
    ensures Inv(c.(ep := Emit(UpdateOn(c.ep, id, length), Complaint(length))))
  {
    UpdateKeeps(c, id, length);
    var c1 := c.(ep := UpdateOn(c.ep, id, length));
    var ep' := Emit(c1.ep, Complaint(length));
    NoEffect(c1.ep, Complaint(length), ep', id);
    EffectKeeps(c1, ep', id, []);
  }

  /** The operations that take a session id. */
  predicate TakesId(op: Op) {
    op.Connect? || op == Clear(false)
  }

  /** One step keeps the invariant exactly when it takes no id or one is left. */
  lemma StepKeeps(c: Ctl, op: Op)
    requires Inv(c)
    ensures var r := Step(c, op);
      r.Running? ==> (Inv(r.c) <==> (TakesId(op) ==> c.nextId + 2 < U32_RANGE))
  {
    if Step(c, op).Running? {
      match op
      case Connect => ConnectKeeps(c);
      case StartTunnel(id, socks5, reached) =>
        if id in c.ep.clients { TunnelKeeps(c, id, socks5, reached); }
      case LocalOpen(id) => FlushKeeps(c, id);
      case LocalLost(id) =>
        if id in c.ep.clients && id in c.ep.streams { LoseLocalKeeps(c, id); }
      case SendData(id, data) =>
        if id in c.ep.streams && |data| < U32_RANGE { WriteKeeps(c, id, data); }
      case OfferWindow(id, used) => if id in c.ep.streams { UpdateKeeps(c, id, used); }
      case CloseStream(id) => if id in c.ep.streams { CloseKeeps(c, id); }
      case Delete(id) => DeleteKeeps(c, id);
      case Arrive(f, handler) =>
        if WellFramed(f) {
          var fs := ArriveEffect(c.ep, f, handler);
          EffectKeeps(c, HandleFrame(c.ep, f, Dispatcher(Quiet(handler))).ep, f.hdr.id, fs);
        }
      case BeginMessage(f) => if ForHandler(c.ep, f) { HandOverKeeps(c, f); }
      case EndMessage(id, length) => if id in c.ep.streams { EndMessageKeeps(c, id, length); }
      case Clear(reset) => ClearKeeps(c, reset);
    }
  }

  // ---------------------------------------------------------------- whole runs

  function Exec(c: Ctl, ops: seq<Op>): Result
    decreases |ops|
  {
    if ops == [] then Running(c)
    else match Step(c, ops[0])
      case Stopped => Stopped
      case Running(c1) => Exec(c1, ops[1..])
  }

  /** The invariant holds in every state of the run. */
  ghost predicate InvAlong(c: Ctl, ops: seq<Op>)
    decreases |ops|
  {
    && Inv(c)
    && (ops != [] ==>
          match Step(c, ops[0])
          case Stopped => true
          case Running(c1) => InvAlong(c1, ops[1..]))
  }

  /** The session id handed out next after an operation, before it is cut to 32 bits. */
  function NextId(n: nat, op: Op): nat {
    match op
    case Connect => n + 2
    case Clear(reset) => if reset then 3 else n + 2
    case _ => n
  }

  /** Starting with session id n, no operation takes the last id of 32 bits. */
  predicate IdsLast(n: nat, ops: seq<Op>)
    decreases |ops|
  {
    ops != [] ==> (TakesId(ops[0]) ==> n + 2 < U32_RANGE) && IdsLast(NextId(n, ops[0]), ops[1..])
  }

  lemma StepNextId(c: Ctl, op: Op)
    requires TakesId(op) ==> c.nextId + 2 < U32_RANGE
    ensures Step(c, op).Running? ==> Step(c, op).c.nextId == NextId(c.nextId, op)
  {
  }

  /** The session ids decide: over a run that is not stopped by an assertion, the invariant
      holds throughout if and only if the ids last. */
  lemma {:induction false} RunKeeps(c: Ctl, ops: seq<Op>)
    requires Inv(c)
    ensures IdsLast(c.nextId, ops) ==> InvAlong(c, ops) && (Exec(c, ops).Running? ==> Inv(Exec(c, ops).c))
    ensures Exec(c, ops).Running? && InvAlong(c, ops) ==> IdsLast(c.nextId, ops)
    decreases |ops|
  {
    if ops != [] {
      StepKeeps(c, ops[0]);
      match Step(c, ops[0])
      case Stopped =>
      case Running(c1) =>
        if TakesId(ops[0]) ==> c.nextId + 2 < U32_RANGE {
          StepNextId(c, ops[0]);
          RunKeeps(c1, ops[1..]);
        } else {
          assert !Inv(c1) && !InvAlong(c1, ops[1..]);
        }
    }
  }

  lemma InitialInv()
    ensures Inv(Initial())
  {
    assert !SentFin([]);
  }

  /** Registry agreement over every run of connects, tunnels, local events, writes, closes,
      deletions, arriving frames of any kind and reconnects: it holds in every state if and
      only if no operation takes the last session id. A reconnect that resets the ids needs
      none, so only the sessions since the last one count. */
  lemma RegistryAgreement(ops: seq<Op>)
    ensures IdsLast(3, ops) ==> InvAlong(Initial(), ops)
    ensures Exec(Initial(), ops).Running? ==> (InvAlong(Initial(), ops) <==> IdsLast(3, ops))
    ensures var r := Exec(Initial(), ops); r.Running? && IdsLast(3, ops) ==>
      && KeysAgree(r.c)
      && forall i <- r.c.ep.streams :: r.c.ep.streams[i].id == i && i % 2 == 1 && i < r.c.nextId
  {
    InitialInv();
    RunKeeps(Initial(), ops);
  }

  /** Stream lifecycle over every run: on each connection the first frame a stream sends
      carries SYN and no later one does, no DATA frame follows a FIN the stream sent, and no
      stream left in the table is closed or reset. */
  lemma LawfulFrames(ops: seq<Op>, id: u32)
    requires IdsLast(3, ops)
    ensures var r := Exec(Initial(), ops); r.Running? ==>
      && WellOrdered(OfStream(r.c.ep.out, id))
      && (id in r.c.ep.streams ==>
            r.c.ep.streams[id].state != Closed && r.c.ep.streams[id].state != Reset)
  {
    InitialInv();
    RunKeeps(Initial(), ops);
    var r := Exec(Initial(), ops);
    if r.Running? {
      assert Orderly(Lookup(r.c.ep, id), OfStream(r.c.ep.out, id));
    }
  }

  /** Until it is re-initialised a stream's numeric state never decreases. */
  lemma StateNeverDecreases(c: Ctl, op: Op, id: u32)
    requires Inv(c) && !op.Clear?
    ensures NotLower(c, Step(c, op), id)
  {
    match op
    case SendData(_, _) => LocalNeverDecreases(c, op, id);
    case OfferWindow(_, _) => LocalNeverDecreases(c, op, id);
    case CloseStream(_) => ClosingNeverDecreases(c, op, id);
    case LocalLost(_) => ClosingNeverDecreases(c, op, id);
    case BeginMessage(f) => MessageNeverDecreases(c, op, id);
    case EndMessage(_, _) => MessageNeverDecreases(c, op, id);
    case Arrive(f, handler) => if WellFramed(f) { ArriveNeverDecreases(c, f, handler, id); }
    case _ =>
  }

  ghost predicate NotLower(c: Ctl, r: Result, id: u32) {
    r.Running? && id in c.ep.streams && id in r.c.ep.streams ==>
      Ord(c.ep.streams[id].state) <= Ord(r.c.ep.streams[id].state)
  }

  lemma LocalNeverDecreases(c: Ctl, op: Op, id: u32)
    requires Inv(c) && (op.SendData? || op.OfferWindow?)
    ensures NotLower(c, Step(c, op), id)
  {
    if id in c.ep.streams {
      match op
      case SendData(i, data) => if |data| < U32_RANGE { WriteLawful(c.ep.streams[id], data); }
      case OfferWindow(i, used) => UpdateLawful(c.ep.streams[id], used);
    }
  }

  lemma ClosingNeverDecreases(c: Ctl, op: Op, id: u32)
    requires Inv(c) && (op.CloseStream? || op.LocalLost?)
    ensures NotLower(c, Step(c, op), id)
  {
    if id in c.ep.streams {
      CloseLawful(c.ep.streams[id]);
    }
  }

  lemma MessageNeverDecreases(c: Ctl, op: Op, id: u32)
    requires Inv(c) && (op.BeginMessage? || op.EndMessage?)
    ensures NotLower(c, Step(c, op), id)
  {
    if id in c.ep.streams {
      match op
      case BeginMessage(f) => if ForHandler(c.ep, f) { FlagsLawful(c.ep.streams[f.hdr.id], f.hdr.flags); }
      case EndMessage(i, length) => UpdateLawful(c.ep.streams[id], length);
    }
  }

  lemma ArriveNeverDecreases(c: Ctl, f: Frame, handler: Socks5, id: u32)
    requires Inv(c) && WellFramed(f)
    ensures var r := HandleFrame(c.ep, f, Dispatcher(Quiet(handler)));
      r.Live? && id in c.ep.streams && id in r.ep.streams ==>
        Ord(c.ep.streams[id].state) <= Ord(r.ep.streams[id].state)
  {
    var r := HandleFrame(c.ep, f, Dispatcher(Quiet(handler)));
    if r.Live? && id in c.ep.streams && id in r.ep.streams {
      var fs := ArriveEffect(c.ep, f, handler);
      assert Lookup(r.ep, id) == Some(r.ep.streams[id]);
      assert id != f.hdr.id ==> Lookup(r.ep, id) == Lookup(c.ep, id);
    }
  }

  // ---------------------------------------------------------------- the ids run out

  /** n clients one after the other. */
  function Connects(n: nat): seq<Op> {
    seq(n, _ => Connect)
  }

  /** Clients that come and stay use up two numbers each. */
  lemma {:induction false} ConnectsLast(first: nat, n: nat)
    requires first % 2 == 1 && first < U32_RANGE
    ensures IdsLast(first, Connects(n)) <==> first + 2 * n < U32_RANGE
    decreases n
  {
    if n > 0 {
      assert Connects(n)[1..] == Connects(n - 1);
      if first + 2 < U32_RANGE {
        ConnectsLast(first + 2, n - 1);
      }
    }
  }

  lemma {:induction false} ConnectsRun(c: Ctl, n: nat)
    ensures Exec(c, Connects(n)).Running?
    decreases n
  {
    if n > 0 {
      assert Connects(n)[1..] == Connects(n - 1);
      ConnectsRun(ConnectClient(c), n - 1);
    }
  }

  predicate KeysAgree(c: Ctl) {
    c.ep.clients.Keys == c.ep.streams.Keys - {c.ctlId}
  }

  /** A connect keeps the keys of the tables in agreement exactly unless it takes the control
      stream's id, and the frames of the id it takes in order exactly if there are none: the
      id must be one that nobody has used on this connection. */
  lemma ConnectCollidesIff(c: Ctl)
    requires KeysAgree(c)
    ensures var c', id := ConnectClient(c), c.nextId;
      && (KeysAgree(c') <==> id != c.ctlId)
      && (WellOrdered(OfStream(c'.ep.out, id)) <==> OfStream(c.ep.out, id) == [])
  {
    var id, f := c.nextId, WindowFrame(SYN, c.nextId, 0);
    ConnectAdds(c);
    OfStreamAppend(c.ep.out, [f], id);
    OfStreamOne(f, id);
    SecondSyn(OfStream(c.ep.out, id), f);
  }

  lemma ConnectAdds(c: Ctl)
    ensures var c' := ConnectClient(c);
      && c'.ctlId == c.ctlId && c'.nextId == Wrap(c.nextId + 2)
      && c'.ep.streams.Keys == c.ep.streams.Keys + {c.nextId}
      && c'.ep.clients.Keys == c.ep.clients.Keys + {c.nextId}
      && c'.ep.out == c.ep.out + [WindowFrame(SYN, c.nextId, 0)]
  {
    assert SendWindowUpdate(NewStream(c.nextId), 0).1 == [WindowFrame(SYN, c.nextId, 0)];
  }

  lemma SecondSyn(fs: seq<Frame>, f: Frame)
    requires HasSyn(f.hdr.flags)
    ensures WellOrdered(fs + [f]) <==> fs == []
  {
    assert (fs + [f])[|fs|] == f;
  }

  lemma NextWrap(x: nat)
    ensures Wrap(Wrap(x) + 2) == Wrap(x + 2)
  {
  }

  /** k clients so far: the last but one id of 32 bits is followed by the control stream's. */
  predicate Connected(c: Ctl, k: nat) {
    && c.ctlId == 1 && c.nextId == Wrap(3 + 2 * k)
    && (KeysAgree(c) <==> k <= 0x7FFF_FFFF)
    && (1 in c.ep.clients <==> k > 0x7FFF_FFFF)
  }

  lemma {:induction false} ConnectsAgree(c: Ctl, k: nat, n: nat)
    requires Connected(c, k)
    ensures Exec(c, Connects(n)).Running? && Connected(Exec(c, Connects(n)).c, k + n)
    decreases n
  {
    if n > 0 {
      assert Connects(n)[1..] == Connects(n - 1);
      ConnectedStep(c, k);
      ConnectsAgree(ConnectClient(c), k + 1, n - 1);
    }
  }

  lemma ConnectedStep(c: Ctl, k: nat)
    requires Connected(c, k)
    ensures Connected(ConnectClient(c), k + 1)
  {
    NextWrap(3 + 2 * k);
    ConnectAdds(c);
    if KeysAgree(c) {
      ConnectCollidesIff(c);
    }
  }

  /** Session ids start over at the end of the 32-bit range: without a reconnect all invariants
      hold for exactly 2^31 - 2 clients. */
  lemma SessionIdsWrap(n: nat)
    ensures InvAlong(Initial(), Connects(n)) <==> n <= 0x7FFF_FFFE
  {
    RegistryAgreement(Connects(n));
    ConnectsRun(Initial(), n);
    ConnectsLast(3, n);
  }

  /** The last but one id is followed by the control stream's: the client after 2^31 - 1 others
      is given it, and from then on the tables do not agree. */
  lemma ControlIdTaken(n: nat)
    ensures var r := Exec(Initial(), Connects(n));
      && r.Running?
      && (KeysAgree(r.c) <==> n <= 0x7FFF_FFFF)
      && (r.c.ctlId in r.c.ep.clients <==> n > 0x7FFF_FFFF)
  {
    ConnectsAgree(Initial(), 0, n);
  }
}
