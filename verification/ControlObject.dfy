/** The stream and client tables as two hash tables over one memory, and the session counter. */
module ControlObjects {
  import opened Seqs
  import opened Wire
  import opened Streams
  import opened Mux
  import opened Control
  import opened UtHash
  import opened UtHashObjects

  /** The address of the control stream. A client and the stream inside it have one address. */
  const MAIN: Ptr := 1

  // ---------------------------------------------------------------- tables as maps

  /** The elements of a hash table and what is stored at them are the map m. */
  ghost predicate Holds<V>(order: seq<Ptr>, key: map<Ptr, u32>, mem: map<Ptr, V>, m: map<u32, V>) {
    && (forall x <- order :: x in key && x in mem && key[x] in m && m[key[x]] == mem[x])
    && (forall k <- m :: exists x :: x in order && x in key && key[x] == k)
  }

  ghost predicate Injective(order: seq<Ptr>, key: map<Ptr, u32>) {
    && (forall x <- order :: x in key)
    && (forall x <- order, y <- order :: key[x] == key[y] ==> x == y)
    && (forall i, j :: 0 <= i < j < |order| ==> order[i] != order[j])
  }

  lemma HoldsAdd<V>(order: seq<Ptr>, key: map<Ptr, u32>, mem: map<Ptr, V>, m: map<u32, V>, x: Ptr, k: u32, v: V)
    requires Holds(order, key, mem, m) && x !in order && k !in m
    ensures Holds(order + [x], key[x := k], mem[x := v], m[k := v])
  {
    var order', key', m' := order + [x], key[x := k], m[k := v];
    assert x in order';
    forall i <- m' ensures exists y :: y in order' && y in key' && key'[y] == i {
      if i != k {
        var y :| y in order && y in key && key[y] == i;
        assert y in order' && key'[y] == i;
      }
    }
  }

  /** The place of the element with key k, or the length of the list. */
  ghost function PlaceOf(order: seq<Ptr>, key: map<Ptr, u32>, k: u32): (a: nat)
    requires forall x <- order :: x in key
    ensures a <= |order|
    ensures a < |order| ==> key[order[a]] == k
    ensures a == |order| ==> forall x <- order :: key[x] != k
  {
    if exists a :: 0 <= a < |order| && key[order[a]] == k
    then var a :| 0 <= a < |order| && key[order[a]] == k; a
    else |order|
  }

  /** The list without the element of key k, if there is one. */
  ghost function Removal(order: seq<Ptr>, key: map<Ptr, u32>, k: u32): seq<Ptr>
    requires forall x <- order :: x in key
  {
    var a := PlaceOf(order, key, k);
    if a < |order| then Without(order, a) else order
  }

  lemma HoldsRemoved<V>(order: seq<Ptr>, key: map<Ptr, u32>, mem: map<Ptr, V>, m: map<u32, V>, k: u32)
    requires Holds(order, key, mem, m) && Injective(order, key)
    ensures Holds(Removal(order, key, k), key, mem, m - {k})
  {
    var a, order' := PlaceOf(order, key, k), Removal(order, key, k);
    if a == |order| {
      assert k !in m;
      assert m - {k} == m;
    } else {
      WithoutIn(order, a);
      forall x <- order' ensures key[x] in m - {k} {
        assert x in order && order[a] in order;
      }
      forall i <- m - {k} ensures exists y :: y in order' && y in key && key[y] == i {
        var y :| y in order && y in key && key[y] == i;
        assert y != order[a];
        assert y in order';
      }
    }
  }

  // ---------------------------------------------------------------- agreement of the tables

  /** The stream table lists the control stream, unless it is gone, and then the clients as
      the client table lists them, under the same keys. */
  ghost predicate Twins(main: seq<Ptr>, streams: seq<Ptr>, streamKey: map<Ptr, u32>, clients: seq<Ptr>,
                        clientKey: map<Ptr, u32>)
  {
    && (main == [] || main == [MAIN])
    && streams == main + clients && MAIN !in clients
    && forall x <- clients :: x in streamKey && x in clientKey && streamKey[x] == clientKey[x]
  }

  lemma TwinsAdd(main: seq<Ptr>, streams: seq<Ptr>, streamKey: map<Ptr, u32>, clients: seq<Ptr>,
                 clientKey: map<Ptr, u32>, x: Ptr, k: u32)
    requires Twins(main, streams, streamKey, clients, clientKey) && x != MAIN && x !in streams
    ensures Twins(main, streams + [x], streamKey[x := k], clients + [x], clientKey[x := k])
  {
    Assoc(main, clients, [x]);
    forall y <- clients ensures y != x {
      assert y in streams;
    }
  }

  /** Taking the same key out of both tables takes out the same element. */
  lemma TwinsRemoved(main: seq<Ptr>, streams: seq<Ptr>, streamKey: map<Ptr, u32>, clients: seq<Ptr>,
                     clientKey: map<Ptr, u32>, k: u32)
    requires Twins(main, streams, streamKey, clients, clientKey) && Injective(streams, streamKey)
    ensures main != [] ==> MAIN in streamKey
    ensures Twins(if main != [] && streamKey[MAIN] == k then [] else main,
                  Removal(streams, streamKey, k), streamKey, Removal(clients, clientKey, k), clientKey)
  {
    var a, c := PlaceOf(streams, streamKey, k), PlaceOf(clients, clientKey, k);
    SamePlace(main, streams, streamKey, clients, clientKey, k);
    assert main != [] ==> streams[0] == MAIN && MAIN in streams;
    if a < |streams| {
      assert streams[a] in streams;
      WithoutParts(main, clients, a);
      assert forall y :: c < |clients| && y in Without(clients, c) ==> y in clients;
    }
  }

  lemma WithoutParts(main: seq<Ptr>, clients: seq<Ptr>, a: nat)
    requires |main| <= 1 && a < |main + clients|
    ensures Without(main + clients, a) == if a < |main| then clients else main + Without(clients, a - |main|)
  {
  }

  lemma SamePlace(main: seq<Ptr>, streams: seq<Ptr>, streamKey: map<Ptr, u32>, clients: seq<Ptr>,
                  clientKey: map<Ptr, u32>, k: u32)
    requires Twins(main, streams, streamKey, clients, clientKey) && Injective(streams, streamKey)
    ensures var a, c := PlaceOf(streams, streamKey, k), PlaceOf(clients, clientKey, k);
      if a < |main| then c == |clients| else c == a - |main|
  {
    var a, c := PlaceOf(streams, streamKey, k), PlaceOf(clients, clientKey, k);
    if c < |clients| {
      assert clients[c] in clients && streams[|main| + c] == clients[c];
      assert streamKey[streams[|main| + c]] == k;
      assert streams[a] in streams && streams[|main| + c] in streams;
      assert streams[a] == streams[|main| + c];
    }
  }

  // ---------------------------------------------------------------- both tables as a value

  /** The lists and keys of both hash tables, the memory behind them, and the maps they hold. */
  datatype Tables = Tables(main: seq<Ptr>, order: seq<Ptr>, key: map<Ptr, u32>, pcs: seq<Ptr>,
                           pcKey: map<Ptr, u32>, stream: map<Ptr, Stream>, pc: map<Ptr, Client>,
                           streams: map<u32, Stream>, clients: map<u32, Client>)

  ghost predicate Consistent(t: Tables) {
    && Holds(t.order, t.key, t.stream, t.streams) && Holds(t.pcs, t.pcKey, t.pc, t.clients)
    && Twins(t.main, t.order, t.key, t.pcs, t.pcKey)
  }

  /** The invariant, to be carried around without looking inside. */
  ghost function Checked(): Tables -> bool {
    (t: Tables) => Consistent(t)
  }

  /** k may be added to a table at x. */
  ghost predicate Free(order: seq<Ptr>, key: map<Ptr, u32>, x: Ptr, k: u32) {
    x != NULL && x !in order && forall y <- order :: y in key && key[y] != k
  }

  /** Every client has a stream. */
  lemma ClientIds(t: Tables)
    requires Consistent(t)
    ensures forall k <- t.clients :: k in t.streams
    ensures forall x <- t.pcs :: x in t.order
  {
    forall k <- t.clients ensures k in t.streams {
      var x :| x in t.pcs && x in t.pcKey && t.pcKey[x] == k;
      assert x in t.order;
    }
  }

  /** The agreement of the hash tables is that of the registry: the clients are the streams
      without the control stream. */
  lemma TablesAgree(t: Tables, k: u32)
    requires Consistent(t) && Injective(t.order, t.key)
    ensures t.main != [] ==> MAIN in t.key
    ensures k in t.clients <==> k in t.streams && !(t.main != [] && t.key[MAIN] == k)
  {
    ClientIds(t);
    assert t.main != [] ==> t.order[0] == MAIN && MAIN in t.order;
    if k in t.clients {
      var x :| x in t.pcs && x in t.pcKey && t.pcKey[x] == k;
      assert x in t.order && x != MAIN;
    }
    if k in t.streams && !(t.main != [] && t.key[MAIN] == k) {
      var x :| x in t.order && x in t.key && t.key[x] == k;
      assert x in t.main || x in t.pcs;
    }
  }

  ghost function Connected(t: Tables, x: Ptr, id: u32, s: Stream): Tables {
    t.(order := t.order + [x], key := t.key[x := id], pcs := t.pcs + [x],
       pcKey := t.pcKey[x := id], stream := t.stream[x := s], pc := t.pc[x := Client(false, false)],
       streams := t.streams[id := s], clients := t.clients[id := Client(false, false)])
  }

  lemma PlanConnect(t: Tables, x: Ptr, id: u32, s: Stream)
    requires Checked()(t) && x != NULL && x != MAIN && x !in t.order && id !in t.streams
    ensures Free(t.order, t.key, x, id) && Free(t.pcs, t.pcKey, x, id)
    ensures Checked()(Connected(t, x, id, s))
  {
    ClientIds(t);
    TwinsAdd(t.main, t.order, t.key, t.pcs, t.pcKey, x, id);
    HoldsAdd(t.order, t.key, t.stream, t.streams, x, id, s);
    HoldsAdd(t.pcs, t.pcKey, t.pc, t.clients, x, id, Client(false, false));
  }

  ghost function Dropped(t: Tables, id: u32, main': seq<Ptr>): Tables
    requires (forall x <- t.order :: x in t.key) && (forall x <- t.pcs :: x in t.pcKey)
  {
    t.(main := main', order := Removal(t.order, t.key, id), pcs := Removal(t.pcs, t.pcKey, id),
       streams := t.streams - {id}, clients := t.clients - {id})
  }

  lemma PlanRemove(t: Tables, id: u32) returns (main': seq<Ptr>)
    requires Checked()(t) && Injective(t.order, t.key) && Injective(t.pcs, t.pcKey)
    ensures Checked()(Dropped(t, id, main'))
  {
    HoldsRemoved(t.order, t.key, t.stream, t.streams, id);
    HoldsRemoved(t.pcs, t.pcKey, t.pc, t.clients, id);
    TwinsRemoved(t.main, t.order, t.key, t.pcs, t.pcKey, id);
    main' := if t.main != [] && t.key[MAIN] == id then [] else t.main;
  }

  ghost function WithMain(t: Tables, id: u32): Tables {
    t.(main := [MAIN], order := [MAIN], key := t.key[MAIN := id], stream := t.stream[MAIN := NewStream(id)],
       streams := map[id := NewStream(id)], clients := map[])
  }

  lemma PlanMain(t: Tables, id: u32)
    requires t.pcs == []
    ensures Checked()(WithMain(t, id))
  {
    HoldsAdd([], t.key, t.stream, map[], MAIN, id, NewStream(id));
    assert [] + [MAIN] == [MAIN];
  }

  /** The registry's step, with the window update worked out. */
  lemma ConnectView(c: Ctl, ep': Endpoint)
    requires var (s, fs) := SendWindowUpdate(NewStream(c.nextId), 0);
      && ep'.streams == c.ep.streams[c.nextId := s]
      && ep'.clients == c.ep.clients[c.nextId := Client(false, false)]
      && ep'.out == c.ep.out + fs && ep'.log == c.ep.log && ep'.remoteGoAway == c.ep.remoteGoAway
    ensures Ctl(ep', c.ctlId, Wrap(c.nextId + 2)) == ConnectClient(c)
  {
    var id := c.nextId;
    var s := SendWindowUpdate(NewStream(id), 0).0;
    assert c.ep.streams[id := NewStream(id)][id := s] == c.ep.streams[id := s];
  }

  /** Lookup by id finds what the maps hold. */
  lemma PlanFind(t: Tables, id: u32, x: Ptr)
    requires Checked()(t)
    requires (x == NULL && forall y <- t.order :: y in t.key && t.key[y] != id) ||
             (x in t.order && x in t.key && t.key[x] == id && x != NULL)
    ensures x == NULL <==> id !in t.streams
    ensures x != NULL ==> x in t.stream && t.stream[x] == t.streams[id]
  {
  }

  // ---------------------------------------------------------------- the object

  class ControlObject {
    const allStream: HashTable<u32>
    const allPc: HashTable<u32>
    var stream: map<Ptr, Stream>
    var pc: map<Ptr, Client>
    var ctlId: u32
    var sessionId: u32
    var out: seq<Frame>
    var log: seq<Event>
    var remoteGoAway: bool
    ghost var main: seq<Ptr>
    ghost var streams: map<u32, Stream>
    ghost var clients: map<u32, Client>

    ghost function Now(): Tables
      reads this, allStream, allPc
    {
      Tables(main, allStream.order, allStream.key, allPc.order, allPc.key, stream, pc, streams, clients)
    }

    /** Both hash tables are sound, hold the maps of the registry and agree on the clients. */
    ghost predicate Valid()
      reads this, allStream, allPc
    {
      allStream != allPc && allStream.Valid() && allPc.Valid() && Checked()(Now())
    }

    ghost function View(): Ctl
      reads this
    {
      Ctl(Endpoint(streams, clients, out, log, remoteGoAway), ctlId, sessionId)
    }

    constructor (hash: u32 -> nat)
      ensures Valid() && allStream.order == [] && allPc.order == [] && fresh(allStream) && fresh(allPc)
      ensures View() == Ctl(Endpoint(map[], map[], [], [], false), 0, 1)
    {
      allStream := new HashTable<u32>(hash);
      allPc := new HashTable<u32>(hash);
      stream, pc := map[], map[];
      ctlId, sessionId := 0, 1;
      out, log, remoteGoAway := [], [], false;
      main, streams, clients := [], map[], map[];
    }

    /** HASH_ADD_INT. */
    static method AddKey(t: HashTable<u32>, x: Ptr, id: u32)
      requires t.Valid() && Free(t.order, t.key, x, id)
      modifies t
      ensures t.Valid() && t.order == old(t.order) + [x] && t.key == old(t.key)[x := id]
    {
      forall i | 0 <= i < |t.order| ensures t.Keys()[i] != id {
        assert t.order[i] in t.order;
      }
      t.Add(id, x);
    }

    /** HASH_FIND_INT and HASH_DEL. */
    static method RemoveKey(t: HashTable<u32>, id: u32)
      requires t.Valid() && forall x <- t.order :: x in t.key
      modifies t
      ensures t.Valid() && t.key == old(t.key)
      ensures t.order == Removal(old(t.order), old(t.key), id)
    {
      t.Distinct();
      var x := t.Find(id);
      if x != NULL {
        ghost var a := PlaceOf(t.order, t.key, id);
        t.Delete(x, a);
      }
    }

    method GetNextSessionId() returns (id: u32)
      modifies this`sessionId
      ensures id == old(sessionId) && sessionId == Wrap(old(sessionId) + 2)
    {
      id := sessionId;
      sessionId := Wrap(sessionId + 2);
    }

    /** Lookup by id finds the stream of the registry, or nothing exactly if it has none. */
    method GetStreamById(id: u32) returns (x: Ptr)
      requires Valid()
      ensures x == NULL <==> id !in View().ep.streams
      ensures x != NULL ==> x in stream && stream[x] == View().ep.streams[id]
    {
      x := allStream.Find(id);
      allStream.Distinct();
      PlanFind(Now(), id, x);
    }

    /** A new work connection at a fresh address: one step of the registry. */
    method NewClientConnect(x: Ptr)
      requires Valid() && x != NULL && x != MAIN && x !in allStream.order && sessionId !in streams
      modifies this, allStream, allPc
      ensures Valid() && View() == ConnectClient(old(View())) && allPc.order == old(allPc.order) + [x]
    {
      PlanConnect(Now(), x, sessionId, SendWindowUpdate(NewStream(sessionId), 0).0);
      Enroll(x, Checked());
    }

    /** `ok` stands for the invariant of the tables, which is not looked into. */
    method Enroll(x: Ptr, ghost ok: Tables -> bool)
      requires allStream != allPc && allStream.Valid() && allPc.Valid()
      requires ok(Connected(Now(), x, sessionId, SendWindowUpdate(NewStream(sessionId), 0).0))
      requires Free(allStream.order, allStream.key, x, sessionId) && Free(allPc.order, allPc.key, x, sessionId)
      modifies this, allStream, allPc
      ensures allStream.Valid() && allPc.Valid() && ok(Now()) && allPc.order == old(allPc.order) + [x]
      ensures View() == ConnectClient(old(View()))
    {
      ghost var c := View();
      FillIn(x, ok);
      ConnectView(c, View().ep);
    }

    method FillIn(x: Ptr, ghost ok: Tables -> bool)
      requires allStream != allPc && allStream.Valid() && allPc.Valid()
      requires ok(Connected(Now(), x, sessionId, SendWindowUpdate(NewStream(sessionId), 0).0))
      requires Free(allStream.order, allStream.key, x, sessionId) && Free(allPc.order, allPc.key, x, sessionId)
      modifies this`stream, this`pc, this`streams, this`clients, this`sessionId, this`out, allStream, allPc
      ensures allStream.Valid() && allPc.Valid() && ok(Now()) && allPc.order == old(allPc.order) + [x]
      ensures var (s, fs) := SendWindowUpdate(NewStream(old(sessionId)), 0);
        && streams == old(streams)[old(sessionId) := s] && out == old(out) + fs
        && clients == old(clients)[old(sessionId) := Client(false, false)]
        && sessionId == Wrap(old(sessionId) + 2)
    {
      var id := GetNextSessionId();
      var (s, fs) := SendWindowUpdate(NewStream(id), 0);
      out := out + fs;
      NewProxyClient(x, id, s, ok);
    }

    /** A client and its stream, after the window update, in memory and in both tables. */
    method NewProxyClient(x: Ptr, id: u32, s: Stream, ghost ok: Tables -> bool)
      requires allStream != allPc && allStream.Valid() && allPc.Valid() && ok(Connected(Now(), x, id, s))
      requires Free(allStream.order, allStream.key, x, id) && Free(allPc.order, allPc.key, x, id)
      modifies this`stream, this`pc, this`streams, this`clients, allStream, allPc
      ensures allStream.Valid() && allPc.Valid() && ok(Now()) && allPc.order == old(allPc.order) + [x]
      ensures streams == old(streams)[id := s] && clients == old(clients)[id := Client(false, false)]
    {
      stream, pc := stream[x := s], pc[x := Client(false, false)];
      streams, clients := streams[id := s], clients[id := Client(false, false)];
      AddBoth(x, id);
    }

    /** Both tables get the client under one id. */
    method AddBoth(x: Ptr, id: u32)
      requires allStream != allPc && allStream.Valid() && allPc.Valid()
      requires Free(allStream.order, allStream.key, x, id) && Free(allPc.order, allPc.key, x, id)
      modifies allStream, allPc
      ensures allStream.Valid() && allPc.Valid()
      ensures allStream.order == old(allStream.order) + [x] && allStream.key == old(allStream.key)[x := id]
      ensures allPc.order == old(allPc.order) + [x] && allPc.key == old(allPc.key)[x := id]
    {
      AddKey(allStream, x, id);
      AddKey(allPc, x, id);
    }

    /** The stream and the client of an id go together, in both tables. */
    method DelProxyClientByStreamId(id: u32)
      requires Valid()
      modifies this, allStream, allPc
      ensures Valid() && View() == old(View()).(ep := DeleteStream(old(View()).ep, id))
    {
      allStream.Distinct();
      allPc.Distinct();
      ghost var main' := PlanRemove(Now(), id);
      Drop(id, main', Checked());
    }

    method Drop(id: u32, ghost main': seq<Ptr>, ghost ok: Tables -> bool)
      requires allStream != allPc && allStream.Valid() && allPc.Valid()
      requires (forall x <- allStream.order :: x in allStream.key) && (forall x <- allPc.order :: x in allPc.key)
      requires ok(Dropped(Now(), id, main'))
      modifies this`main, this`streams, this`clients, allStream, allPc
      ensures allStream.Valid() && allPc.Valid() && ok(Now())
      ensures streams == old(streams) - {id} && clients == old(clients) - {id}
    {
      main, streams, clients := main', streams - {id}, clients - {id};
      RemoveBoth(id);
    }

    method RemoveBoth(id: u32)
      requires allStream != allPc && allStream.Valid() && allPc.Valid()
      requires (forall x <- allStream.order :: x in allStream.key) && (forall x <- allPc.order :: x in allPc.key)
      modifies allStream, allPc
      ensures allStream.Valid() && allPc.Valid()
      ensures allStream.key == old(allStream.key) && allPc.key == old(allPc.key)
      ensures allStream.order == Removal(old(allStream.order), old(allStream.key), id)
      ensures allPc.order == Removal(old(allPc.order), old(allPc.key), id)
    {
      RemoveKey(allStream, id);
      RemoveKey(allPc, id);
    }

    /** HASH_ITER: the clients are taken out one at a time while the list is walked. */
    static method DelAll(t: HashTable<u32>)
      requires t.Valid()
      modifies t
      ensures t.Valid() && t.order == []
    {
      var client := t.head;
      var tmp := NextOf(t, client, 0);
      while client != NULL
        invariant t.Valid() && client == First(t.order) && tmp == NextIn(t.order, 0)
        decreases |t.order|
      {
        t.Delete(client, 0);
        client := tmp;
        tmp := NextOf(t, client, 0);
      }
    }

    static method NextOf(t: HashTable<u32>, x: Ptr, ghost i: nat) returns (next: Ptr)
      requires t.Valid() && x == if i < |t.order| then t.order[i] else NULL
      ensures next == NextIn(t.order, i)
    {
      t.Threads();
      next := NULL;
      if x != NULL {
        next := t.app[x].next;
      }
    }

    method ClearAllProxyClient()
      requires allStream != allPc && allStream.Valid() && allPc.Valid()
      modifies allStream, allPc
      ensures allStream.Valid() && allPc.Valid() && allStream.order == [] && allPc.order == []
    {
      allStream.Clear();
      DelAll(allPc);
    }

    /** The control stream, in empty tables. */
    method InitMainStream(id: u32, ghost ok: Tables -> bool)
      requires allStream != allPc && allStream.Valid() && allPc.Valid() && ok(WithMain(Now(), id))
      requires allStream.order == [] && allPc.order == []
      modifies this`stream, this`streams, this`clients, this`main, allStream
      ensures allStream.Valid() && ok(Now())
      ensures streams == map[id := NewStream(id)] && clients == map[]
    {
      stream := stream[MAIN := NewStream(id)];
      main, streams, clients := [MAIN], map[id := NewStream(id)], map[];
      AddKey(allStream, MAIN, id);
      assert allStream.order == [MAIN];
    }

    /** The first connection. */
    method InitMainControl()
      requires Valid() && View() == Ctl(Endpoint(map[], map[], [], [], false), 0, 1)
      requires allStream.order == [] && allPc.order == []
      modifies this, allStream
      ensures Valid() && View() == Initial()
    {
      ctlId := GetNextSessionId();
      PlanMain(Now(), ctlId);
      InitMainStream(ctlId, Checked());
    }

    /** Reconnection: `reset` starts the session ids over first. The frames of the old
        connection are gone with it. */
    method ClearMainControl(reset: bool)
      requires Valid()
      modifies this, allStream, allPc
      ensures Valid() && View() == ClearAll(old(View()), reset)
    {
      forall t: Tables, id | t.pcs == [] ensures Checked()(WithMain(t, id)) {
        PlanMain(t, id);
      }
      Restart(reset, Checked());
    }

    method Restart(reset: bool, ghost ok: Tables -> bool)
      requires allStream != allPc && allStream.Valid() && allPc.Valid()
      requires forall t: Tables, id :: t.pcs == [] ==> ok(WithMain(t, id))
      modifies this, allStream, allPc
      ensures allStream.Valid() && allPc.Valid() && ok(Now()) && View() == ClearAll(old(View()), reset)
    {
      ClearAllProxyClient();
      StartOver(reset);
      InitMainStream(ctlId, ok);
    }

    method StartOver(reset: bool)
      modifies this`sessionId, this`ctlId, this`out
      ensures ctlId == (if reset then 1 else old(sessionId)) && sessionId == Wrap(ctlId + 2) && out == []
    {
      if reset {
        sessionId := 1;
      }
      ctlId := GetNextSessionId();
      out := [];
    }
  }
}
