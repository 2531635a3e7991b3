/** HASH_ADD, HASH_FIND, HASH_DELETE, HASH_EXPAND_BUCKETS and HASH_FSCK as methods. */
module UtHashObjects {
  import opened Seqs
  import opened UtHash
  import opened UtHashExpand
  import opened UtHashTables

  ghost function KeysOf<K>(key: map<Ptr, K>, order: seq<Ptr>): (r: seq<K>)
    requires forall x <- order :: x in key
    ensures |r| == |order|
    ensures forall i :: 0 <= i < |order| ==> r[i] == key[order[i]]
  {
    seq(|order|, i requires 0 <= i < |order| => (assert order[i] in order; key[order[i]]))
  }

  /** An element is in the list exactly when it is in the chain that its key leads to. */
  lemma FoundIff<K>(hash: K -> nat, app: Links, bkt: Links, hashv: map<Ptr, nat>, key: map<Ptr, K>,
                    order: seq<Ptr>, chains: seq<seq<Ptr>>, k: K)
    requires Sound(hash, app, bkt, hashv, key, order, chains)
    ensures var s := chains[Slot(hash(k), |chains|)];
      && Threaded(bkt, s) && (forall x <- s :: x in key && x in order)
      && (k in KeysOf(key, order) <==> exists x :: x in s && key[x] == k)
  {
    var b := Slot(hash(k), |chains|);
    var s, ks := chains[b], KeysOf(key, order);
    assert Threaded(bkt, s);
    if k in ks {
      var i :| 0 <= i < |ks| && ks[i] == k;
      assert order[i] in order;
      assert order[i] in s;
    }
    if x :| x in s && key[x] == k {
      assert x in order;
      var i :| 0 <= i < |order| && order[i] == x;
      assert ks[i] == k;
    }
  }

  class HashTable<K(==)> {
    const hash: K -> nat
    var head: Ptr
    var app: Links
    var bkt: Links
    var hashv: map<Ptr, nat>
    var key: map<Ptr, K>
    var tail: Ptr
    var buckets: seq<Bucket>
    var numBuckets: nat
    var log2: nat
    var numItems: nat
    var idealChainMaxlen: nat
    var nonidealItems: nat
    var ineffExpands: nat
    var noexpand: bool
    ghost var order: seq<Ptr>
    ghost var chains: seq<seq<Ptr>>

    ghost predicate Valid()
      reads this
    {
      && head == First(order)
      && Checks(hash, hashv, key)(Now())
      && (head != NULL ==> Built(buckets, chains, numBuckets, log2) && numItems == |order| && tail == Last(order))
    }

    ghost function Now(): Shape
      reads this
    {
      Shape(app, bkt, order, chains)
    }

    /** The keys in the order of the application. */
    ghost function Keys(): seq<K>
      requires Valid()
      reads this
    {
      KeysOf(key, order)
    }

    constructor (hash: K -> nat)
      ensures Valid() && order == [] && this.hash == hash
    {
      this.hash := hash;
      head, order, chains := NULL, [], [[]];
      new;
      PlanEmpty(hash, hashv, key, Now());
    }

    /** HASH_TO_BKT, for a power of two. */
    static method BucketOf(h: nat, n: nat, ghost log: nat) returns (b: nat)
      requires n == Pow2(log)
      ensures b == Slot(h, n) && b < n
    {
      MaskIsRemainder(h, log);
      b := ToBucket(h, n);
    }

    // -------------------------------------------------------------- find

    static method FindInBkt(bkt: Links, key: map<Ptr, K>, first: Ptr, k: K, ghost s: seq<Ptr>)
      returns (out: Ptr)
      requires Threaded(bkt, s) && first == First(s) && forall x <- s :: x in key
      ensures out == NULL <==> forall x <- s :: key[x] != k
      ensures out != NULL ==> out in s && key[out] == k
    {
      out := first;
      ghost var p := 0;
      while out != NULL && key[out] != k
        invariant 0 <= p <= |s| && out == if p < |s| then s[p] else NULL
        invariant forall i :: 0 <= i < p ==> key[s[i]] != k
        decreases |s| - p
      {
        out := bkt[out].next;
        p := p + 1;
      }
    }

    /** The element with key k, or NULL: lookup agrees with the list. */
    method Find(k: K) returns (out: Ptr)
      requires Valid()
      ensures out == NULL <==> k !in Keys()
      ensures out != NULL ==> out in order && out in key && key[out] == k
      ensures out == NULL ==> forall x <- order :: x in key && key[x] != k
    {
      FoundIff(hash, app, bkt, hashv, key, order, chains, k);
      out := NULL;
      if head != NULL {
        var b := BucketOf(hash(k), numBuckets, log2);
        out := FindInBkt(bkt, key, buckets[b].hhHead, k, chains[b]);
      }
      if out == NULL {
        AbsentKey(key, order, k);
      }
    }

    /** Every element and every key is there once. */
    lemma Threads()
      requires Valid()
      ensures Threaded(app, order)
    {
    }

    lemma Distinct()
      requires Valid()
      ensures forall x <- order :: x in key && x != NULL
      ensures forall x <- order, y <- order :: key[x] == key[y] ==> x == y
      ensures forall i, j :: 0 <= i < j < |order| ==> order[i] != order[j]
    {
    }

    // -------------------------------------------------------------- expansion

    /** Moves an element, the first of what is left of an old chain, into its new bucket. */
    method MoveElement(thh: Ptr, bs: seq<Bucket>, ghost log: nat, ghost j: nat, ghost rest: seq<seq<Ptr>>,
                       ghost s: seq<Ptr>, ghost moved: seq<seq<Ptr>>)
      returns (bs': seq<Bucket>, ghost moved': seq<seq<Ptr>>)
      requires j < |rest| && |moved| == Pow2(log) && s != [] && thh == s[0] && thh in hashv
      requires Expanding(bkt, hashv, order, rest[j := s], moved) && Agree(bs, moved) && idealChainMaxlen > 0
      modifies this`bkt, this`nonidealItems
      ensures |moved'| == |moved|
      ensures Expanding(bkt, hashv, order, rest[j := s[1..]], moved') && Agree(bs', moved')
    {
      var b := BucketOf(hashv[thh], |bs|, log);
      MoveNext(bkt, hashv, order, rest, s, moved, j, b);
      var r := WithFront(bs[b], thh, idealChainMaxlen);
      AgreePush(bs, moved, b, thh, r);
      if r.count > idealChainMaxlen {
        nonidealItems := nonidealItems + 1;
      }
      bkt := PushedFront(bkt, bs[b].hhHead, thh);
      bs', moved' := bs[b := r], moved[b := [thh] + moved[b]];
    }

    /** Moves the elements of an old chain, from `first` on, into the new buckets. */
    method MoveChain(first: Ptr, bs: seq<Bucket>, ghost log: nat, ghost j: nat, ghost rest: seq<seq<Ptr>>,
                     ghost moved: seq<seq<Ptr>>)
      returns (bs': seq<Bucket>, ghost moved': seq<seq<Ptr>>)
      requires j < |rest| && |moved| == Pow2(log)
      requires Expanding(bkt, hashv, order, rest, moved) && Agree(bs, moved)
      requires first == First(rest[j]) && idealChainMaxlen > 0
      modifies this`bkt, this`nonidealItems
      ensures |moved'| == |moved|
      ensures Expanding(bkt, hashv, order, rest[j := []], moved') && Agree(bs', moved')
    {
      ghost var s := rest[j];
      bs', moved' := bs, moved;
      var thh := first;
      assert rest[j := s] == rest;
      while thh != NULL
        invariant |moved'| == |moved| && thh == First(s)
        invariant Expanding(bkt, hashv, order, rest[j := s], moved') && Agree(bs', moved')
        decreases |s|
      {
        LeftFirst(bkt, hashv, order, rest, s, moved', j);
        var next := NextLeft(bkt, hashv, order, rest, s, moved', j, thh);
        bs', moved' := MoveElement(thh, bs', log, j, rest, s, moved');
        s, thh := s[1..], next;
      }
      LeftFirst(bkt, hashv, order, rest, s, moved', j);
    }

    static method NextLeft(l: Links, ghost hashv: map<Ptr, nat>, ghost order: seq<Ptr>,
                           ghost rest: seq<seq<Ptr>>, ghost s: seq<Ptr>, ghost moved: seq<seq<Ptr>>,
                           ghost j: nat, thh: Ptr)
      returns (next: Ptr)
      requires j < |rest| && Expanding(l, hashv, order, rest[j := s], moved) && s != [] && thh == s[0]
      ensures next == First(s[1..])
    {
      assert Walkable(l, rest[j := s][j]);
      next := l[thh].next;
    }

    /** Moves every chain into the new buckets. */
    method MoveAll(bs: seq<Bucket>, ghost log: nat, ghost moved: seq<seq<Ptr>>)
      returns (bs': seq<Bucket>, ghost moved': seq<seq<Ptr>>)
      requires |moved| == Pow2(log) && Agree(buckets, chains) && Agree(bs, moved) && idealChainMaxlen > 0
      requires Expanding(bkt, hashv, order, chains, moved)
      modifies this`bkt, this`nonidealItems
      ensures |moved'| == |moved| && Agree(bs', moved')
      ensures Bucketed(bkt, hashv, moved') && Filed(hashv, order, moved')
    {
      bs', moved' := bs, moved;
      ghost var rest := chains;
      var i := 0;
      while i < |buckets|
        invariant 0 <= i <= |buckets| == |rest| && |moved'| == |moved|
        invariant Expanding(bkt, hashv, order, rest, moved') && Agree(bs', moved')
        invariant forall j :: 0 <= j < i ==> rest[j] == []
        invariant forall j :: i <= j < |rest| ==> buckets[j].hhHead == First(rest[j])
        modifies this`bkt, this`nonidealItems
      {
        bs', moved' := MoveChain(buckets[i].hhHead, bs', log, i, rest, moved');
        rest := rest[i := []];
        i := i + 1;
      }
      ExpandDone(bkt, hashv, order, rest, moved');
    }

    /** The smallest chain length that twice the buckets could have room for all items with. */
    method SetIdeal()
      requires numItems > 0 && numBuckets == Pow2(log2)
      modifies this`idealChainMaxlen, this`nonidealItems
      ensures idealChainMaxlen > 0
      ensures (idealChainMaxlen - 1) * (numBuckets * 2) < numItems <= idealChainMaxlen * (numBuckets * 2)
    {
      IdealLength(numItems, log2 + 1);
      idealChainMaxlen := Shr(numItems, log2 + 1) + if And(numItems, numBuckets * 2 - 1) != 0 then 1 else 0;
      nonidealItems := 0;
    }

    method Redistribute(n: nat, ghost log: nat) returns (bs: seq<Bucket>, ghost moved: seq<seq<Ptr>>)
      requires numBuckets == Pow2(log2) && log == log2 + 1 && n == Pow2(log) && Agree(buckets, chains) && numItems > 0
      requires Bucketed(bkt, hashv, chains) && Filed(hashv, order, chains)
      modifies this`bkt, this`idealChainMaxlen, this`nonidealItems
      ensures |moved| == n && Agree(bs, moved)
      ensures Bucketed(bkt, hashv, moved) && Filed(hashv, order, moved)
    {
      bs, moved := seq(n, _ => Bucket(NULL, 0, 0)), seq(n, _ => []);
      ExpandStart(bkt, hashv, order, chains, moved);
      SetIdeal();
      bs, moved := MoveAll(bs, log, moved);
    }

    /** Doubles the buckets. The division by the ideal chain length is never one by zero. */
    method ExpandBuckets()
      requires Built(buckets, chains, numBuckets, log2) && numItems == |order| > 0
      requires Checks(hash, hashv, key)(Now())
      modifies this`bkt, this`buckets, this`numBuckets, this`log2, this`idealChainMaxlen,
               this`nonidealItems, this`ineffExpands, this`noexpand, this`chains
      ensures Built(buckets, chains, numBuckets, log2) && log2 == old(log2) + 1
      ensures Checks(hash, hashv, key)(Now())
    {
      ghost var t := Now();
      Unchecked(hash, hashv, key, t);
      DoubleBuckets();
      Rechain(hash, hashv, key, t, Now());
      JudgeExpansion();
    }

    method DoubleBuckets()
      requires Built(buckets, chains, numBuckets, log2) && numItems > 0 && Chained(hashv, Now())
      modifies this`bkt, this`buckets, this`numBuckets, this`log2, this`idealChainMaxlen,
               this`nonidealItems, this`chains
      ensures Built(buckets, chains, numBuckets, log2) && log2 == old(log2) + 1 && Chained(hashv, Now())
    {
      var n := numBuckets * 2;
      var bs;
      bs, chains := Redistribute(n, log2 + 1);
      numBuckets, log2, buckets := n, log2 + 1, bs;
    }

    /** Two expansions in a row that leave most items in long chains are the last. */
    method JudgeExpansion()
      modifies this`ineffExpands, this`noexpand
      ensures ineffExpands == if nonidealItems > numItems / 2 then old(ineffExpands) + 1 else 0
      ensures noexpand == (old(noexpand) || ineffExpands > 1)
    {
      ineffExpands := if nonidealItems > numItems / 2 then ineffExpands + 1 else 0;
      if ineffExpands > 1 {
        noexpand := true;
      }
    }

    // -------------------------------------------------------------- add

    method MakeTable()
      modifies this`buckets, this`numBuckets, this`log2, this`numItems, this`idealChainMaxlen,
               this`nonidealItems, this`ineffExpands, this`noexpand, this`chains
      ensures Built(buckets, chains, numBuckets, log2) && numItems == 0
      ensures forall b :: 0 <= b < |chains| ==> chains[b] == []
    {
      numBuckets, log2 := INITIAL_BUCKETS, INITIAL_LOG2;
      buckets := seq(INITIAL_BUCKETS, _ => Bucket(NULL, 0, 0));
      numItems, idealChainMaxlen, nonidealItems, ineffExpands, noexpand := 0, 0, 0, 0, false;
      chains := seq(INITIAL_BUCKETS, _ => []);
      assert Pow2(5) == 32;
    }

    /** Appends x to the list and puts it in front of its bucket; `full` calls for more
        buckets. */
    method Attach(k: K, x: Ptr, ghost t': Shape) returns (full: bool)
      requires Built(buckets, chains, numBuckets, log2) && numItems == |order| && tail == Last(order)
      requires Attached(Now(), t', x, hash(k))
      modifies this`app, this`bkt, this`hashv, this`key, this`tail, this`buckets, this`numItems,
               this`order, this`chains
      ensures Built(buckets, chains, numBuckets, log2) && numItems == |order| && tail == Last(order)
      ensures app == t'.app && bkt == t'.bkt && order == t'.order && chains == t'.chains
      ensures key == old(key)[x := k] && hashv == old(hashv)[x := hash(k)]
    {
      AppendHook(k, x, t'.app);
      full := AddToBkt(hash(k), x, t'.bkt, t'.chains);
    }

    method AppendHook(k: K, x: Ptr, ghost app': Links)
      requires numItems == |order| && tail == Last(order) && (tail == NULL || tail in app)
      requires app' == PushedBack(app, tail, x)
      modifies this`app, this`hashv, this`key, this`tail, this`numItems, this`order
      ensures numItems == |order| && tail == Last(order) && app == app' && order == old(order) + [x]
      ensures key == old(key)[x := k] && hashv == old(hashv)[x := hash(k)]
    {
      app := PushedBack(app, tail, x);
      tail := x;
      numItems := numItems + 1;
      key, hashv := key[x := k], hashv[x := hash(k)];
      order := order + [x];
    }

    method AddToBkt(h: nat, x: Ptr, ghost bkt': Links, ghost chains': seq<seq<Ptr>>) returns (full: bool)
      requires Built(buckets, chains, numBuckets, log2)
      requires var b := Slot(h, |chains|);
        && chains' == chains[b := [x] + chains[b]] && (First(chains[b]) == NULL || First(chains[b]) in bkt)
        && bkt' == PushedFront(bkt, First(chains[b]), x)
      modifies this`bkt, this`buckets, this`chains
      ensures Built(buckets, chains, numBuckets, log2) && bkt == bkt' && chains == chains'
    {
      var b := BucketOf(h, numBuckets, log2);
      var r := Bucket(x, buckets[b].count + 1, buckets[b].expandMult);
      AgreePush(buckets, chains, b, x, r);
      bkt := PushedFront(bkt, buckets[b].hhHead, x);
      buckets, chains := buckets[b := r], chains';
      full := r.count >= (r.expandMult + 1) * CAPACITY_THRESH;
    }

    /** Adds an element under a key that is not in the table. */
    method Add(k: K, x: Ptr)
      requires Valid() && x != NULL && x !in order && k !in Keys()
      modifies this
      ensures Valid() && order == old(order) + [x] && Keys() == old(Keys()) + [k]
      ensures key == old(key)[x := k]
    {
      AbsentKey(key, order, k);
      KeysAdded(key, order, x, k);
      AddPlanned(k, x);
    }

    method AddPlanned(k: K, x: Ptr)
      requires Valid() && x != NULL && x !in order && forall y <- order :: y in key && key[y] != k
      modifies this
      ensures Valid() && order == old(order) + [x] && key == old(key)[x := k]
    {
      if head == NULL {
        head, tail := x, NULL;
        MakeTable();
        PlanEmpty(hash, hashv, key, Now());
      }
      Insert(k, x);
    }

    /** Adds to a table that exists. */
    method Insert(k: K, x: Ptr)
      requires Checks(hash, hashv, key)(Now()) && Built(buckets, chains, numBuckets, log2)
      requires numItems == |order| && tail == Last(order)
      requires x != NULL && x !in order && forall y <- order :: y in key && key[y] != k
      modifies this`app, this`bkt, this`hashv, this`key, this`tail, this`buckets, this`numItems,
               this`order, this`chains, this`numBuckets, this`log2, this`idealChainMaxlen,
               this`nonidealItems, this`ineffExpands, this`noexpand
      ensures Checks(hash, hashv, key)(Now()) && Built(buckets, chains, numBuckets, log2)
      ensures numItems == |order| && tail == Last(order)
      ensures order == old(order) + [x] && key == old(key)[x := k]
    {
      ghost var t' := PlanAdd(hash, hashv, key, Now(), x, k);
      var full := Attach(k, x, t');
      if full && !noexpand {
        ExpandBuckets();
      }
    }

    // -------------------------------------------------------------- delete

    /** Takes x out of its bucket. */
    method DelInBkt(b: nat, x: Ptr, ghost i: nat, ghost bkt': Links, ghost chains': seq<seq<Ptr>>)
      requires Agree(buckets, chains) && b < |chains| && i < |chains[b]| && chains[b][i] == x
      requires Threaded(bkt, chains[b])
      requires bkt' == Unlinked(bkt, x) && chains' == chains[b := Without(chains[b], i)]
      modifies this`bkt, this`buckets, this`chains
      ensures Agree(buckets, chains) && bkt == bkt' && chains == chains'
    {
      var r := buckets[b].(count := buckets[b].count - 1);
      if r.hhHead == x {
        r := r.(hhHead := bkt[x].next);
      }
      AgreeUnlink(buckets, chains, bkt, b, i, r);
      bkt := Unlinked(bkt, x);
      buckets, chains := buckets[b := r], chains';
    }

    /** Takes x out of the list of the application. */
    method Unhook(x: Ptr, ghost a: nat, ghost app': Links, ghost order': seq<Ptr>)
      requires head == First(order) && tail == Last(order)
      requires Linked(app, x) && app' == Unlinked(app, x)
      requires a < |order| && order[a] == x && order' == Without(order, a) && Around(app[x], order, a)
      modifies this`head, this`tail, this`app, this`order
      ensures head == First(order') && tail == Last(order') && app == app' && order == order'
    {
      var Link(next, prev) := app[x];
      if x == tail {
        tail := prev;
      }
      if prev == NULL {
        head := next;
      }
      app := Unlinked(app, x);
      order := order';
    }

    method Detach(x: Ptr, ghost a: nat, ghost i: nat, ghost t': Shape)
      requires head == First(order) && tail == Last(order) && numItems == |order|
      requires Built(buckets, chains, numBuckets, log2)
      requires a < |order| && order[a] == x && x in hashv && Linked(app, x) && Around(app[x], order, a)
      requires t'.app == Unlinked(app, x) && t'.order == Without(order, a) && Detached(Now(), t', hashv, a, i)
      modifies this`head, this`tail, this`app, this`bkt, this`buckets, this`numItems, this`order, this`chains
      ensures head == First(order) && tail == Last(order) && numItems == |order|
      ensures Built(buckets, chains, numBuckets, log2) && Now() == t'
    {
      var bucket := BucketOf(hashv[x], numBuckets, log2);
      DelInBkt(bucket, x, i, t'.bkt, t'.chains);
      Unhook(x, a, t'.app, t'.order);
      numItems := numItems - 1;
    }

    /** Removes an element of the table. Removing the last one removes the table. */
    method Delete(x: Ptr, ghost a: nat)
      requires Valid() && a < |order| && order[a] == x
      modifies this
      ensures Valid() && order == Without(old(order), a) && Keys() == Without(old(Keys()), a)
      ensures key == old(key)
    {
      KeysRemoved(key, order, a);
      DeletePlanned(x, a);
    }

    method DeletePlanned(x: Ptr, ghost a: nat)
      requires Valid() && a < |order| && order[a] == x
      modifies this`head, this`tail, this`app, this`bkt, this`buckets, this`numItems, this`order, this`chains
      ensures Valid() && order == Without(old(order), a)
    {
      ghost var t', i := PlanDelete(hash, hashv, key, Now(), a);
      EndsWithout(app, order, a);
      Detach(x, a, i, t');
    }

    /** HASH_CLEAR: the table goes, the elements are left to their owner. */
    method Clear()
      requires Valid()
      modifies this
      ensures Valid() && order == []
    {
      head, order, chains := NULL, [], [[]];
      PlanEmpty(hash, hashv, key, Now());
    }

    // -------------------------------------------------------------- check

    /** Walks a list and compares the way back. */
    static method CheckList(l: Links, first: Ptr, ghost s: seq<Ptr>) returns (ok: bool, count: nat)
      requires Threaded(l, s) && first == First(s)
      ensures ok && count == |s|
    {
      var thh, prev := first, NULL;
      ok, count := true, 0;
      while thh != NULL
        invariant 0 <= count <= |s| && ok
        invariant thh == (if count < |s| then s[count] else NULL) && prev == PrevIn(s, count)
        decreases |s| - count
      {
        assert l[s[count]] == Link(NextIn(s, count), PrevIn(s, count));
        if prev != l[thh].prev {
          ok := false;
        }
        count, prev, thh := count + 1, thh, l[thh].next;
      }
    }

    static method CheckBuckets(l: Links, buckets: seq<Bucket>, ghost chains: seq<seq<Ptr>>)
      returns (ok: bool, count: nat)
      requires Agree(buckets, chains) && forall b :: 0 <= b < |chains| ==> Threaded(l, chains[b])
      ensures ok && count == Total(chains)
    {
      ok, count := true, 0;
      var i := 0;
      while i < |buckets|
        invariant 0 <= i <= |buckets| && ok && count == Total(chains[..i])
      {
        var good, n := CheckList(l, buckets[i].hhHead, chains[i]);
        TotalPrefix(chains, i);
        if !good || buckets[i].count != n {
          ok := false;
        }
        count := count + n;
        i := i + 1;
      }
      assert chains[..i] == chains;
    }

    /** HASH_FSCK finds nothing to complain about in a valid table. */
    method Fsck() returns (ok: bool)
      requires Valid()
      ensures ok
    {
      ok := true;
      if head != NULL {
        Unchecked(hash, hashv, key, Now());
        var good, count := CheckBuckets(bkt, buckets, chains);
        if !good || count != numItems {
          ok := false;
        }
        good, count := CheckList(app, head, order);
        if !good || count != numItems {
          ok := false;
        }
      }
    }
  }

  /** What the links of the a-th element say about the ends of the list without it. */
  ghost predicate Around(l: Link, order: seq<Ptr>, a: nat)
    requires a < |order|
  {
    var rest := Without(order, a);
    && (l.prev == NULL && l.next == NULL <==> rest == [])
    && First(rest) == (if l.prev == NULL then l.next else First(order))
    && Last(rest) == (if order[a] == Last(order) then l.prev else Last(order))
  }

  /** An element and its neighbours are in memory. */
  ghost predicate Linked(l: Links, x: Ptr) {
    x in l && (l[x].prev == NULL || l[x].prev in l) && (l[x].next == NULL || l[x].next in l)
  }

  lemma EndsWithout(app: Links, order: seq<Ptr>, a: nat)
    requires Threaded(app, order) && a < |order|
    ensures Linked(app, order[a]) && Around(app[order[a]], order, a)
  {
    assert app[order[a]] == Link(NextIn(order, a), PrevIn(order, a));
    assert a < |order| - 1 ==> order[a] != order[|order| - 1] && order[a + 1] != NULL;
    assert a > 0 ==> order[a - 1] != NULL;
    WithoutEnds(order, a);
  }

  lemma WithoutEnds(order: seq<Ptr>, a: nat)
    requires a < |order|
    ensures Without(order, a) == [] <==> |order| == 1
    ensures First(Without(order, a)) == if a == 0 then NextIn(order, 0) else First(order)
    ensures Last(Without(order, a)) == if a == |order| - 1 then PrevIn(order, a) else Last(order)
  {
  }

  lemma AbsentKey<K>(key: map<Ptr, K>, order: seq<Ptr>, k: K)
    requires (forall x <- order :: x in key) && k !in KeysOf(key, order)
    ensures forall x <- order :: key[x] != k
  {
    forall x <- order ensures key[x] != k {
      var i :| 0 <= i < |order| && order[i] == x;
      assert KeysOf(key, order)[i] == key[x];
    }
  }

  lemma KeysAdded<K>(key: map<Ptr, K>, order: seq<Ptr>, x: Ptr, k: K)
    requires x !in order && forall y <- order :: y in key
    ensures KeysOf(key[x := k], order + [x]) == KeysOf(key, order) + [k]
  {
    forall i | 0 <= i < |order| ensures order[i] != x {
      assert order[i] in order;
    }
  }

  lemma KeysRemoved<K>(key: map<Ptr, K>, order: seq<Ptr>, a: nat)
    requires a < |order| && forall x <- order :: x in key
    ensures (forall x <- Without(order, a) :: x in key)
    ensures KeysOf(key, Without(order, a)) == Without(KeysOf(key, order), a)
  {
    var order' := Without(order, a);
    assert forall i :: 0 <= i < |order'| ==> order'[i] == order[if i < a then i else i + 1];
  }
}
