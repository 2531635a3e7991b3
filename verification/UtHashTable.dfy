/** The hash table as the macros run it: handles, buckets and counters changed in place. */
module UtHashTables {
  import opened Seqs
  import opened UtHash

  datatype Bucket = Bucket(hhHead: Ptr, count: nat, expandMult: nat)

  const INITIAL_BUCKETS: nat := 32
  const INITIAL_LOG2: nat := 5
  const CAPACITY_THRESH: nat := 10

  // ---------------------------------------------------------------- bucket numbers

  function Pow2(k: nat): (n: nat)
    ensures n > 0
  {
    if k == 0 then 1 else 2 * Pow2(k - 1)
  }

  /** Bitwise and of unsigned numbers. */
  function And(a: nat, b: nat): nat {
    if a == 0 || b == 0 then 0 else a % 2 * (b % 2) + 2 * And(a / 2, b / 2)
  }

  /** HASH_TO_BKT. */
  function ToBucket(hashv: nat, numBuckets: nat): nat
    requires numBuckets > 0
  {
    And(hashv, numBuckets - 1)
  }

  lemma AndHalf(h: nat, m: nat)
    requires m > 0
    ensures And(h, 2 * m - 1) == h % 2 + 2 * And(h / 2, m - 1)
  {
    assert (2 * m - 1) % 2 == 1 && (2 * m - 1) / 2 == m - 1;
  }

  /** Masking is the remainder, for powers of two. */
  lemma {:induction false} MaskIsRemainder(hashv: nat, k: nat)
    ensures ToBucket(hashv, Pow2(k)) == Slot(hashv, Pow2(k))
    decreases k
  {
    if k == 0 {
      SlotOfOne(hashv);
    } else {
      MaskIsRemainder(hashv / 2, k - 1);
      HalfSlot(hashv, Pow2(k - 1));
      AndHalf(hashv, Pow2(k - 1));
    }
  }

  lemma {:induction false} SlotOfOne(h: nat)
    ensures Slot(h, 1) == 0
    decreases h
  {
    if h > 0 {
      SlotOfOne(h - 1);
    }
  }

  /** The remainder by an even number, from that of the half. */
  lemma {:induction false} HalfSlot(h: nat, m: nat)
    requires m > 0
    ensures Slot(h, 2 * m) == h % 2 + 2 * Slot(h / 2, m)
    decreases h
  {
    if h >= 2 * m {
      HalfSlot(h - 2 * m, m);
      assert (h - 2 * m) / 2 == h / 2 - m && (h - 2 * m) % 2 == h % 2;
    }
  }

  lemma {:induction false} SlotIsRemainder(h: nat, n: nat, q: nat)
    requires n > 0 && q * n <= h < q * n + n
    ensures Slot(h, n) == h - q * n
    decreases q
  {
    if q > 0 {
      assert q * n == (q - 1) * n + n;
      SlotIsRemainder(h - n, n, q - 1);
    }
  }

  // ---------------------------------------------------------------- ideal chain length

  function Shr(a: nat, k: nat): nat {
    if k == 0 then a else Shr(a / 2, k - 1)
  }

  lemma {:induction false} ShrIsQuotient(a: nat, k: nat)
    ensures Shr(a, k) * Pow2(k) <= a < Shr(a, k) * Pow2(k) + Pow2(k)
    decreases k
  {
    if k > 0 {
      ShrIsQuotient(a / 2, k - 1);
      Doubled(a, Shr(a / 2, k - 1), Pow2(k - 1), Shr(a / 2, k - 1) * Pow2(k - 1));
    }
  }

  /** A quotient of the half is one of the whole by twice the divisor. */
  lemma Doubled(a: nat, q: nat, m: nat, p: nat)
    requires p == q * m && p <= a / 2 < p + m
    ensures q * (2 * m) <= a < q * (2 * m) + 2 * m
  {
    assert q * (2 * m) == 2 * p;
  }

  /** The bound on the chain length that a table of 2^log buckets should have. */
  function Ideal(items: nat, log: nat): nat {
    Shr(items, log) + if And(items, Pow2(log) - 1) != 0 then 1 else 0
  }

  lemma RoundedUp(items: nat, n: nat, q: nat, r: nat)
    requires items > 0 && r < n && items == q * n + r
    ensures var ideal := q + if r != 0 then 1 else 0;
      ideal > 0 && (ideal - 1) * n < items <= ideal * n
  {
    if r != 0 {
      assert (q + 1) * n == q * n + n;
    } else {
      assert (q - 1) * n == q * n - n;
    }
  }

  lemma ShiftAndMask(items: nat, log: nat)
    ensures And(items, Pow2(log) - 1) < Pow2(log)
    ensures items == Shr(items, log) * Pow2(log) + And(items, Pow2(log) - 1)
  {
    ShrIsQuotient(items, log);
    MaskIsRemainder(items, log);
    SlotIsRemainder(items, Pow2(log), Shr(items, log));
  }

  /** Shift and mask compute the quotient rounded up, and never zero. */
  lemma IdealLength(items: nat, log: nat)
    requires items > 0
    ensures Ideal(items, log) > 0
    ensures (Ideal(items, log) - 1) * Pow2(log) < items <= Ideal(items, log) * Pow2(log)
  {
    ShiftAndMask(items, log);
    RoundedUp(items, Pow2(log), Shr(items, log), And(items, Pow2(log) - 1));
  }

  // ---------------------------------------------------------------- all invariants together

  ghost predicate Sound<K>(hash: K -> nat, app: Links, bkt: Links, hashv: map<Ptr, nat>, key: map<Ptr, K>,
                           order: seq<Ptr>, chains: seq<seq<Ptr>>)
  {
    && Threaded(app, order) && Bucketed(bkt, hashv, chains)
    && Filed(hashv, order, chains) && Keyed(hash, hashv, key, order)
  }

  /** Heads and counts of the buckets are those of the chains. */
  ghost predicate Agree(buckets: seq<Bucket>, chains: seq<seq<Ptr>>) {
    && |buckets| == |chains|
    && forall b :: 0 <= b < |chains| ==> buckets[b].hhHead == First(chains[b]) && buckets[b].count == |chains[b]|
  }

  /** The table exists and its buckets are in order. */
  ghost predicate Built(buckets: seq<Bucket>, chains: seq<seq<Ptr>>, numBuckets: nat, log2: nat) {
    Agree(buckets, chains) && |buckets| == numBuckets == Pow2(log2)
  }

  /** A bucket of a doubled table with one more element in front. */
  function WithFront(b: Bucket, x: Ptr, ideal: nat): (r: Bucket)
    requires ideal > 0
    ensures r.hhHead == x && r.count == b.count + 1
  {
    Bucket(x, b.count + 1, if b.count + 1 > ideal then (b.count + 1) / ideal else b.expandMult)
  }

  lemma AgreePush(buckets: seq<Bucket>, chains: seq<seq<Ptr>>, b: nat, x: Ptr, r: Bucket)
    requires Agree(buckets, chains) && b < |chains| && r.hhHead == x && r.count == buckets[b].count + 1
    ensures Agree(buckets[b := r], chains[b := [x] + chains[b]])
  {
  }

  lemma EmptySound<K>(hash: K -> nat, app: Links, bkt: Links, hashv: map<Ptr, nat>, key: map<Ptr, K>,
                      chains: seq<seq<Ptr>>)
    requires |chains| > 0 && forall b :: 0 <= b < |chains| ==> chains[b] == []
    ensures Sound(hash, app, bkt, hashv, key, [], chains)
  {
    TotalEmpty(chains);
  }

  /** A handle that is in no chain may be given any hash. */
  lemma BucketedFrame(bkt: Links, hashv: map<Ptr, nat>, order: seq<Ptr>, chains: seq<seq<Ptr>>, x: Ptr, h: nat)
    requires Bucketed(bkt, hashv, chains) && Filed(hashv, order, chains) && x !in order
    ensures Bucketed(bkt, hashv[x := h], chains)
  {
    forall b | 0 <= b < |chains| ensures InBucket(hashv[x := h], chains[b], b, |chains|) {
      assert InBucket(hashv, chains[b], b, |chains|);
    }
  }

  lemma KeyedAdd<K>(hash: K -> nat, hashv: map<Ptr, nat>, key: map<Ptr, K>, order: seq<Ptr>, x: Ptr, k: K)
    requires Keyed(hash, hashv, key, order) && x !in order
    requires forall y <- order :: key[y] != k
    ensures Keyed(hash, hashv[x := hash(k)], key[x := k], order + [x])
  {
  }

  lemma AddInBucket(bkt: Links, hashv: map<Ptr, nat>, order: seq<Ptr>, chains: seq<seq<Ptr>>, x: Ptr, h: nat)
    requires Bucketed(bkt, hashv, chains) && Filed(hashv, order, chains) && x != NULL && x !in order
    ensures var b := Slot(h, |chains|);
      && (First(chains[b]) == NULL || First(chains[b]) in bkt)
      && Bucketed(PushedFront(bkt, First(chains[b]), x), hashv[x := h], chains[b := [x] + chains[b]])
  {
    var b := Slot(h, |chains|);
    BucketedFrame(bkt, hashv, order, chains, x, h);
    assert Threaded(bkt, chains[b]);
    PushInBucket(bkt, hashv[x := h], chains, b, x);
  }

  lemma AddSound<K>(hash: K -> nat, app: Links, bkt: Links, hashv: map<Ptr, nat>, key: map<Ptr, K>,
                    order: seq<Ptr>, chains: seq<seq<Ptr>>, x: Ptr, k: K)
    requires Sound(hash, app, bkt, hashv, key, order, chains)
    requires x != NULL && x !in order && forall y <- order :: key[y] != k
    ensures var b := Slot(hash(k), |chains|);
      && (Last(order) == NULL || Last(order) in app) && (First(chains[b]) == NULL || First(chains[b]) in bkt)
      && Sound(hash, PushedBack(app, Last(order), x), PushedFront(bkt, First(chains[b]), x),
               hashv[x := hash(k)], key[x := k], order + [x], chains[b := [x] + chains[b]])
  {
    var b := Slot(hash(k), |chains|);
    PushBack(app, order, x);
    AddInBucket(bkt, hashv, order, chains, x, hash(k));
    KeyedAdd(hash, hashv, key, order, x, k);
    FileOne(hashv, hashv[x := hash(k)], order, chains, x, b);
  }

  lemma DeleteFacts<K>(hash: K -> nat, app: Links, bkt: Links, hashv: map<Ptr, nat>, key: map<Ptr, K>,
                       order: seq<Ptr>, chains: seq<seq<Ptr>>, a: nat)
    returns (b: nat, i: nat)
    requires Sound(hash, app, bkt, hashv, key, order, chains) && a < |order|
    ensures order[a] in hashv && b == Slot(hashv[order[a]], |chains|) && i < |chains[b]| && chains[b][i] == order[a]
    ensures Threaded(bkt, chains[b])
    ensures forall c :: 0 <= c < |chains| && c != b ==> order[a] !in chains[c]
  {
    b := Slot(hashv[order[a]], |chains|);
    assert order[a] in chains[b];
    i :| 0 <= i < |chains[b]| && chains[b][i] == order[a];
    assert Threaded(bkt, chains[b]);
    forall c | 0 <= c < |chains| && c != b ensures order[a] !in chains[c] {
      assert InBucket(hashv, chains[c], c, |chains|);
    }
  }

  lemma KeyedWithout<K>(hash: K -> nat, hashv: map<Ptr, nat>, key: map<Ptr, K>, order: seq<Ptr>, a: nat)
    requires Keyed(hash, hashv, key, order) && a < |order|
    ensures Keyed(hash, hashv, key, Without(order, a))
  {
    assert forall x <- Without(order, a) :: x in order;
  }

  lemma DeleteSound<K>(hash: K -> nat, app: Links, bkt: Links, hashv: map<Ptr, nat>, key: map<Ptr, K>,
                       order: seq<Ptr>, chains: seq<seq<Ptr>>, a: nat)
    returns (b: nat, i: nat)
    requires Sound(hash, app, bkt, hashv, key, order, chains) && a < |order|
    ensures order[a] in hashv && b == Slot(hashv[order[a]], |chains|) && i < |chains[b]| && chains[b][i] == order[a]
    ensures Threaded(app, order) && Threaded(bkt, chains[b])
    ensures Sound(hash, Unlinked(app, order[a]), Unlinked(bkt, order[a]), hashv, key,
                  Without(order, a), chains[b := Without(chains[b], i)])
  {
    b, i := DeleteFacts(hash, app, bkt, hashv, key, order, chains, a);
    Unlink(app, order, a);
    UnlinkInBucket(bkt, hashv, chains, b, i);
    UnfileOne(hashv, order, chains, a, b, i);
    KeyedWithout(hash, hashv, key, order, a);
  }

  lemma AgreeUnlink(buckets: seq<Bucket>, chains: seq<seq<Ptr>>, bkt: Links, b: nat, i: nat, r: Bucket)
    requires Agree(buckets, chains) && b < |chains| && i < |chains[b]| && Threaded(bkt, chains[b])
    requires r.count == buckets[b].count - 1
    requires r.hhHead == if buckets[b].hhHead == chains[b][i] then bkt[chains[b][i]].next else buckets[b].hhHead
    ensures Agree(buckets[b := r], chains[b := Without(chains[b], i)])
  {
    assert chains[b][0] == chains[b][i] <==> i == 0;
  }

  /** A table as a value: links, order and chains. */
  datatype Shape = Shape(app: Links, bkt: Links, order: seq<Ptr>, chains: seq<seq<Ptr>>)

  ghost predicate SoundShape<K>(hash: K -> nat, hashv: map<Ptr, nat>, key: map<Ptr, K>, t: Shape) {
    Sound(hash, t.app, t.bkt, hashv, key, t.order, t.chains)
  }

  /** The invariant, to be carried around without looking inside. */
  ghost function Checks<K>(hash: K -> nat, hashv: map<Ptr, nat>, key: map<Ptr, K>): Shape -> bool {
    (t: Shape) => SoundShape(hash, hashv, key, t)
  }

  lemma PlanDelete<K>(hash: K -> nat, hashv: map<Ptr, nat>, key: map<Ptr, K>, t: Shape, a: nat)
    returns (t': Shape, i: nat)
    requires Checks(hash, hashv, key)(t) && a < |t.order|
    ensures Checks(hash, hashv, key)(t')
    ensures Threaded(t.app, t.order) && t.order[a] in hashv
    ensures t'.app == Unlinked(t.app, t.order[a]) && t'.order == Without(t.order, a)
    ensures Detached(t, t', hashv, a, i)
  {
    var b;
    b, i := DeleteSound(hash, t.app, t.bkt, hashv, key, t.order, t.chains, a);
    t' := Shape(Unlinked(t.app, t.order[a]), Unlinked(t.bkt, t.order[a]), Without(t.order, a),
                t.chains[b := Without(t.chains[b], i)]);
  }

  /** t' is t without the a-th element, which is the i-th in its chain. */
  ghost predicate Detached(t: Shape, t': Shape, hashv: map<Ptr, nat>, a: nat, i: nat)
    requires a < |t.order| && t.order[a] in hashv
  {
    |t.chains| > 0 &&
    var x, b := t.order[a], Slot(hashv[t.order[a]], |t.chains|);
    && i < |t.chains[b]| && t.chains[b][i] == x && Threaded(t.bkt, t.chains[b])
    && t'.bkt == Unlinked(t.bkt, x) && t'.chains == t.chains[b := Without(t.chains[b], i)]
  }

  /** t' is t with x at the end of the list and in front of the chain of hash h. */
  ghost predicate Attached(t: Shape, t': Shape, x: Ptr, h: nat) {
    |t.chains| > 0 &&
    var b := Slot(h, |t.chains|);
    && (Last(t.order) == NULL || Last(t.order) in t.app)
    && (First(t.chains[b]) == NULL || First(t.chains[b]) in t.bkt)
    && t'.app == PushedBack(t.app, Last(t.order), x) && t'.order == t.order + [x]
    && t'.bkt == PushedFront(t.bkt, First(t.chains[b]), x) && t'.chains == t.chains[b := [x] + t.chains[b]]
  }

  lemma PlanAdd<K>(hash: K -> nat, hashv: map<Ptr, nat>, key: map<Ptr, K>, t: Shape, x: Ptr, k: K)
    returns (t': Shape)
    requires Checks(hash, hashv, key)(t) && x != NULL && x !in t.order
    requires forall y <- t.order :: y in key && key[y] != k
    ensures Checks(hash, hashv[x := hash(k)], key[x := k])(t') && Attached(t, t', x, hash(k))
  {
    AddSound(hash, t.app, t.bkt, hashv, key, t.order, t.chains, x, k);
    var b := Slot(hash(k), |t.chains|);
    t' := Shape(PushedBack(t.app, Last(t.order), x), PushedFront(t.bkt, First(t.chains[b]), x),
                t.order + [x], t.chains[b := [x] + t.chains[b]]);
  }

  lemma PlanEmpty<K>(hash: K -> nat, hashv: map<Ptr, nat>, key: map<Ptr, K>, t: Shape)
    requires t.order == [] && |t.chains| > 0 && forall b :: 0 <= b < |t.chains| ==> t.chains[b] == []
    ensures Checks(hash, hashv, key)(t)
  {
    EmptySound(hash, t.app, t.bkt, hashv, key, t.chains);
  }

  ghost predicate Chained(hashv: map<Ptr, nat>, t: Shape) {
    Bucketed(t.bkt, hashv, t.chains) && Filed(hashv, t.order, t.chains)
  }

  /** Other chains of the same elements do as well. */
  lemma Rechain<K>(hash: K -> nat, hashv: map<Ptr, nat>, key: map<Ptr, K>, t: Shape, t': Shape)
    requires Checks(hash, hashv, key)(t) && t'.app == t.app && t'.order == t.order && Chained(hashv, t')
    ensures Checks(hash, hashv, key)(t')
  {
  }

  lemma Unchecked<K>(hash: K -> nat, hashv: map<Ptr, nat>, key: map<Ptr, K>, t: Shape)
    requires Checks(hash, hashv, key)(t)
    ensures Chained(hashv, t)
  {
  }
}
