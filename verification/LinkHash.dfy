/** The linked hash table of json-c: open addressing, tombstones, and a list in insertion order. */
module LinkHash {
  import opened Options
  import opened Seqs

  datatype Key<K> = Empty | Freed | Live(key: K)

  /** `next` and `prev` are slot numbers, -1 for none. */
  datatype Entry<K, V> = Entry(k: Key<K>, v: Option<V>, next: int, prev: int)

  const NIL := -1
  const INT_MAX: nat := 0x7fff_ffff

  /** count >= size * 0.66 */
  predicate Loaded(count: nat, size: nat) {
    100 * count >= 66 * size
  }

  // ---------------------------------------------------------------- probing order

  /** The slot d steps after `home`, wrapping around. */
  function At(home: nat, d: nat, size: nat): (n: nat)
    requires home < size && d <= size
    ensures n < size
  {
    if home + d < size then home + d else home + d - size
  }

  /** How many steps slot n is from `home`. */
  function Steps(home: nat, n: nat, size: nat): (d: nat)
    requires home < size && n < size
    ensures d < size && At(home, d, size) == n
  {
    if home <= n then n - home else n - home + size
  }

  lemma StepsAt(home: nat, d: nat, size: nat)
    requires home < size && d < size
    ensures Steps(home, At(home, d, size), size) == d
  {
  }

  function Home<K>(hash: K -> nat, k: K, size: nat): (n: nat)
    requires size > 0
    ensures n < size
  {
    hash(k) % size
  }

  // ---------------------------------------------------------------- invariants on slot values

  /** `order` lists exactly the live slots, each once. */
  ghost predicate Slots<K, V>(t: seq<Entry<K, V>>, order: seq<nat>) {
    && (forall i :: 0 <= i < |order| ==> order[i] < |t|)
    && (forall i, j :: 0 <= i < j < |order| ==> order[i] != order[j])
    && (forall n :: 0 <= n < |t| ==> (t[n].k.Live? <==> n in order))
    && (forall n :: 0 <= n < |t| && t[n].k.Live? ==> t[n].v.Some?)
  }

  function NextOf(order: seq<nat>, i: nat): int
    requires i < |order|
  {
    if i + 1 < |order| then order[i + 1] else NIL
  }

  function PrevOf(order: seq<nat>, i: nat): int
    requires i < |order|
  {
    if i > 0 then order[i - 1] else NIL
  }

  function HeadOf(order: seq<nat>): int {
    if order == [] then NIL else order[0]
  }

  function TailOf(order: seq<nat>): int {
    if order == [] then NIL else order[|order| - 1]
  }

  /** The next/prev links thread the slots in that order. */
  ghost predicate Links<K, V>(t: seq<Entry<K, V>>, order: seq<nat>) {
    && (forall i :: 0 <= i < |order| ==> order[i] < |t|)
    && (forall i {:trigger t[order[i]]} :: 0 <= i < |order| ==>
          t[order[i]].next == NextOf(order, i) && t[order[i]].prev == PrevOf(order, i))
  }

  /** No empty slot lies between the home slot of a live key and its position. */
  ghost predicate Probes<K, V>(t: seq<Entry<K, V>>, hash: K -> nat) {
    forall n, m :: 0 <= n < |t| && 0 <= m < |t| && t[n].k.Live? && t[m].k.Empty? ==>
      Steps(Home(hash, t[n].k.key, |t|), n, |t|) <= Steps(Home(hash, t[n].k.key, |t|), m, |t|)
  }

  ghost predicate UniqueKeys<K, V>(t: seq<Entry<K, V>>) {
    forall n, m :: 0 <= n < |t| && 0 <= m < |t| && t[n].k.Live? && t[m].k == t[n].k ==> n == m
  }

  /** The table as an ordered map: keys and values in insertion order. */
  ghost function Entries<K, V>(t: seq<Entry<K, V>>, order: seq<nat>): (r: seq<(K, V)>)
    requires Slots(t, order)
    ensures |r| == |order|
    ensures forall i :: 0 <= i < |order| ==> r[i] == (t[order[i]].k.key, t[order[i]].v.value)
  {
    seq(|order|, i requires 0 <= i < |order| =>
      (assert order[i] in order; (t[order[i]].k.key, t[order[i]].v.value)))
  }

  ghost predicate Bound<K, V>(s: seq<(K, V)>, k: K) {
    exists i :: 0 <= i < |s| && s[i].0 == k
  }

  lemma BoundIffLive<K, V>(t: seq<Entry<K, V>>, order: seq<nat>, k: K)
    requires Slots(t, order)
    ensures Bound(Entries(t, order), k) <==> exists n :: 0 <= n < |t| && t[n].k == Live(k)
  {
    var es := Entries(t, order);
    if Bound(es, k) {
      var i :| 0 <= i < |es| && es[i].0 == k;
      assert order[i] in order;
      assert t[order[i]].k == Live(k);
    }
    if n :| 0 <= n < |t| && t[n].k == Live(k) {
      assert n in order;
      var i :| 0 <= i < |order| && order[i] == n;
      assert es[i].0 == k;
    }
  }

  // ---------------------------------------------------------------- finding a free slot

  /** A list that mentions every slot is at least as long as the table: with fewer live
      entries than slots, one slot is free. */
  lemma {:induction false} Covering(order: seq<nat>, size: nat)
    requires forall n :: 0 <= n < size ==> n in order
    ensures size <= |order|
    decreases size
  {
    if size > 0 {
      assert size - 1 in order;
      var p :| 0 <= p < |order| && order[p] == size - 1;
      var rest := Without(order, p);
      forall n | 0 <= n < size - 1 ensures n in rest {
        assert n in order;
        var j :| 0 <= j < |order| && order[j] == n;
        assert rest[if j < p then j else j - 1] == n;
      }
      Covering(rest, size - 1);
    }
  }

  lemma FreeSlot<K, V>(t: seq<Entry<K, V>>, order: seq<nat>) returns (n: nat)
    requires Slots(t, order) && |order| < |t|
    ensures n < |t| && !t[n].k.Live?
  {
    if forall m :: 0 <= m < |t| ==> m in order {
      Covering(order, |t|);
    }
    n :| 0 <= n < |t| && n !in order;
  }

  // ---------------------------------------------------------------- insertion

  /** The table with (k, v) put into slot n and linked behind `tail`. */
  function Placed<K, V>(t: seq<Entry<K, V>>, n: nat, k: K, v: V, tail: int): seq<Entry<K, V>>
    requires n < |t| && -1 <= tail < |t|
  {
    var linked := if tail == NIL then t else t[tail := t[tail].(next := n)];
    linked[n := Entry(Live(k), Some(v), NIL, tail)]
  }

  lemma PlacedSlots<K, V>(t: seq<Entry<K, V>>, order: seq<nat>, n: nat, k: K, v: V)
    requires Slots(t, order) && n < |t| && !t[n].k.Live?
    ensures TailOf(order) < |t|
    ensures Slots(Placed(t, n, k, v, TailOf(order)), order + [n])
  {
    var t' := Placed(t, n, k, v, TailOf(order));
    assert n !in order;
    forall m | 0 <= m < |t'| ensures t'[m].k.Live? <==> m in order + [n] {
      assert m != n ==> t'[m].k == t[m].k;
    }
  }

  lemma PlacedEntries<K, V>(t: seq<Entry<K, V>>, order: seq<nat>, n: nat, k: K, v: V)
    requires Slots(t, order) && n < |t| && !t[n].k.Live?
    requires TailOf(order) < |t| && Slots(Placed(t, n, k, v, TailOf(order)), order + [n])
    ensures Entries(Placed(t, n, k, v, TailOf(order)), order + [n]) == Entries(t, order) + [(k, v)]
  {
    var t' := Placed(t, n, k, v, TailOf(order));
    forall i | 0 <= i < |order|
      ensures t'[order[i]].k == t[order[i]].k && t'[order[i]].v == t[order[i]].v
    {
      assert order[i] in order;
    }
  }

  lemma PlacedLinks<K, V>(t: seq<Entry<K, V>>, order: seq<nat>, n: nat, k: K, v: V)
    requires Slots(t, order) && Links(t, order) && n < |t| && !t[n].k.Live?
    requires TailOf(order) < |t|
    ensures Links(Placed(t, n, k, v, TailOf(order)), order + [n])
  {
    var t', order' := Placed(t, n, k, v, TailOf(order)), order + [n];
    forall i | 0 <= i < |order'|
      ensures t'[order'[i]].next == NextOf(order', i) && t'[order'[i]].prev == PrevOf(order', i)
    {
      if i < |order| {
        assert order[i] in order;
        assert order[i] == TailOf(order) <==> i == |order| - 1;
      }
    }
  }

  lemma PlacedProbes<K, V>(t: seq<Entry<K, V>>, n: nat, k: K, v: V, tail: int, hash: K -> nat)
    requires Probes(t, hash) && n < |t| && -1 <= tail < |t| && !t[n].k.Live?
    requires forall d :: 0 <= d < Steps(Home(hash, k, |t|), n, |t|) ==>
               t[At(Home(hash, k, |t|), d, |t|)].k.Live?
    ensures Probes(Placed(t, n, k, v, tail), hash)
  {
    var t' := Placed(t, n, k, v, tail);
    forall x, m | 0 <= x < |t'| && 0 <= m < |t'| && t'[x].k.Live? && t'[m].k.Empty?
      ensures Steps(Home(hash, t'[x].k.key, |t'|), x, |t'|) <= Steps(Home(hash, t'[x].k.key, |t'|), m, |t'|)
    {
      assert t[m].k.Empty?;
      if x == n {
        var d := Steps(Home(hash, k, |t|), m, |t|);
        assert At(Home(hash, k, |t|), d, |t|) == m;
      } else {
        assert t[x].k == t'[x].k;
      }
    }
  }

  lemma PlacedUnique<K, V>(t: seq<Entry<K, V>>, n: nat, k: K, v: V, tail: int)
    requires UniqueKeys(t) && n < |t| && -1 <= tail < |t| && !t[n].k.Live?
    requires forall m :: 0 <= m < |t| ==> t[m].k != Live(k)
    ensures UniqueKeys(Placed(t, n, k, v, tail))
  {
    var t' := Placed(t, n, k, v, tail);
    assert forall m :: 0 <= m < |t| && m != n ==> t'[m].k == t[m].k;
  }

  // ---------------------------------------------------------------- deletion

  /** The table with the i-th entry unlinked and its slot turned into a tombstone. */
  function Unlinked<K, V>(t: seq<Entry<K, V>>, order: seq<nat>, i: nat): seq<Entry<K, V>>
    requires i < |order| && forall j :: 0 <= j < |order| ==> order[j] < |t|
  {
    var n := order[i];
    var t1 := if i > 0 then t[order[i - 1] := t[order[i - 1]].(next := NextOf(order, i))] else t;
    var t2 := if i + 1 < |order|
              then t1[order[i + 1] := t1[order[i + 1]].(prev := PrevOf(order, i))] else t1;
    t2[n := Entry(Freed, None, NIL, NIL)]
  }

  lemma UnlinkedKeys<K, V>(t: seq<Entry<K, V>>, order: seq<nat>, i: nat)
    requires Slots(t, order) && i < |order|
    ensures var t' := Unlinked(t, order, i);
      && |t'| == |t| && t'[order[i]].k == Freed
      && forall m :: 0 <= m < |t| && m != order[i] ==> t'[m].k == t[m].k && t'[m].v == t[m].v
  {
  }

  lemma UnlinkedSlots<K, V>(t: seq<Entry<K, V>>, order: seq<nat>, i: nat)
    requires Slots(t, order) && i < |order|
    ensures Slots(Unlinked(t, order, i), Without(order, i))
  {
    var t', order' := Unlinked(t, order, i), Without(order, i);
    UnlinkedKeys(t, order, i);
    WithoutIn(order, i);
    forall m | 0 <= m < |t'| ensures t'[m].k.Live? <==> m in order' {
      assert m != order[i] ==> t'[m].k == t[m].k;
    }
    forall j | 0 <= j < |order'| ensures order'[j] == order[if j < i then j else j + 1] {}
  }

  lemma UnlinkedEntry<K, V>(t: seq<Entry<K, V>>, order: seq<nat>, i: nat, j: nat)
    requires Slots(t, order) && i < |order| && j + 1 < |order|
    requires Slots(Unlinked(t, order, i), Without(order, i))
    ensures Entries(Unlinked(t, order, i), Without(order, i))[j] ==
      Entries(t, order)[if j < i then j else j + 1]
  {
    var t', j' := Unlinked(t, order, i), if j < i then j else j + 1;
    UnlinkedKeys(t, order, i);
    WithoutAround(order, i, j);
    assert order[j'] != order[i];
    assert t'[order[j']].k == t[order[j']].k && t'[order[j']].v == t[order[j']].v;
  }

  lemma UnlinkedEntries<K, V>(t: seq<Entry<K, V>>, order: seq<nat>, i: nat)
    requires Slots(t, order) && i < |order| && Slots(Unlinked(t, order, i), Without(order, i))
    ensures Entries(Unlinked(t, order, i), Without(order, i)) == Without(Entries(t, order), i)
  {
    var es, es' := Entries(t, order), Entries(Unlinked(t, order, i), Without(order, i));
    forall j | 0 <= j < |es'| ensures es'[j] == es[if j < i then j else j + 1] {
      UnlinkedEntry(t, order, i, j);
    }
    assert es' == Without(es, i);
  }

  lemma UnlinkedAt<K, V>(t: seq<Entry<K, V>>, order: seq<nat>, i: nat, j: nat)
    requires Slots(t, order) && i < |order| && j < |order| && j != i
    ensures var e := Unlinked(t, order, i)[order[j]];
      && e.next == (if j == i - 1 then NextOf(order, i) else t[order[j]].next)
      && e.prev == (if j == i + 1 then PrevOf(order, i) else t[order[j]].prev)
  {
    assert order[j] != order[i];
    assert i > 0 && j != i - 1 ==> order[j] != order[i - 1];
    assert i + 1 < |order| && j != i + 1 ==> order[j] != order[i + 1];
  }

  /** The neighbours of a slot once the i-th is gone. */
  lemma WithoutAround(order: seq<nat>, i: nat, j: nat)
    requires i < |order| && j + 1 < |order|
    ensures var order', j' := Without(order, i), if j < i then j else j + 1;
      && order'[j] == order[j']
      && NextOf(order', j) == (if j' == i - 1 then NextOf(order, i) else NextOf(order, j'))
      && PrevOf(order', j) == (if j' == i + 1 then PrevOf(order, i) else PrevOf(order, j'))
  {
  }

  lemma UnlinkedLinks<K, V>(t: seq<Entry<K, V>>, order: seq<nat>, i: nat)
    requires Slots(t, order) && Links(t, order) && i < |order|
    ensures Links(Unlinked(t, order, i), Without(order, i))
  {
    var t', order' := Unlinked(t, order, i), Without(order, i);
    forall j | 0 <= j < |order'|
      ensures order'[j] < |t'|
      ensures t'[order'[j]].next == NextOf(order', j) && t'[order'[j]].prev == PrevOf(order', j)
    {
      var j' := if j < i then j else j + 1;
      WithoutAround(order, i, j);
      UnlinkedAt(t, order, i, j');
    }
  }

  /** Tombstones are not empty, so deletion keeps every probe path. */
  lemma UnlinkedProbes<K, V>(t: seq<Entry<K, V>>, order: seq<nat>, i: nat, hash: K -> nat)
    requires Slots(t, order) && Probes(t, hash) && UniqueKeys(t) && i < |order|
    ensures Probes(Unlinked(t, order, i), hash) && UniqueKeys(Unlinked(t, order, i))
  {
    UnlinkedKeys(t, order, i);
    var t' := Unlinked(t, order, i);
    forall x, m | 0 <= x < |t'| && 0 <= m < |t'| && t'[x].k.Live? && t'[m].k.Empty?
      ensures Steps(Home(hash, t'[x].k.key, |t'|), x, |t'|) <= Steps(Home(hash, t'[x].k.key, |t'|), m, |t'|)
    {
      assert t[x].k == t'[x].k && t[m].k == t'[m].k;
    }
  }

  // ---------------------------------------------------------------- all invariants together

  ghost predicate Sound<K, V>(t: seq<Entry<K, V>>, order: seq<nat>, hash: K -> nat) {
    Slots(t, order) && Links(t, order) && Probes(t, hash) && UniqueKeys(t)
  }

  /** n is the first slot on the probe path of k that is not live. */
  ghost predicate FirstFree<K, V>(t: seq<Entry<K, V>>, hash: K -> nat, k: K, n: nat) {
    && n < |t| && !t[n].k.Live?
    && forall d :: 0 <= d < Steps(Home(hash, k, |t|), n, |t|) ==>
         t[At(Home(hash, k, |t|), d, |t|)].k.Live?
  }

  /** Placing a fresh key in the first free slot of its probe path appends it. */
  lemma PlacedSound<K, V>(t: seq<Entry<K, V>>, order: seq<nat>, hash: K -> nat, n: nat, k: K, v: V)
    requires Sound(t, order, hash) && FirstFree(t, hash, k, n) && !Bound(Entries(t, order), k)
    ensures TailOf(order) < |t|
    ensures var t' := Placed(t, n, k, v, TailOf(order));
      Sound(t', order + [n], hash) && Entries(t', order + [n]) == Entries(t, order) + [(k, v)]
  {
    PlacedSlots(t, order, n, k, v);
    PlacedEntries(t, order, n, k, v);
    PlacedLinks(t, order, n, k, v);
    PlacedProbes(t, n, k, v, TailOf(order), hash);
    BoundIffLive(t, order, k);
    PlacedUnique(t, n, k, v, TailOf(order));
  }

  /** Deleting the i-th entry removes it and leaves the rest in order. */
  lemma UnlinkedSound<K, V>(t: seq<Entry<K, V>>, order: seq<nat>, hash: K -> nat, i: nat)
    requires Sound(t, order, hash) && i < |order|
    ensures var t', order' := Unlinked(t, order, i), Without(order, i);
      Sound(t', order', hash) && Entries(t', order') == Without(Entries(t, order), i)
  {
    UnlinkedSlots(t, order, i);
    UnlinkedEntries(t, order, i);
    UnlinkedLinks(t, order, i);
    UnlinkedProbes(t, order, i, hash);
  }

  /** A probe that meets an empty slot before it meets k proves k absent. */
  lemma EmptyEndsProbe<K, V>(t: seq<Entry<K, V>>, order: seq<nat>, hash: K -> nat, k: K, d: nat)
    requires Sound(t, order, hash) && |t| > 0 && d <= |t|
    requires d < |t| ==> t[At(Home(hash, k, |t|), d, |t|)].k.Empty?
    requires forall e :: 0 <= e < d ==> t[At(Home(hash, k, |t|), e, |t|)].k != Live(k)
    ensures !Bound(Entries(t, order), k)
  {
    BoundIffLive(t, order, k);
    if n :| 0 <= n < |t| && t[n].k == Live(k) {
      var home := Home(hash, k, |t|);
      var e := Steps(home, n, |t|);
      assert At(home, e, |t|) == n;
      if d < |t| {
        StepsAt(home, d, |t|);
      }
    }
  }

  // ---------------------------------------------------------------- as an ordered map

  function Find<K(==), V>(s: seq<(K, V)>, k: K): (r: int)
    ensures -1 <= r < |s|
    ensures r >= 0 ==> s[r].0 == k
    ensures r == -1 <==> !Bound(s, k)
  {
    if s == [] then -1
    else if s[|s| - 1].0 == k then |s| - 1
    else Find(s[..|s| - 1], k)
  }

  ghost predicate DistinctKeys<K, V>(s: seq<(K, V)>) {
    forall i, j :: 0 <= i < j < |s| ==> s[i].0 != s[j].0
  }

  lemma EntriesDistinct<K, V>(t: seq<Entry<K, V>>, order: seq<nat>)
    requires Slots(t, order) && UniqueKeys(t)
    ensures DistinctKeys(Entries(t, order))
  {
    var es := Entries(t, order);
    forall i, j | 0 <= i < j < |es| ensures es[i].0 != es[j].0 {
      assert order[i] in order && order[j] in order;
    }
  }

  lemma {:induction false} FindUnique<K, V>(s: seq<(K, V)>, k: K, i: nat)
    requires DistinctKeys(s) && i < |s| && s[i].0 == k
    ensures Find(s, k) == i
    ensures !Bound(Without(s, i), k)
  {
    var r := Find(s, k);
    assert Bound(s, k);
    assert r < i || r == i || r > i;
    var w := Without(s, i);
    forall j | 0 <= j < |w| ensures w[j].0 != k {
      assert w[j] == s[if j < i then j else j + 1];
    }
  }

  lemma SlotIndex<K, V>(t: seq<Entry<K, V>>, order: seq<nat>, n: nat) returns (i: nat)
    requires Slots(t, order) && Links(t, order) && UniqueKeys(t) && n < |t| && t[n].k.Live?
    ensures i < |order| && order[i] == n
    ensures t[n].next == NextOf(order, i) && t[n].prev == PrevOf(order, i)
    ensures Entries(t, order)[i].0 == t[n].k.key && DistinctKeys(Entries(t, order))
    ensures Neighbours(order, i, |t|)
  {
    assert n in order;
    i :| 0 <= i < |order| && order[i] == n;
    EntriesDistinct(t, order);
  }

  /** Slot i of the list and the slots around it are different slots of the table. */
  ghost predicate Neighbours(order: seq<nat>, i: nat, size: nat) {
    && i < |order| && (forall j :: 0 <= j < |order| ==> order[j] < size)
    && (i > 0 ==> order[i - 1] != order[i])
    && (i + 1 < |order| ==> order[i + 1] != order[i])
    && (i > 0 && i + 1 < |order| ==> order[i - 1] != order[i + 1])
    && (|order| > 1 ==> order[0] != order[|order| - 1])
    && (i > 0 ==> order[0] != order[i])
    && (i + 1 < |order| ==> order[|order| - 1] != order[i])
  }

  /** What a walk along the list from slot n sees: the keys and values `es`, up to its end. */
  ghost predicate Walk<K, V>(t: seq<Entry<K, V>>, n: int, es: seq<(K, V)>)
    decreases |es|
  {
    if es == [] then n == NIL
    else 0 <= n < |t| && t[n].k == Live(es[0].0) && t[n].v == Some(es[0].1) &&
         Walk(t, t[n].next, es[1..])
  }

  lemma {:induction false} WalkFrom<K, V>(t: seq<Entry<K, V>>, order: seq<nat>, i: nat)
    requires Slots(t, order) && Links(t, order) && i <= |order|
    ensures Walk(t, if i < |order| then order[i] else NIL, Entries(t, order)[i..])
    decreases |order| - i
  {
    if i < |order| {
      assert order[i] in order;
      WalkFrom(t, order, i + 1);
    }
  }

  /** The list holds the table's entries in order. */
  lemma WalkEntries<K, V>(t: seq<Entry<K, V>>, order: seq<nat>)
    requires Slots(t, order) && Links(t, order) && UniqueKeys(t)
    ensures Walk(t, HeadOf(order), Entries(t, order)) && DistinctKeys(Entries(t, order))
  {
    EntriesDistinct(t, order);
    WalkFrom(t, order, 0);
  }

  /** Entries `done` and `rest` of a list: the first of the rest is new and may be moved over. */
  lemma MoveOver<K, V>(es: seq<(K, V)>, done: seq<(K, V)>, rest: seq<(K, V)>)
    requires es == done + rest && DistinctKeys(es) && rest != []
    ensures !Bound(done, rest[0].0)
    ensures es == done + [rest[0]] + rest[1..]
  {
    forall i | 0 <= i < |done| ensures done[i].0 != rest[0].0 {
      assert es[i].0 != es[|done|].0;
    }
  }

  /** Everything deletion of the live slot n relies on. */
  lemma DeletionPlan<K, V>(t: seq<Entry<K, V>>, order: seq<nat>, hash: K -> nat, n: nat)
    returns (i: nat)
    requires Sound(t, order, hash) && n < |t| && t[n].k.Live?
    ensures Neighbours(order, i, |t|) && order[i] == n
    ensures t[n].next == NextOf(order, i) && t[n].prev == PrevOf(order, i)
    ensures Sound(Unlinked(t, order, i), Without(order, i), hash)
    ensures Entries(t, order)[i].0 == t[n].k.key
    ensures Entries(Unlinked(t, order, i), Without(order, i)) == Without(Entries(t, order), i)
  {
    i := SlotIndex(t, order, n);
    UnlinkedSound(t, order, hash, i);
  }

  /** Adding to an object: an existing key keeps its place and gets the new value. */
  function Updated<K(==), V>(s: seq<(K, V)>, k: K, v: V): seq<(K, V)> {
    var i := Find(s, k);
    if i >= 0 then s[i := (k, v)] else s + [(k, v)]
  }

  lemma SetValue<K, V>(t: seq<Entry<K, V>>, order: seq<nat>, hash: K -> nat, i: nat, v: V)
    requires Sound(t, order, hash) && i < |order|
    ensures var t' := t[order[i] := t[order[i]].(v := Some(v))];
      Sound(t', order, hash) && Entries(t', order) == Entries(t, order)[i := (t[order[i]].k.key, v)]
  {
    var t' := t[order[i] := t[order[i]].(v := Some(v))];
    assert order[i] in order;
    assert forall m :: 0 <= m < |t| ==>
      t'[m].k == t[m].k && t'[m].next == t[m].next && t'[m].prev == t[m].prev;
    assert forall m :: 0 <= m < |t| && m != order[i] ==> t'[m].v == t[m].v;
    forall j | 0 <= j < |order|
      ensures j != i ==> order[j] != order[i]
    {}
    SetValueProbes(t, t', hash);
  }

  lemma SetValueProbes<K, V>(t: seq<Entry<K, V>>, t': seq<Entry<K, V>>, hash: K -> nat)
    requires Probes(t, hash) && UniqueKeys(t)
    requires |t'| == |t| && forall m :: 0 <= m < |t| ==> t'[m].k == t[m].k
    ensures Probes(t', hash) && UniqueKeys(t')
  {
    forall x, m | 0 <= x < |t'| && 0 <= m < |t'| && t'[x].k.Live? && t'[m].k.Empty?
      ensures Steps(Home(hash, t'[x].k.key, |t'|), x, |t'|) <= Steps(Home(hash, t'[x].k.key, |t'|), m, |t'|)
    {
      assert t[x].k == t'[x].k && t[m].k == t'[m].k;
    }
  }

  lemma UpdatePlan<K, V>(t: seq<Entry<K, V>>, order: seq<nat>, hash: K -> nat, n: nat, v: V)
    requires Sound(t, order, hash) && n < |t| && t[n].k.Live?
    ensures var t' := t[n := t[n].(v := Some(v))];
      Sound(t', order, hash) && Entries(t', order) == Updated(Entries(t, order), t[n].k.key, v)
  {
    var i := SlotIndex(t, order, n);
    FindUnique(Entries(t, order), t[n].k.key, i);
    SetValue(t, order, hash, i, v);
  }
}
