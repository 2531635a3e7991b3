/** The chained hash table of uthash: a doubly linked list of all elements in the order of
    the application, and one of the elements of each bucket. Memory is one map per field of
    a handle, from addresses. */
module UtHash {
  import opened Seqs

  type Ptr = nat

  const NULL: Ptr := 0

  datatype Link = Link(next: Ptr, prev: Ptr)

  type Links = map<Ptr, Link>

  // ---------------------------------------------------------------- linked lists

  function NextIn(s: seq<Ptr>, i: nat): Ptr {
    if i + 1 < |s| then s[i + 1] else NULL
  }

  function PrevIn(s: seq<Ptr>, i: nat): Ptr {
    if 0 < i <= |s| then s[i - 1] else NULL
  }

  function First(s: seq<Ptr>): Ptr {
    if s == [] then NULL else s[0]
  }

  function Last(s: seq<Ptr>): Ptr {
    if s == [] then NULL else s[|s| - 1]
  }

  /** The links lead through s and back. */
  ghost predicate Threaded(l: Links, s: seq<Ptr>) {
    && (forall i :: 0 <= i < |s| ==> s[i] != NULL && s[i] in l)
    && (forall i {:trigger l[s[i]]} :: 0 <= i < |s| ==> l[s[i]] == Link(NextIn(s, i), PrevIn(s, i)))
    && (forall i, j :: 0 <= i < j < |s| ==> s[i] != s[j])
  }

  /** Only what the list runs through matters. */
  lemma ThreadedFrame(l: Links, l': Links, s: seq<Ptr>)
    requires Threaded(l, s) && forall i :: 0 <= i < |s| ==> s[i] in l' && l'[s[i]] == l[s[i]]
    ensures Threaded(l', s)
  {
  }

  function PushedFront(l: Links, head: Ptr, x: Ptr): (r: Links)
    requires head == NULL || head in l
    ensures r.Keys == l.Keys + {x}
  {
    var l1 := l[x := Link(head, NULL)];
    if head != NULL then l1[head := l1[head].(prev := x)] else l1
  }

  lemma PushFront(l: Links, s: seq<Ptr>, x: Ptr)
    requires Threaded(l, s) && x != NULL && x !in s
    ensures Threaded(PushedFront(l, First(s), x), [x] + s)
  {
    var l', s' := PushedFront(l, First(s), x), [x] + s;
    forall i | 0 <= i < |s'| ensures l'[s'[i]] == Link(NextIn(s', i), PrevIn(s', i)) {
      if i > 0 {
        assert s'[i] == s[i - 1];
      }
    }
  }

  function PushedBack(l: Links, tail: Ptr, x: Ptr): (r: Links)
    requires tail == NULL || tail in l
    ensures r.Keys == l.Keys + {x}
  {
    var l1 := l[x := Link(NULL, tail)];
    if tail != NULL then l1[tail := l1[tail].(next := x)] else l1
  }

  lemma PushBack(l: Links, s: seq<Ptr>, x: Ptr)
    requires Threaded(l, s) && x != NULL && x !in s
    ensures Threaded(PushedBack(l, Last(s), x), s + [x])
  {
    var l', s' := PushedBack(l, Last(s), x), s + [x];
    forall i | 0 <= i < |s'| ensures l'[s'[i]] == Link(NextIn(s', i), PrevIn(s', i)) {
      if i < |s| - 1 {
        assert s[i] != s[|s| - 1];
      }
    }
  }

  function Unlinked(l: Links, x: Ptr): (r: Links)
    requires x in l && (l[x].prev == NULL || l[x].prev in l) && (l[x].next == NULL || l[x].next in l)
    ensures r.Keys == l.Keys
  {
    var Link(next, prev) := l[x];
    var l1 := if prev != NULL then l[prev := l[prev].(next := next)] else l;
    if next != NULL then l1[next := l1[next].(prev := prev)] else l1
  }

  lemma WithoutNext(s: seq<Ptr>, i: nat, j: nat)
    requires i < |s| && j + 1 < |s|
    ensures var s', j' := Without(s, i), if j < i then j else j + 1;
      && s'[j] == s[j']
      && NextIn(s', j) == (if j' + 1 == i then NextIn(s, i) else NextIn(s, j'))
      && PrevIn(s', j) == (if j' == i + 1 then PrevIn(s, i) else PrevIn(s, j'))
  {
  }

  lemma UnlinkedAt(l: Links, s: seq<Ptr>, i: nat, j: nat)
    requires Threaded(l, s) && i < |s| && j < |s| && j != i
    ensures Unlinked(l, s[i])[s[j]] ==
      Link(if j + 1 == i then NextIn(s, i) else NextIn(s, j), if j == i + 1 then PrevIn(s, i) else PrevIn(s, j))
  {
    assert l[s[i]] == Link(NextIn(s, i), PrevIn(s, i)) && l[s[j]] == Link(NextIn(s, j), PrevIn(s, j));
    NeighbourIff(s, i, j);
  }

  /** In a list without repetitions only the neighbours are next to an element. */
  lemma NeighbourIff(s: seq<Ptr>, i: nat, j: nat)
    requires i < |s| && j < |s| && j != i && s[j] != NULL
    requires forall a, b :: 0 <= a < b < |s| ==> s[a] != s[b]
    ensures PrevIn(s, i) == s[j] <==> j + 1 == i
    ensures NextIn(s, i) == s[j] <==> j == i + 1
  {
  }

  lemma WithoutDistinct(s: seq<Ptr>, i: nat)
    requires i < |s| && forall a, b :: 0 <= a < b < |s| ==> s[a] != s[b]
    ensures forall a, b :: 0 <= a < b < |s| - 1 ==> Without(s, i)[a] != Without(s, i)[b]
    ensures s[i] !in Without(s, i)
  {
    var s' := Without(s, i);
    assert forall a :: 0 <= a < |s'| ==> s'[a] == s[if a < i then a else a + 1];
  }

  lemma Unlink(l: Links, s: seq<Ptr>, i: nat)
    requires Threaded(l, s) && i < |s|
    ensures Threaded(Unlinked(l, s[i]), Without(s, i))
  {
    var l', s' := Unlinked(l, s[i]), Without(s, i);
    WithoutDistinct(s, i);
    forall j | 0 <= j < |s'| ensures s'[j] != NULL && s'[j] in l' && l'[s'[j]] == Link(NextIn(s', j), PrevIn(s', j)) {
      WithoutNext(s, i, j);
      UnlinkedAt(l, s, i, if j < i then j else j + 1);
    }
  }

  /** Unlinking touches the list only. */
  lemma UnlinkTouches(l: Links, s: seq<Ptr>, i: nat, p: Ptr)
    requires Threaded(l, s) && i < |s| && p in l && p !in s
    ensures Unlinked(l, s[i])[p] == l[p]
  {
    assert i > 0 ==> s[i - 1] in s;
    assert i + 1 < |s| ==> s[i + 1] in s;
  }

  // ---------------------------------------------------------------- buckets

  /** The bucket of a hash among n: its remainder. */
  function Slot(h: nat, n: nat): (b: nat)
    requires n > 0
    ensures b < n
  {
    if h < n then h else Slot(h - n, n)
  }

  /** Every chain threads elements whose hash belongs to its bucket; so chains are disjoint. */
  ghost predicate Bucketed(l: Links, hashv: map<Ptr, nat>, chains: seq<seq<Ptr>>) {
    forall b :: 0 <= b < |chains| ==> Threaded(l, chains[b]) && InBucket(hashv, chains[b], b, |chains|)
  }

  ghost predicate InBucket(hashv: map<Ptr, nat>, s: seq<Ptr>, b: nat, n: nat)
    requires n > 0
  {
    forall x <- s :: x in hashv && Slot(hashv[x], n) == b
  }

  /** l' differs from l on the elements of one bucket only. */
  ghost predicate Touches(l: Links, l': Links, hashv: map<Ptr, nat>, b: nat, n: nat)
    requires n > 0
  {
    forall p :: p in l && p in hashv && Slot(hashv[p], n) != b ==> p in l' && l'[p] == l[p]
  }

  /** A change to one chain leaves the others. */
  lemma ChangeChain(l: Links, l': Links, hashv: map<Ptr, nat>, chains: seq<seq<Ptr>>, b: nat, s: seq<Ptr>)
    requires Bucketed(l, hashv, chains) && b < |chains| && Touches(l, l', hashv, b, |chains|)
    requires Threaded(l', s) && InBucket(hashv, s, b, |chains|)
    ensures Bucketed(l', hashv, chains[b := s])
  {
    forall c | 0 <= c < |chains| && c != b ensures Threaded(l', chains[c]) {
      assert InBucket(hashv, chains[c], c, |chains|);
      ThreadedFrame(l, l', chains[c]);
    }
  }

  lemma PushInBucket(l: Links, hashv: map<Ptr, nat>, chains: seq<seq<Ptr>>, b: nat, x: Ptr)
    requires Bucketed(l, hashv, chains) && b < |chains| && x in hashv && Slot(hashv[x], |chains|) == b
    requires x != NULL && x !in chains[b]
    ensures Bucketed(PushedFront(l, First(chains[b]), x), hashv, chains[b := [x] + chains[b]])
  {
    var s := chains[b];
    assert Threaded(l, s) && InBucket(hashv, s, b, |chains|);
    PushFront(l, s, x);
    ChangeChain(l, PushedFront(l, First(s), x), hashv, chains, b, [x] + s);
  }

  lemma UnlinkInBucket(l: Links, hashv: map<Ptr, nat>, chains: seq<seq<Ptr>>, b: nat, i: nat)
    requires Bucketed(l, hashv, chains) && b < |chains| && i < |chains[b]|
    ensures Threaded(l, chains[b])
    ensures Bucketed(Unlinked(l, chains[b][i]), hashv, chains[b := Without(chains[b], i)])
  {
    var s := chains[b];
    assert Threaded(l, s) && InBucket(hashv, s, b, |chains|);
    Unlink(l, s, i);
    var l' := Unlinked(l, s[i]);
    forall p | p in l && p in hashv && Slot(hashv[p], |chains|) != b ensures l'[p] == l[p] {
      UnlinkTouches(l, s, i, p);
    }
    ChangeChain(l, l', hashv, chains, b, Without(s, i));
  }

  // ---------------------------------------------------------------- counting

  function Total(chains: seq<seq<Ptr>>): nat {
    if chains == [] then 0 else |chains[0]| + Total(chains[1..])
  }

  lemma {:induction false} TotalUpdate(chains: seq<seq<Ptr>>, b: nat, s: seq<Ptr>)
    requires b < |chains|
    ensures Total(chains[b := s]) == Total(chains) - |chains[b]| + |s|
    decreases |chains|
  {
    if b == 0 {
      assert chains[b := s][1..] == chains[1..];
    } else {
      assert chains[b := s][1..] == chains[1..][b - 1 := s];
      TotalUpdate(chains[1..], b - 1, s);
    }
  }

  lemma {:induction false} TotalPrefix(chains: seq<seq<Ptr>>, i: nat)
    requires i < |chains|
    ensures Total(chains[..i + 1]) == Total(chains[..i]) + |chains[i]|
    decreases |chains|
  {
    assert chains[..i + 1][1..] == chains[1..][..i];
    if i > 0 {
      assert chains[..i][1..] == chains[1..][..i - 1];
      TotalPrefix(chains[1..], i - 1);
    }
  }

  lemma {:induction false} TotalEmpty(chains: seq<seq<Ptr>>)
    requires forall b :: 0 <= b < |chains| ==> chains[b] == []
    ensures Total(chains) == 0
    decreases |chains|
  {
    if chains != [] {
      TotalEmpty(chains[1..]);
    }
  }

  /** Walking along what is left of a chain; the way back need not be intact. */
  ghost predicate Walkable(l: Links, s: seq<Ptr>) {
    && (forall i :: 0 <= i < |s| ==> s[i] != NULL && s[i] in l)
    && (forall i {:trigger l[s[i]]} :: 0 <= i < |s| ==> l[s[i]].next == NextIn(s, i))
    && (forall i, j :: 0 <= i < j < |s| ==> s[i] != s[j])
  }

  // ---------------------------------------------------------------- the whole table

  /** All elements are in the chain of their hash, and only they. */
  ghost predicate Filed(hashv: map<Ptr, nat>, order: seq<Ptr>, chains: seq<seq<Ptr>>) {
    && |chains| > 0
    && (forall x <- order :: x in hashv && x in chains[Slot(hashv[x], |chains|)])
    && (forall b, x :: 0 <= b < |chains| && x in chains[b] ==> x in order)
    && Total(chains) == |order|
  }

  ghost predicate Keyed<K>(hash: K -> nat, hashv: map<Ptr, nat>, key: map<Ptr, K>, order: seq<Ptr>) {
    && (forall x <- order :: x in key && x in hashv && hashv[x] == hash(key[x]))
    && (forall x <- order, y <- order :: key[x] == key[y] ==> x == y)
  }

  lemma FileOne(hashv: map<Ptr, nat>, hashv': map<Ptr, nat>, order: seq<Ptr>, chains: seq<seq<Ptr>>, x: Ptr, b: nat)
    requires Filed(hashv, order, chains) && x !in order && b < |chains|
    requires x in hashv' && Slot(hashv'[x], |chains|) == b
    requires forall p :: p in hashv && p != x ==> p in hashv' && hashv'[p] == hashv[p]
    ensures Filed(hashv', order + [x], chains[b := [x] + chains[b]])
  {
    var order', chains' := order + [x], chains[b := [x] + chains[b]];
    TotalUpdate(chains, b, [x] + chains[b]);
    forall y <- order' ensures y in hashv' && y in chains'[Slot(hashv'[y], |chains|)] {
      if y != x {
        assert y in order;
      }
    }
    forall c, y | 0 <= c < |chains'| && y in chains'[c] ensures y in order' {
      if y != x {
        assert y in chains[c];
      }
    }
  }

  lemma UnfileOne(hashv: map<Ptr, nat>, order: seq<Ptr>, chains: seq<seq<Ptr>>, k: nat, b: nat, i: nat)
    requires Filed(hashv, order, chains) && k < |order| && b < |chains| && i < |chains[b]|
    requires chains[b][i] == order[k]
    requires forall a, c :: 0 <= a < c < |order| ==> order[a] != order[c]
    requires forall a, c :: 0 <= a < c < |chains[b]| ==> chains[b][a] != chains[b][c]
    requires forall c :: 0 <= c < |chains| && c != b ==> order[k] !in chains[c]
    ensures Filed(hashv, Without(order, k), chains[b := Without(chains[b], i)])
  {
    TotalUpdate(chains, b, Without(chains[b], i));
    WithoutIn(order, k);
    WithoutIn(chains[b], i);
  }
}
