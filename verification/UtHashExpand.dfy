/** Doubling the buckets: every element is moved to the front of its new chain, one after
    another, in the links that still hold the old chains together. */
module UtHashExpand {
  import opened UtHash

  /** What is left of the old chains. */
  ghost predicate Left(l: Links, hashv: map<Ptr, nat>, rest: seq<seq<Ptr>>) {
    forall j :: 0 <= j < |rest| ==> Walkable(l, rest[j]) && InBucket(hashv, rest[j], j, |rest|)
  }

  /** No element that is left has been moved. */
  ghost predicate Apart(hashv: map<Ptr, nat>, rest: seq<seq<Ptr>>, moved: seq<seq<Ptr>>) {
    && |moved| > 0
    && forall j, x :: 0 <= j < |rest| && x in rest[j] ==> x in hashv && x !in moved[Slot(hashv[x], |moved|)]
  }

  /** Every element is left or moved, and nothing else is. */
  ghost predicate Accounted(hashv: map<Ptr, nat>, order: seq<Ptr>, rest: seq<seq<Ptr>>, moved: seq<seq<Ptr>>) {
    && |rest| > 0 && |moved| > 0
    && (forall x <- order :: x in hashv && (x in rest[Slot(hashv[x], |rest|)] || x in moved[Slot(hashv[x], |moved|)]))
    && (forall j, x :: 0 <= j < |rest| && x in rest[j] ==> x in order)
    && (forall b, x :: 0 <= b < |moved| && x in moved[b] ==> x in order)
    && Total(rest) + Total(moved) == |order|
  }

  ghost predicate Expanding(l: Links, hashv: map<Ptr, nat>, order: seq<Ptr>, rest: seq<seq<Ptr>>,
                            moved: seq<seq<Ptr>>)
  {
    && Bucketed(l, hashv, moved) && Left(l, hashv, rest)
    && Apart(hashv, rest, moved) && Accounted(hashv, order, rest, moved)
  }

  lemma MoveLeft(l: Links, hashv: map<Ptr, nat>, rest: seq<seq<Ptr>>, moved: seq<seq<Ptr>>, j: nat)
    requires Bucketed(l, hashv, moved) && Left(l, hashv, rest) && Apart(hashv, rest, moved)
    requires j < |rest| && rest[j] != []
    ensures var x := rest[j][0]; var b := Slot(hashv[x], |moved|);
      && (First(moved[b]) == NULL || First(moved[b]) in l)
      && Left(PushedFront(l, First(moved[b]), x), hashv, rest[j := rest[j][1..]])
  {
    var x := rest[j][0];
    var b := Slot(hashv[x], |moved|);
    assert Threaded(l, moved[b]) && InBucket(hashv, moved[b], b, |moved|);
    var l', rest' := PushedFront(l, First(moved[b]), x), rest[j := rest[j][1..]];
    forall i | 0 <= i < |rest'| ensures Walkable(l', rest'[i]) && InBucket(hashv, rest'[i], i, |rest'|) {
      assert Walkable(l, rest[i]) && InBucket(hashv, rest[i], i, |rest|);
      assert InBucket(hashv, rest[j], j, |rest|);
      forall a | 0 <= a < |rest'[i]|
        ensures rest'[i][a] in l' && l'[rest'[i][a]].next == NextIn(rest'[i], a) && rest'[i][a] in hashv
      {
        var a' := if i == j then a + 1 else a;
        assert rest'[i][a] == rest[i][a'];
        assert rest[i][a'] in rest[i] && x in rest[j];
        assert rest[i][a'] != x;
        assert rest[i][a'] !in moved[Slot(hashv[rest[i][a']], |moved|)];
        assert moved[b] != [] ==> rest[i][a'] != moved[b][0];
      }
    }
  }

  lemma MoveApart(hashv: map<Ptr, nat>, rest: seq<seq<Ptr>>, moved: seq<seq<Ptr>>, l: Links, j: nat)
    requires Left(l, hashv, rest) && Apart(hashv, rest, moved) && j < |rest| && rest[j] != []
    ensures var x := rest[j][0]; var b := Slot(hashv[x], |moved|);
      Apart(hashv, rest[j := rest[j][1..]], moved[b := [x] + moved[b]])
  {
    var x := rest[j][0];
    assert Walkable(l, rest[j]) && InBucket(hashv, rest[j], j, |rest|);
    var rest' := rest[j := rest[j][1..]];
    forall i, y | 0 <= i < |rest'| && y in rest'[i]
      ensures y in hashv && y != x && y !in moved[Slot(hashv[y], |moved|)]
    {
      assert y in rest[i] && x in rest[j];
      assert InBucket(hashv, rest[i], i, |rest|);
    }
  }

  lemma MoveAccounted(hashv: map<Ptr, nat>, order: seq<Ptr>, rest: seq<seq<Ptr>>, moved: seq<seq<Ptr>>, j: nat)
    requires Accounted(hashv, order, rest, moved) && j < |rest| && rest[j] != [] && rest[j][0] in hashv
    ensures var x := rest[j][0]; var b := Slot(hashv[x], |moved|);
      Accounted(hashv, order, rest[j := rest[j][1..]], moved[b := [x] + moved[b]])
  {
    var x := rest[j][0];
    var b := Slot(hashv[x], |moved|);
    var rest', moved' := rest[j := rest[j][1..]], moved[b := [x] + moved[b]];
    TotalUpdate(rest, j, rest[j][1..]);
    TotalUpdate(moved, b, [x] + moved[b]);
    forall y <- order ensures y in rest'[Slot(hashv[y], |rest|)] || y in moved'[Slot(hashv[y], |moved|)] {
      if y != x && y in rest[Slot(hashv[y], |rest|)] {
        var i := Slot(hashv[y], |rest|);
        var a :| 0 <= a < |rest[i]| && rest[i][a] == y;
        assert rest'[i][if i == j then a - 1 else a] == y;
      }
    }
    forall i, y | 0 <= i < |rest'| && y in rest'[i] ensures y in order {
      assert y in rest[i];
    }
    forall c, y | 0 <= c < |moved'| && y in moved'[c] ensures y in order {
      assert y == x || y in moved[c];
    }
  }

  /** Moving the first element that is left of a chain. */
  lemma MoveOne(l: Links, hashv: map<Ptr, nat>, order: seq<Ptr>, rest: seq<seq<Ptr>>, moved: seq<seq<Ptr>>, j: nat)
    requires Expanding(l, hashv, order, rest, moved) && j < |rest| && rest[j] != []
    ensures rest[j][0] in hashv && rest[j][0] in l && l[rest[j][0]].next == First(rest[j][1..])
    ensures var x := rest[j][0]; var b := Slot(hashv[x], |moved|);
      && (First(moved[b]) == NULL || First(moved[b]) in l)
      && Expanding(PushedFront(l, First(moved[b]), x), hashv, order,
                   rest[j := rest[j][1..]], moved[b := [x] + moved[b]])
  {
    var x := rest[j][0];
    assert Walkable(l, rest[j]) && InBucket(hashv, rest[j], j, |rest|);
    MoveLeft(l, hashv, rest, moved, j);
    MoveApart(hashv, rest, moved, l, j);
    MoveAccounted(hashv, order, rest, moved, j);
    PushInBucket(l, hashv, moved, Slot(hashv[x], |moved|), x);
  }

  /** The same for a chain of which s is left. */
  lemma MoveNext(l: Links, hashv: map<Ptr, nat>, order: seq<Ptr>, rest: seq<seq<Ptr>>, s: seq<Ptr>,
                 moved: seq<seq<Ptr>>, j: nat, b: nat)
    requires j < |rest| && Expanding(l, hashv, order, rest[j := s], moved) && s != []
    requires s[0] in hashv ==> b == Slot(hashv[s[0]], |moved|)
    ensures s[0] in hashv && s[0] in l && l[s[0]].next == First(s[1..])
    ensures First(moved[b]) == NULL || First(moved[b]) in l
    ensures Expanding(PushedFront(l, First(moved[b]), s[0]), hashv, order,
                      rest[j := s[1..]], moved[b := [s[0]] + moved[b]])
  {
    var r := rest[j := s];
    assert r[j] == s && r[j := s[1..]] == rest[j := s[1..]];
    assert InBucket(hashv, r[j], j, |r|) && s[0] in s;
    MoveOne(l, hashv, order, r, moved, j);
  }

  lemma LeftFirst(l: Links, hashv: map<Ptr, nat>, order: seq<Ptr>, rest: seq<seq<Ptr>>, s: seq<Ptr>,
                  moved: seq<seq<Ptr>>, j: nat)
    requires j < |rest| && Expanding(l, hashv, order, rest[j := s], moved)
    ensures First(s) == NULL <==> s == []
    ensures s != [] ==> s[0] in hashv
  {
    assert Walkable(l, rest[j := s][j]) && InBucket(hashv, rest[j := s][j], j, |rest|);
  }

  lemma ExpandStart(l: Links, hashv: map<Ptr, nat>, order: seq<Ptr>, chains: seq<seq<Ptr>>, empty: seq<seq<Ptr>>)
    requires Bucketed(l, hashv, chains) && Filed(hashv, order, chains)
    requires |empty| > 0 && forall b :: 0 <= b < |empty| ==> empty[b] == []
    ensures Expanding(l, hashv, order, chains, empty)
  {
    TotalEmpty(empty);
    forall j | 0 <= j < |chains| ensures Walkable(l, chains[j]) && InBucket(hashv, chains[j], j, |chains|) {
      assert Threaded(l, chains[j]);
    }
  }

  /** With nothing left, the new chains hold the table. */
  lemma ExpandDone(l: Links, hashv: map<Ptr, nat>, order: seq<Ptr>, rest: seq<seq<Ptr>>, moved: seq<seq<Ptr>>)
    requires Expanding(l, hashv, order, rest, moved)
    requires forall j :: 0 <= j < |rest| ==> rest[j] == []
    ensures Bucketed(l, hashv, moved) && Filed(hashv, order, moved)
  {
    TotalEmpty(rest);
  }
}
