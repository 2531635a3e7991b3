/** The table as the program holds it: an array of slots changed in place. */
module LinkHashTables {
  import opened Options
  import opened Seqs
  import opened LinkHash

  /** `count` entries went into a table of `size` slots without finding it loaded. */
  predicate Holds(count: nat, size: nat) {
    count == 0 || !Loaded(count - 1, size)
  }

  lemma StillHolds(count: nat, more: nat, size: nat)
    requires Holds(more, size) && count < more
    ensures !Loaded(count, size)
  {
  }

  lemma HoldsMore(count: nat, size: nat, larger: nat)
    requires Holds(count, size) && size <= larger
    ensures Holds(count, larger)
  {
  }

  /** The size that a loaded table grows to. */
  function Doubled(size: nat): nat {
    if size > INT_MAX / 2 then INT_MAX else size * 2
  }

  /** The size of a table after `count` insertions: it is doubled until they fit. */
  function Grown(size: nat, count: nat): (r: nat)
    requires 0 < size <= INT_MAX
    ensures size <= r <= INT_MAX
    ensures r == size <==> Holds(count, size) || size == INT_MAX
    decreases INT_MAX - size
  {
    if Holds(count, size) || size == INT_MAX then size else Grown(Doubled(size), count)
  }

  /** Doubling a loaded table makes room for its entries and one more. */
  lemma DoubledHolds(count: nat, size: nat)
    requires 0 < size < INT_MAX && Holds(count, size)
    ensures Holds(count, Doubled(size)) && !Loaded(count, Doubled(size))
  {
  }

  /** One more insertion doubles the size if it finds the table loaded. */
  lemma {:induction false} GrownStep(size: nat, count: nat)
    requires 0 < size <= INT_MAX && !Loaded(count, INT_MAX)
    ensures var g := Grown(size, count);
      Holds(count, g) && Grown(size, count + 1) == if Loaded(count, g) then Doubled(g) else g
    decreases INT_MAX - size
  {
    if Holds(count, size) {
      if Loaded(count, size) {
        DoubledHolds(count, size);
      }
    } else {
      GrownStep(Doubled(size), count);
    }
  }

  lemma Hit<K, V>(t: seq<Entry<K, V>>, order: seq<nat>, k: K, n: nat)
    requires n < |t| && t[n].k == Live(k)
    ensures Slots(t, order) ==> Bound(Entries(t, order), k)
  {
    if Slots(t, order) {
      BoundIffLive(t, order, k);
    }
  }

  /** A probe that ends without the key: it is not in its home slot, and not in the table if
      all slots were in reach. */
  lemma Missed<K, V>(t: seq<Entry<K, V>>, order: seq<nat>, hash: K -> nat, k: K, size: nat, d: nat)
    requires 0 < size <= |t| && d <= size
    requires d < size ==> t[At(Home(hash, k, size), d, size)].k.Empty?
    requires forall e :: 0 <= e < d ==> t[At(Home(hash, k, size), e, size)].k != Live(k)
    ensures t[Home(hash, k, size)].k != Live(k)
    ensures size == |t| && Sound(t, order, hash) ==> !Bound(Entries(t, order), k)
  {
    var home := Home(hash, k, size);
    assert At(home, 0, size) == home;
    if size == |t| && Sound(t, order, hash) {
      EmptyEndsProbe(t, order, hash, k, d);
    }
  }

  class LhTable<K(==), V> {
    const hash: K -> nat
    var table: array<Entry<K, V>>
    var size: nat
    var count: nat
    var head: int
    var tail: int
    ghost var order: seq<nat>

    ghost predicate Valid()
      reads this, table
    {
      Sound(table[..], order, hash) && Counted()
    }

    /** The fields agree with the array and the order, and the load stays under the bound. */
    ghost predicate Counted()
      reads this
    {
      && 0 < size == table.Length <= INT_MAX
      && count == |order| && head == HeadOf(order) && tail == TailOf(order)
      && Holds(count, size)
    }

    /** Keys and values in insertion order. */
    ghost function Contents(): seq<(K, V)>
      requires Valid()
      reads this, table
    {
      Entries(table[..], order)
    }

    constructor (size: nat, hash: K -> nat)
      requires 0 < size <= INT_MAX
      ensures Valid() && fresh(table) && this.size == size && this.hash == hash
      ensures Contents() == []
    {
      this.hash, this.size := hash, size;
      table := new Entry<K, V>[size](_ => Entry(Empty, None, NIL, NIL));
      count, head, tail, order := 0, NIL, NIL, [];
    }

    /** The slot of k among the first `size`, or -1. In a valid table that is whether it has
        the key. */
    method LookupEntry(k: K) returns (n: int)
      requires 0 < size <= table.Length
      ensures -1 <= n < size
      ensures n >= 0 ==> table[n].k == Live(k)
      ensures n == -1 ==> table[Home(hash, k, size)].k != Live(k)
      ensures Valid() ==> (n == -1 <==> !Bound(Contents(), k))
    {
      var home := Home(hash, k, size);
      n := home;
      var steps := 0;
      while steps < size
        invariant 0 <= steps <= size
        invariant n == At(home, steps, size)
        invariant forall e :: 0 <= e < steps ==> table[..][At(home, e, size)].k != Live(k)
      {
        if table[n].k.Empty? {
          Missed(table[..], order, hash, k, size, steps);
          return -1;
        }
        if table[n].k == Live(k) {
          Hit(table[..], order, k, n);
          return n;
        }
        assert table[..][n].k != Live(k);
        n := n + 1;
        if n == size { n := 0; }
        steps := steps + 1;
      }
      Missed(table[..], order, hash, k, size, steps);
      n := -1;
    }

    /** The probe of an insertion. It has no bound of its own; a free slot ends it. */
    static method FindFree(table: array<Entry<K, V>>, hash: K -> nat, k: K, ghost free: nat)
      returns (n: nat)
      requires free < table.Length && !table[free].k.Live?
      ensures FirstFree(table[..], hash, k, n)
    {
      var home := Home(hash, k, table.Length);
      n := home;
      ghost var steps := 0;
      ghost var last := Steps(home, free, table.Length);
      while table[n].k.Live?
        invariant 0 <= steps <= last
        invariant n == At(home, steps, table.Length)
        invariant forall e :: 0 <= e < steps ==> table[..][At(home, e, table.Length)].k.Live?
        decreases last - steps
      {
        n := n + 1;
        if n == table.Length { n := 0; }
        steps := steps + 1;
      }
      StepsAt(home, steps, table.Length);
    }

    method FreeSlotFor(k: K) returns (n: nat)
      requires Valid() && count < size
      ensures FirstFree(table[..], hash, k, n)
    {
      ghost var free := FreeSlot(table[..], order);
      n := FindFree(table, hash, k, free);
    }

    /** Insertion into a table that is not loaded. */
    method Place(k: K, v: V)
      requires Valid() && !Loaded(count, size) && !Bound(Contents(), k)
      modifies this, table
      ensures Valid() && table == old(table) && size == old(size) && count == old(count) + 1
      ensures Contents() == old(Contents()) + [(k, v)]
    {
      var n := FreeSlotFor(k);
      PlacedSound(table[..], order, hash, n, k, v);
      assert order != [] ==> TailOf(order) in order;
      PlaceAt(n, k, v, Placed(table[..], n, k, v, TailOf(order)), order + [n]);
    }

    method PlaceAt(n: nat, k: K, v: V, ghost t': seq<Entry<K, V>>, ghost order': seq<nat>)
      requires Counted() && !Loaded(count, size) && n < table.Length && -1 <= tail < table.Length && n != tail
      requires t' == Placed(table[..], n, k, v, tail) && order' == order + [n] && Sound(t', order', hash)
      modifies this, table
      ensures Valid() && table == old(table) && size == old(size) && count == old(count) + 1
      ensures Contents() == Entries(t', order')
    {
      head, tail := Link(table, head, tail, n, k, v);
      count, order := count + 1, order';
    }

    /** Fills slot n and links it behind the tail. */
    static method Link(table: array<Entry<K, V>>, head: int, tail: int, n: nat, k: K, v: V)
      returns (head': int, tail': int)
      requires n < table.Length && -1 <= tail < table.Length && n != tail && (head == NIL <==> tail == NIL)
      modifies table
      ensures table[..] == Placed(old(table[..]), n, k, v, tail)
      ensures head' == (if head == NIL then n else head) && tail' == n
    {
      head', tail' := head, n;
      if head == NIL {
        table[n] := Entry(Live(k), Some(v), NIL, NIL);
        head' := n;
      } else {
        table[tail] := table[tail].(next := n);
        table[n] := Entry(Live(k), Some(v), NIL, tail);
      }
    }

    /** One insertion into a table that had `first` slots when it was empty. */
    method InsertGrowing(k: K, v: V, ghost first: nat)
      requires Valid() && !Bound(Contents(), k) && !Loaded(count, INT_MAX)
      requires 0 < first <= INT_MAX && size == Grown(first, count)
      modifies this, table
      ensures Valid() && (table == old(table) || fresh(table)) && Contents() == old(Contents()) + [(k, v)]
      ensures count == old(count) + 1 && size == Grown(first, count)
      decreases INT_MAX - size, 1
    {
      GrownStep(first, count);
      var r := Insert(k, v);
    }

    /** Copies the list that starts at slot `ent` of `from` into this empty table, which grows
        in the middle of it if it is too small. */
    method CopyFrom(from: array<Entry<K, V>>, ent: int, ghost es: seq<(K, V)>)
      requires Valid() && from != table && Contents() == []
      requires Walk(from[..], ent, es) && DistinctKeys(es) && Holds(|es|, INT_MAX)
      modifies this, table
      ensures Valid() && (table == old(table) || fresh(table)) && Contents() == es
      ensures size == Grown(old(size), |es|)
      decreases INT_MAX - size, 2
    {
      var n := ent;
      ghost var done, rest := [], es;
      ghost var t, first := from[..], size;
      while n != NIL
        invariant Valid() && (table == old(table) || fresh(table)) && from != table && from[..] == t
        invariant Walk(t, n, rest) && es == done + rest && Contents() == done
        invariant size == Grown(first, count)
        decreases |rest|
      {
        MoveOver(es, done, rest);
        StillHolds(count, |es|, INT_MAX);
        InsertGrowing(from[n].k.key, from[n].v.value, first);
        done, rest := done + [rest[0]], rest[1..];
        n := from[n].next;
      }
    }

    /** Moves every entry, in list order, into a fresh array. The entries are all there, but
        if that array had to grow its length is not the size stored: the table is valid if and
        only if no insertion found the new array loaded. */
    method Resize(newSize: nat)
      requires Valid() && 0 < newSize <= INT_MAX
      modifies this
      ensures fresh(table) && size == newSize && count == old(count) && table.Length == Grown(newSize, count)
      ensures Sound(table[..], order, hash) && Entries(table[..], order) == old(Contents())
      ensures Valid() <==> Holds(count, newSize)
      decreases INT_MAX - newSize, 3
    {
      var newT := new LhTable<K, V>(newSize, hash);
      WalkEntries(table[..], order);
      HoldsMore(count, size, INT_MAX);
      newT.CopyFrom(table, head, Contents());
      Adopt(newT, newSize);
    }

    /** Takes over the array of another table, under a size of its own. */
    method Adopt(newT: LhTable<K, V>, newSize: nat)
      requires newT != this && newT.Valid() && newT.hash == hash && newT.count == count
      modifies this
      ensures table == newT.table && size == newSize && count == old(count) && order == newT.order
      ensures head == newT.head && tail == newT.tail
    {
      table, size, head, tail, order := newT.table, newSize, newT.head, newT.tail, newT.order;
    }

    /** Inserts a key that is not in the table. Fails only when the table cannot grow. */
    method Insert(k: K, v: V) returns (r: int)
      requires Valid() && !Bound(Contents(), k)
      modifies this, table
      ensures Valid() && (table == old(table) || fresh(table))
      ensures r == -1 <==> Loaded(old(count), old(size)) && old(size) == INT_MAX
      ensures r == 0 ==> Contents() == old(Contents()) + [(k, v)]
      ensures r == -1 ==> Contents() == old(Contents())
      ensures r == 0 || r == -1
      ensures r == 0 ==> count == old(count) + 1
      ensures r == 0 ==> size == if Loaded(old(count), old(size)) then Doubled(old(size)) else old(size)
      decreases INT_MAX - size, 0
    {
      if Loaded(count, size) {
        if size == INT_MAX {
          return -1;
        }
        DoubledHolds(count, size);
        Resize(if size > INT_MAX / 2 then INT_MAX else size * 2);
      }
      Place(k, v);
      r := 0;
    }

    /** Takes slot n out of the list and leaves a tombstone. */
    static method Unlink(table: array<Entry<K, V>>, head: int, tail: int, n: nat,
                         ghost order: seq<nat>, ghost i: nat)
      returns (head': int, tail': int)
      requires Neighbours(order, i, table.Length) && n == order[i]
      requires head == HeadOf(order) && tail == TailOf(order)
      requires table[n].next == NextOf(order, i) && table[n].prev == PrevOf(order, i)
      modifies table
      ensures table[..] == Unlinked(old(table[..]), order, i)
      ensures head' == HeadOf(Without(order, i)) && tail' == TailOf(Without(order, i))
    {
      head', tail' := head, tail;
      var next, prev := table[n].next, table[n].prev;
      if tail == n && head == n {
        head', tail' := NIL, NIL;
      } else if head == n {
        table[next] := table[next].(prev := NIL);
        head' := next;
      } else if tail == n {
        table[prev] := table[prev].(next := NIL);
        tail' := prev;
      } else {
        table[prev] := table[prev].(next := next);
        table[next] := table[next].(prev := prev);
      }
      table[n] := Entry(Freed, None, NIL, NIL);
    }

    /** Removes the entry in slot n, the i-th in order. Empty slots and tombstones are
        refused. */
    method DeleteEntry(n: int) returns (r: int, ghost i: nat)
      requires Valid() && n < table.Length
      modifies this, table
      ensures Valid() && table == old(table)
      ensures r == (if n < 0 then -2 else if old(table[n].k.Live?) then 0 else -1)
      ensures r != 0 ==> Contents() == old(Contents())
      ensures r == 0 ==> i < |old(Contents())| && Live(old(Contents())[i].0) == old(table[n].k)
                         && Contents() == Without(old(Contents()), i)
    {
      i := 0;
      if n < 0 {
        return -2, 0;
      }
      if !table[n].k.Live? {
        return -1, 0;
      }
      i := DeletionPlan(table[..], order, hash, n);
      RemoveAt(n, i, Unlinked(table[..], order, i), Without(order, i));
      r := 0;
    }

    method RemoveAt(n: nat, ghost i: nat, ghost t': seq<Entry<K, V>>, ghost order': seq<nat>)
      requires Counted() && Neighbours(order, i, table.Length) && n == order[i]
      requires table[n].next == NextOf(order, i) && table[n].prev == PrevOf(order, i)
      requires t' == Unlinked(table[..], order, i) && order' == Without(order, i)
      requires Sound(t', order', hash)
      modifies this, table
      ensures Valid() && table == old(table)
      ensures Contents() == Entries(t', order')
    {
      count := count - 1;
      head, tail := Unlink(table, head, tail, n, order, i);
      order := order';
      assert table[..] == t';
    }

    method Delete(k: K) returns (r: int)
      requires Valid()
      modifies this, table
      ensures Valid() && table == old(table)
      ensures r == if Bound(old(Contents()), k) then 0 else -1
      ensures !Bound(Contents(), k)
      ensures Contents() == if r == 0 then Without(old(Contents()), Find(old(Contents()), k))
                                      else old(Contents())
    {
      var n := LookupEntry(k);
      if n == -1 {
        return -1;
      }
      EntriesDistinct(table[..], order);
      ghost var es := Contents();
      ghost var i;
      r, i := DeleteEntry(n);
      FindUnique(es, k, i);
    }

    /** json_object_object_add: an existing key keeps its place and gets the new value. */
    method Add(k: K, v: V) returns (r: int)
      requires Valid()
      modifies this, table
      ensures Valid()
      ensures r == 0 || r == -1
      ensures r == -1 <==> !Bound(old(Contents()), k) && Loaded(old(count), old(size)) && old(size) == INT_MAX
      ensures r == 0 ==> Contents() == Updated(old(Contents()), k, v)
      ensures r == -1 ==> Contents() == old(Contents())
    {
      var n := LookupEntry(k);
      if n == -1 {
        r := Insert(k, v);
        return;
      }
      SetEntryValue(n, v);
      r := 0;
    }

    method SetEntryValue(n: nat, v: V)
      requires Valid() && n < table.Length && table[n].k.Live?
      modifies table
      ensures Valid()
      ensures Contents() == Updated(old(Contents()), old(table[n].k.key), v)
    {
      UpdatePlan(table[..], order, hash, n, v);
      StoreValue(n, v, table[..][n := table[n].(v := Some(v))]);
    }

    method StoreValue(n: nat, v: V, ghost t': seq<Entry<K, V>>)
      requires Valid() && n < table.Length
      requires t' == table[..][n := table[n].(v := Some(v))] && Sound(t', order, hash)
      modifies table
      ensures Valid()
      ensures Contents() == Entries(t', order)
    {
      table[n] := table[n].(v := Some(v));
      assert table[..] == t';
    }
  }

  /** The damage is real: of two keys in a table that is resized to one slot both are listed,
      and one of them, whatever the hash, is not found any more. */
  method LoseKey<K(==), V>(hash: K -> nat, a: K, b: K, v: V, w: V)
    returns (t: LhTable<K, V>, na: int, nb: int)
    requires a != b
    ensures Sound(t.table[..], t.order, hash) && Entries(t.table[..], t.order) == [(a, v), (b, w)]
    ensures na == -1 <==> nb != -1
  {
    t := new LhTable<K, V>(16, hash);
    var _ := t.Insert(a, v);
    var _ := t.Insert(b, w);
    t.Resize(1);
    assert t.table.Length == 2;
    FullPair(t.table[..], t.order, a, b, v, w);
    na := t.LookupEntry(a);
    nb := t.LookupEntry(b);
  }

  /** In a full table of two slots one of two keys is in the first. */
  lemma FullPair<K, V>(t: seq<Entry<K, V>>, order: seq<nat>, a: K, b: K, v: V, w: V)
    requires Slots(t, order) && |t| == 2 && Entries(t, order) == [(a, v), (b, w)]
    ensures t[0].k == Live(a) || t[0].k == Live(b)
  {
    assert order[0] in order && order[1] in order;
    assert t[order[0]].k == Live(a) && t[order[1]].k == Live(b);
  }
}
