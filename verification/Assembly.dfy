/** Output of fixed-size blocks, each copied to its own place: blocks T(1), T(2), ... of
    `size` elements, the last one cut to fit. */
module Assembly {
  import opened Arith

  ghost predicate Sized<X>(T: nat -> seq<X>, size: nat) {
    0 < size && forall i :: |T(i)| == size
  }

  /** T(1) + ... + T(l) */
  ghost function Concat<X>(T: nat -> seq<X>, size: nat, l: nat): (r: seq<X>)
    requires Sized(T, size)
    ensures |r| == l * size
  {
    if l == 0 then []
    else
      assert l * size == (l - 1) * size + size;
      Concat(T, size, l - 1) + T(l)
  }

  /** The block count as computed: the rounded-up size is cut to 32 bits first. */
  function BlocksNeeded(n: nat, size: nat): nat
    requires size > 0
  {
    (n + size - 1) % 0x1_0000_0000 / size
  }

  /** Enough blocks for the whole output exactly when the rounded-up size fits 32 bits. */
  lemma BlocksCoverIff(n: nat, size: nat)
    requires 0 < n && 0 < size < 0x1_0000_0000
    ensures n <= BlocksNeeded(n, size) * size <==> n + size - 1 < 0x1_0000_0000
  {
    DivBounds((n + size - 1) % 0x1_0000_0000, size);
  }

  /** Every counted block starts inside the output. */
  lemma BlockStarts(n: nat, size: nat, i: nat)
    requires 0 < n && 0 < size && 1 <= i <= BlocksNeeded(n, size)
    ensures (i - 1) * size < n && (i - 1) * size < 0x1_0000_0000
  {
    var w := (n + size - 1) % 0x1_0000_0000;
    DivBounds(w, size);
    MulMonotone(i, w / size, size);
    assert (i - 1) * size == i * size - size;
  }

  /** n * size, counted up. */
  function Offset(n: nat, size: nat): nat {
    if n == 0 then 0 else Offset(n - 1, size) + size
  }

  lemma {:induction false} OffsetIsProduct(n: nat, size: nat)
    ensures Offset(n, size) == n * size
  {
    if n > 0 {
      OffsetIsProduct(n - 1, size);
      assert n * size == (n - 1) * size + size;
    }
  }

  predicate StartsInside(i: nat, size: nat, n: nat) {
    1 <= i && Offset(i - 1, size) <= n
  }

  /** `block` copied to `offset`, as much of it as fits. */
  function Patched<X>(out: seq<X>, offset: nat, block: seq<X>): (r: seq<X>)
    requires offset <= |out|
    ensures |r| == |out|
  {
    var taken := Min(|out| - offset, |block|);
    out[..offset] + block[..taken] + out[offset + taken..]
  }

  lemma PatchedAt<X>(out: seq<X>, offset: nat, block: seq<X>, p: nat)
    requires offset <= |out| && p < |out|
    ensures Patched(out, offset, block)[p] ==
            if offset <= p < offset + |block| then block[p - offset] else out[p]
  {
  }

  /** The output after the blocks of `order` were computed one after another. */
  ghost function Assembled<X>(T: nat -> seq<X>, size: nat, out: seq<X>, order: seq<nat>): (r: seq<X>)
    requires Sized(T, size) && InRange(order, size, |out|)
    ensures |r| == |out|
    decreases |order|
  {
    if order == [] then out
    else
      var i := order[|order| - 1];
      Patched(Assembled(T, size, out, order[..|order| - 1]), (i - 1) * size, T(i))
  }

  ghost predicate InRange(order: seq<nat>, size: nat, n: nat) {
    forall k :: 0 <= k < |order| ==> 1 <= order[k] && (order[k] - 1) * size <= n
  }

  /** Position p belongs to block i. */
  predicate InBlock(p: nat, i: nat, size: nat) {
    1 <= i && (i - 1) * size <= p < (i - 1) * size + size
  }

  lemma BlocksApart(i: nat, j: nat, size: nat)
    requires 1 <= i < j
    ensures (i - 1) * size + size <= (j - 1) * size
  {
    MulMonotone(i, j - 1, size);
    assert i * size == (i - 1) * size + size;
  }

  lemma BlockUnique(p: nat, i: nat, j: nat, size: nat)
    requires InBlock(p, i, size) && InBlock(p, j, size)
    ensures i == j
  {
    if i < j {
      BlocksApart(i, j, size);
    } else if j < i {
      BlocksApart(j, i, size);
    }
  }

  lemma BlockOf(p: nat, size: nat, l: nat)
    requires 0 < size && p < l * size
    ensures InBlock(p, p / size + 1, size) && p / size + 1 <= l
  {
    var q := p / size;
    DivBounds(p, size);
    assert q + 1 - 1 == q;
    if q >= l {
      MulMonotone(l, q, size);
    }
  }

  /** Whatever the order, and even if blocks are repeated, a position whose block was
      computed has the value of that block. */
  lemma {:induction false} AnyOrder<X>(T: nat -> seq<X>, size: nat, out: seq<X>, order: seq<nat>,
                                       i: nat, p: nat)
    requires Sized(T, size) && InRange(order, size, |out|)
    requires p < |out| && InBlock(p, i, size) && i in order
    ensures Assembled(T, size, out, order)[p] == T(i)[p - (i - 1) * size]
    decreases |order|
  {
    var rest, last := order[..|order| - 1], order[|order| - 1];
    if last != i {
      assert order == rest + [last];
      AnyOrder(T, size, out, rest, i, p);
    }
    BlockWritten(T, size, Assembled(T, size, out, rest), last, i, p);
  }

  /** Writing a block changes the positions of that block and no others. */
  lemma BlockWritten<X>(T: nat -> seq<X>, size: nat, out: seq<X>, last: nat, i: nat, p: nat)
    requires Sized(T, size) && p < |out| && InBlock(p, i, size) && 1 <= last && (last - 1) * size <= |out|
    ensures Patched(out, (last - 1) * size, T(last))[p] == if last == i then T(i)[p - (i - 1) * size] else out[p]
  {
    PatchedAt(out, (last - 1) * size, T(last), p);
    if last != i && InBlock(p, last, size) {
      BlockUnique(p, i, last, size);
    }
  }

  lemma {:induction false} ConcatAt<X>(T: nat -> seq<X>, size: nat, l: nat, i: nat, p: nat)
    requires Sized(T, size) && 1 <= i <= l && InBlock(p, i, size)
    ensures p < l * size
    ensures Concat(T, size, l)[p] == T(i)[p - (i - 1) * size]
    decreases l
  {
    MulMonotone(i, l, size);
    assert i * size == (i - 1) * size + size;
    if i < l {
      ConcatAt(T, size, l - 1, i, p);
    }
  }

  /** Every execution order of the block computations gives the first |out| elements of
      T(1) + ... + T(l). */
  lemma AssembledAnyOrder<X>(T: nat -> seq<X>, size: nat, out: seq<X>, order: seq<nat>, l: nat)
    requires Sized(T, size) && InRange(order, size, |out|)
    requires |out| <= l * size && forall i :: 1 <= i <= l ==> i in order
    ensures Assembled(T, size, out, order) == Concat(T, size, l)[..|out|]
  {
    forall p | 0 <= p < |out|
      ensures Assembled(T, size, out, order)[p] == Concat(T, size, l)[p]
    {
      var i := p / size + 1;
      BlockOf(p, size, l);
      AnyOrder(T, size, out, order, i, p);
      ConcatAt(T, size, l, i, p);
    }
  }

  /** A position in no computed block keeps its value. */
  lemma {:induction false} Untouched<X>(T: nat -> seq<X>, size: nat, out: seq<X>, order: seq<nat>, p: nat)
    requires Sized(T, size) && InRange(order, size, |out|) && p < |out|
    requires forall i <- order :: !InBlock(p, i, size)
    ensures Assembled(T, size, out, order)[p] == out[p]
    decreases |order|
  {
    if order != [] {
      var rest, last := order[..|order| - 1], order[|order| - 1];
      assert !InBlock(p, last, size);
      PatchedAt(Assembled(T, size, out, rest), (last - 1) * size, T(last), p);
      Untouched(T, size, out, rest, p);
    }
  }

  /** Blocks 1 to l in any order: what they cover is T(1) + ... + T(l), the rest is as it was. */
  lemma AssembledPart<X>(T: nat -> seq<X>, size: nat, out: seq<X>, order: seq<nat>, l: nat)
    requires Sized(T, size) && InRange(order, size, |out|)
    requires forall i :: i in order <==> 1 <= i <= l
    ensures var k := Min(|out|, l * size);
      Assembled(T, size, out, order) == Concat(T, size, l)[..k] + out[k..]
  {
    var k := Min(|out|, l * size);
    forall p | 0 <= p < |out|
      ensures Assembled(T, size, out, order)[p] == if p < k then Concat(T, size, l)[p] else out[p]
    {
      if p < k {
        var i := p / size + 1;
        BlockOf(p, size, l);
        AnyOrder(T, size, out, order, i, p);
        ConcatAt(T, size, l, i, p);
      } else {
        forall i <- order ensures !InBlock(p, i, size) {
          MulMonotone(i, l, size);
          assert i * size == (i - 1) * size + size;
        }
        Untouched(T, size, out, order, p);
      }
    }
  }

  // ---------------------------------------------------------------- in counting order

  /** The output after blocks 1 to n, in this order. */
  ghost function InOrder<X>(T: nat -> seq<X>, size: nat, out: seq<X>, n: nat): (r: seq<X>)
    ensures |r| == |out|
  {
    if n == 0 then out
    else
      var before := InOrder(T, size, out, n - 1);
      if Offset(n - 1, size) <= |out| then Patched(before, Offset(n - 1, size), T(n)) else before
  }

  lemma InOrderStep<X>(T: nat -> seq<X>, size: nat, out: seq<X>, n: nat, offset: nat)
    requires 1 <= n && offset == Offset(n - 1, size) <= |out|
    ensures InOrder(T, size, out, n) == Patched(InOrder(T, size, out, n - 1), offset, T(n))
  {
  }

  ghost function Counters(n: nat): (r: seq<nat>)
    ensures |r| == n && forall k :: 0 <= k < n ==> r[k] == k + 1
  {
    seq(n, k requires 0 <= k < n => k + 1)
  }

  lemma {:induction false} InOrderAssembles<X>(T: nat -> seq<X>, size: nat, out: seq<X>, n: nat)
    requires Sized(T, size) && InRange(Counters(n), size, |out|)
    ensures InOrder(T, size, out, n) == Assembled(T, size, out, Counters(n))
    decreases n
  {
    if n > 0 {
      assert Counters(n)[..n - 1] == Counters(n - 1);
      assert Counters(n)[n - 1] == n;
      OffsetIsProduct(n - 1, size);
      InOrderAssembles(T, size, out, n - 1);
    }
  }

  lemma CountersInRange(n: nat, size: nat)
    requires 0 < n && 0 < size
    ensures InRange(Counters(BlocksNeeded(n, size)), size, n)
  {
    var l := BlocksNeeded(n, size);
    forall k | 0 <= k < l ensures (Counters(l)[k] - 1) * size <= n {
      BlockStarts(n, size, k + 1);
    }
  }

  /** The counted blocks fill the output as far as they go. */
  lemma InOrderPart<X>(T: nat -> seq<X>, size: nat, out: seq<X>)
    requires Sized(T, size) && 0 < |out|
    ensures var l := BlocksNeeded(|out|, size);
      var k := Min(|out|, l * size);
      InOrder(T, size, out, l) == Concat(T, size, l)[..k] + out[k..]
  {
    var l := BlocksNeeded(|out|, size);
    CountersInRange(|out|, size);
    InOrderAssembles(T, size, out, l);
    forall i ensures i in Counters(l) <==> 1 <= i <= l {
      if 1 <= i <= l {
        assert Counters(l)[i - 1] == i;
      }
    }
    AssembledPart(T, size, out, Counters(l), l);
  }
}
