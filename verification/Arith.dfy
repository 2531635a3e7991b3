/** Arithmetic that the solver needs help with. */
module Arith {
  function Min(a: int, b: int): int { if a <= b then a else b }

  function Max(a: int, b: int): int { if a <= b then b else a }

  lemma DivBounds(w: nat, size: nat)
    requires size > 0
    ensures w / size * size <= w < w / size * size + size
  {
    assert w == w / size * size + w % size;
  }

  lemma MulMonotone(a: nat, b: nat, c: nat)
    requires a <= b
    ensures a * c <= b * c
  {
    assert b * c == a * c + (b - a) * c;
  }

  /** A quotient is below r exactly when the dividend is below r times the divisor. */
  lemma DivLess(a: nat, n: nat, r: int)
    requires n > 0
    ensures a / n < r <==> a < n * r
  {
    DivBounds(a, n);
    BetweenProducts(a, n, a / n, r);
  }

  /** The same for a quotient that is given. */
  lemma BetweenProducts(a: nat, n: nat, q: nat, r: int)
    requires n > 0 && q * n <= a < q * n + n
    ensures q < r <==> a < n * r
  {
    if q < r {
      ProductGap(q + 1, r, n);
      assert (q + 1) * n == q * n + n;
    } else {
      ProductGap(r, q, n);
    }
  }

  lemma ProductGap(lo: int, hi: int, n: nat)
    requires lo <= hi
    ensures lo * n <= hi * n && hi * n == n * hi && lo * n == n * lo
  {
    assert (hi - lo) * n >= 0;
    assert hi * n == lo * n + (hi - lo) * n;
  }

  lemma MulPositive(a: int, b: int)
    requires a >= 1 && b >= 1
    ensures a * b >= 1
  {
  }
}
