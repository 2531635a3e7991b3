/** Token buckets: how much a bufferevent may read or write. */
module RateLimit {
  import opened Arith
  import opened Wire

  const RATE_LIMIT_MAX: int := 0x7fff_ffff_ffff_ffff
  const LIMIT_MIN: int := -0x8000_0000_0000_0000
  const TWO_64: int := 0x1_0000_0000_0000_0000
  const INT_MAX: int := 0x7fff_ffff

  /** A 64-bit number read as signed. */
  function Signed(x: int): (r: int)
    ensures LIMIT_MIN <= r <= RATE_LIMIT_MAX
    ensures LIMIT_MIN <= x <= RATE_LIMIT_MAX ==> r == x
  {
    (x - LIMIT_MIN) % TWO_64 + LIMIT_MIN
  }

  /** What ev_token_bucket_cfg_new accepts. */
  predicate Configurable(rate: int, maximum: int) {
    1 <= rate <= maximum <= RATE_LIMIT_MAX
  }

  // ---------------------------------------------------------------- refilling

  /** Ticks since the last update; tick numbers wrap around. */
  function TicksSince(now: u32, last: u32): u32 {
    Wrap(now - last)
  }

  /** The unsigned distance to the maximum, as the program computes it. */
  function Room(limit: int, maximum: int): int {
    (maximum - limit) % TWO_64
  }

  /** The bucket after n ticks, as the program computes it: by a division, so that nothing
      overflows. */
  function Refill(limit: int, rate: int, maximum: int, n: nat): int
    requires n > 0
  {
    if Room(limit, maximum) / n < rate then maximum else Signed(limit + n * rate)
  }

  /** The division form is the plain one, cut off at the maximum, exactly when the bucket is
      not over its maximum already, or so far over that the ticks make up for the rest of
      the 64 bits. */
  lemma RefillIff(limit: int, rate: int, maximum: int, n: nat)
    requires Configurable(rate, maximum) && LIMIT_MIN <= limit <= RATE_LIMIT_MAX && 0 < n <= INT_MAX
    ensures Refill(limit, rate, maximum, n) == Min(maximum, limit + n * rate) <==>
      limit <= maximum || TWO_64 - (limit - maximum) <= n * rate
  {
    var room, add := Room(limit, maximum), n * rate;
    DivLess(room, n, rate);
    assert add >= 1 by { MulPositive(n, rate); }
    if limit <= maximum {
      assert room == maximum - limit;
    } else {
      assert room == TWO_64 - (limit - maximum);
    }
  }

  /** The ticks take a bucket that is over its maximum past the largest limit, to where the
      sum of 64 bits is no longer positive. */
  predicate Overflows(limit: int, rate: int, maximum: int, n: nat) {
    limit > maximum && RATE_LIMIT_MAX < limit + n * rate <= TWO_64
  }

  /** Refilling empties a bucket only by overflow. */
  lemma RefillPositiveIff(limit: int, rate: int, maximum: int, n: nat)
    requires Configurable(rate, maximum) && 0 < limit <= RATE_LIMIT_MAX && 0 < n <= INT_MAX
    ensures Refill(limit, rate, maximum, n) > 0 <==> !Overflows(limit, rate, maximum, n)
  {
    var room, add := Room(limit, maximum), n * rate;
    DivLess(room, n, rate);
    assert add >= 1 by { MulPositive(n, rate); }
    if limit <= maximum {
      assert room == maximum - limit;
    } else {
      assert room == TWO_64 - (limit - maximum);
      if add <= room && limit + add > RATE_LIMIT_MAX {
        assert Signed(limit + add) == limit + add - TWO_64;
      }
    }
  }

  lemma OverflowExample()
    ensures Refill(RATE_LIMIT_MAX, 1, 10, 1) == LIMIT_MIN
  {
    assert Room(RATE_LIMIT_MAX, 10) == TWO_64 - (RATE_LIMIT_MAX - 10);
  }

  /** The bucket after an update at `tick`. */
  function Refilled(limit: int, rate: int, maximum: int, tick: u32, last: u32): int {
    var n := TicksSince(tick, last);
    if 0 < n <= INT_MAX then Refill(limit, rate, maximum, n) else limit
  }

  /** The ticks take a bucket that is over its maximum past the largest limit, to where the
      sum of 64 bits is below the maximum again. */
  predicate Wraps(limit: int, rate: int, maximum: int, n: nat) {
    limit > maximum && RATE_LIMIT_MAX < limit + n * rate < TWO_64 + maximum
  }

  /** Refilling takes nothing away, except what is over the maximum, if and only if the sum
      does not wrap; and a bucket within its maximum stays within it. */
  lemma RefillAdds(limit: int, rate: int, maximum: int, n: nat)
    requires Configurable(rate, maximum) && LIMIT_MIN <= limit <= RATE_LIMIT_MAX && 0 < n <= INT_MAX
    ensures var r := Refill(limit, rate, maximum, n);
      && (Min(limit, maximum) <= r <==> !Wraps(limit, rate, maximum, n))
      && (limit <= maximum ==> r <= maximum)
  {
    var room, add := Room(limit, maximum), n * rate;
    DivLess(room, n, rate);
    assert add >= 1 by { MulPositive(n, rate); }
    if limit <= maximum {
      assert room == maximum - limit;
    } else {
      assert room == TWO_64 - (limit - maximum);
      if add <= room && limit + add > RATE_LIMIT_MAX {
        assert Signed(limit + add) == limit + add - TWO_64;
      }
    }
  }

  /** A bucket that was refilled by hand beyond its maximum, which the decrement functions
      allow, keeps growing. */
  lemma RefillBeyond()
    ensures Refill(11, 1, 10, 1) == 12
  {
    assert Room(11, 10) == TWO_64 - 1;
  }

  // ---------------------------------------------------------------- a bucket over a whole run

  datatype Bucket = Bucket(limit: int, last: u32)

  datatype Op = Charge(bytes: nat) | Tick(now: u32)

  /** The ticks that an update at `now` counts; none if time stood still or ran backwards. */
  function Counted(b: Bucket, now: u32): nat {
    var n := TicksSince(now, b.last);
    if n > INT_MAX then 0 else n
  }

  function Do(b: Bucket, rate: int, maximum: int, op: Op): Bucket {
    match op
    case Charge(bytes) => b.(limit := Signed(b.limit - bytes))
    case Tick(now) =>
      var n := Counted(b, now);
      if n == 0 then b else Bucket(Refill(b.limit, rate, maximum, n), now)
  }

  function Run(b: Bucket, rate: int, maximum: int, ops: seq<Op>): Bucket
    decreases |ops|
  {
    if ops == [] then b else Run(Do(b, rate, maximum, ops[0]), rate, maximum, ops[1..])
  }

  function Charged(ops: seq<Op>): nat {
    if ops == [] then 0 else (if ops[0].Charge? then ops[0].bytes else 0) + Charged(ops[1..])
  }

  /** All ticks counted in a run. */
  function Elapsed(b: Bucket, rate: int, maximum: int, ops: seq<Op>): nat
    decreases |ops|
  {
    if ops == [] then 0
    else
      (if ops[0].Tick? then Counted(b, ops[0].now) else 0) +
      Elapsed(Do(b, rate, maximum, ops[0]), rate, maximum, ops[1..])
  }

  lemma DoBound(b: Bucket, rate: int, maximum: int, op: Op)
    requires Configurable(rate, maximum) && LIMIT_MIN <= b.limit <= maximum
    requires op.Charge? ==> LIMIT_MIN <= b.limit - op.bytes
    ensures var b' := Do(b, rate, maximum, op);
      match op
      case Charge(bytes) => b'.limit == b.limit - bytes
      case Tick(now) => b.limit <= b'.limit <= Min(maximum, b.limit + rate * Counted(b, now))
  {
    if op.Tick? {
      var n := Counted(b, op.now);
      if n > 0 {
        RefillIff(b.limit, rate, maximum, n);
        MulPositive(n, rate);
        assert n * rate == rate * n;
      } else {
        assert rate * n == 0;
      }
    }
  }

  lemma TicksAdd(rate: int, n: nat, e: nat)
    ensures rate * (n + e) == rate * n + rate * e
    ensures rate * 0 == 0
  {
  }

  /** No single charge takes the limit below the smallest number. */
  predicate ChargesFit(b: Bucket, rate: int, maximum: int, ops: seq<Op>)
    decreases |ops|
  {
    ops != [] ==>
      && (ops[0].Charge? ==> LIMIT_MIN <= b.limit - ops[0].bytes)
      && ChargesFit(Do(b, rate, maximum, ops[0]), rate, maximum, ops[1..])
  }

  /** Over every run, what was charged is covered by the limit at the start and the rate times
      the ticks that have passed, less what is left; and the limit never passes the maximum. */
  lemma {:induction false} ChargesCovered(b: Bucket, rate: int, maximum: int, ops: seq<Op>)
    requires Configurable(rate, maximum) && LIMIT_MIN <= b.limit <= maximum
    requires ChargesFit(b, rate, maximum, ops)
    ensures var b' := Run(b, rate, maximum, ops);
      && Charged(ops) <= b.limit + rate * Elapsed(b, rate, maximum, ops) - b'.limit
      && b'.limit <= maximum
    decreases |ops|
  {
    if ops != [] {
      var b1 := Do(b, rate, maximum, ops[0]);
      DoBound(b, rate, maximum, ops[0]);
      ChargesCovered(b1, rate, maximum, ops[1..]);
      var n := if ops[0].Tick? then Counted(b, ops[0].now) else 0;
      TicksAdd(rate, n, Elapsed(b1, rate, maximum, ops[1..]));
    }
  }
}
