/** The rate limiter of one bufferevent: its buckets, the directions they suspend and the
    timer that refills them. Time comes in as tick numbers. */
module RateLimiters {
  import opened Arith
  import opened Wire
  import opened RateLimit

  /** Two configurations are the same only if they are the same object. */
  class TokenBucketCfg {
    const readRate: int
    const readMaximum: int
    const writeRate: int
    const writeMaximum: int

    ghost predicate Valid() {
      Configurable(readRate, readMaximum) && Configurable(writeRate, writeMaximum)
    }

    constructor (readRate: int, readBurst: int, writeRate: int, writeBurst: int)
      requires Configurable(readRate, readBurst) && Configurable(writeRate, writeBurst)
      ensures Valid()
      ensures this.readRate == readRate && this.readMaximum == readBurst
      ensures this.writeRate == writeRate && this.writeMaximum == writeBurst
    {
      this.readRate, this.readMaximum := readRate, readBurst;
      this.writeRate, this.writeMaximum := writeRate, writeBurst;
    }
  }

  /** Suspended for want of bandwidth, and whether the refill timer runs. */
  datatype Hold = Hold(read: bool, write: bool, pending: bool)

  /** An exhausted bucket suspends its direction, and the timer runs exactly while one is
      suspended. */
  predicate Held(configured: bool, readLimit: int, writeLimit: int, h: Hold) {
    && (configured && readLimit <= 0 ==> h.read)
    && (configured && writeLimit <= 0 ==> h.write)
    && (h.pending <==> h.read || h.write)
    && (!configured ==> !h.pending)
  }

  class RateLimiter {
    var cfg: TokenBucketCfg?
    var readLimit: int
    var writeLimit: int
    var lastUpdated: u32
    var hold: Hold

    ghost predicate Valid()
      reads this
    {
      (cfg != null ==> cfg.Valid()) && Held(cfg != null, readLimit, writeLimit, hold) && Sized()
    }

    /** The limits are numbers of 64 bits. */
    ghost predicate Sized()
      reads this
    {
      LIMIT_MIN <= readLimit <= RATE_LIMIT_MAX && LIMIT_MIN <= writeLimit <= RATE_LIMIT_MAX
    }

    constructor ()
      ensures Valid() && cfg == null
    {
      cfg, readLimit, writeLimit, lastUpdated := null, 0, 0, 0;
      hold := Hold(false, false, false);
    }

    method SuspendRead()
      modifies this`hold
      ensures hold == Hold(true, old(hold.write), true)
    {
      hold := Hold(true, hold.write, true);
    }

    method SuspendWrite()
      modifies this`hold
      ensures hold == Hold(old(hold.read), true, true)
    {
      hold := Hold(hold.read, true, true);
    }

    /** ev_token_bucket_update_. */
    method Update(tick: u32) returns (updated: bool)
      requires cfg != null && cfg.Valid()
      modifies this`readLimit, this`writeLimit, this`lastUpdated
      ensures updated == (0 < TicksSince(tick, old(lastUpdated)) <= INT_MAX)
      ensures lastUpdated == if updated then tick else old(lastUpdated)
      ensures readLimit == Refilled(old(readLimit), cfg.readRate, cfg.readMaximum, tick, old(lastUpdated))
      ensures writeLimit == Refilled(old(writeLimit), cfg.writeRate, cfg.writeMaximum, tick, old(lastUpdated))
    {
      var n := TicksSince(tick, lastUpdated);
      if n == 0 || n > INT_MAX {
        return false;
      }
      if Room(readLimit, cfg.readMaximum) / n < cfg.readRate {
        readLimit := cfg.readMaximum;
      } else {
        readLimit := Signed(readLimit + n * cfg.readRate);
      }
      if Room(writeLimit, cfg.writeMaximum) / n < cfg.writeRate {
        writeLimit := cfg.writeMaximum;
      } else {
        writeLimit := Signed(writeLimit + n * cfg.writeRate);
      }
      lastUpdated := tick;
      updated := true;
    }

    /** bufferevent_decrement_read_buckets_: bytes have been read. */
    method DecrementReadBuckets(bytes: int)
      requires Valid()
      modifies this`readLimit, this`hold
      ensures Valid()
      ensures readLimit == if cfg != null then Signed(old(readLimit) - bytes) else old(readLimit)
      ensures cfg != null ==> hold.read == (readLimit <= 0) && hold.write == old(hold.write)
    {
      if cfg != null {
        readLimit := Signed(readLimit - bytes);
        if readLimit <= 0 {
          SuspendRead();
        } else if hold.read {
          if !hold.write {
            hold := hold.(pending := false);
          }
          hold := hold.(read := false);
        }
      }
    }

    /** bufferevent_decrement_write_buckets_. */
    method DecrementWriteBuckets(bytes: int)
      requires Valid()
      modifies this`writeLimit, this`hold
      ensures Valid()
      ensures writeLimit == if cfg != null then Signed(old(writeLimit) - bytes) else old(writeLimit)
      ensures cfg != null ==> hold.write == (writeLimit <= 0) && hold.read == old(hold.read)
    {
      if cfg != null {
        writeLimit := Signed(writeLimit - bytes);
        if writeLimit <= 0 {
          SuspendWrite();
        } else if hold.write {
          if !hold.read {
            hold := hold.(pending := false);
          }
          hold := hold.(write := false);
        }
      }
    }

    /** bufferevent_decrement_read_limit: by hand, and in either direction. The state changes
        only when the limit passes zero. */
    method DecrementReadLimit(decr: int)
      requires Valid() && cfg != null
      modifies this`readLimit, this`hold
      ensures Valid() && readLimit == Signed(old(readLimit) - decr) && hold.write == old(hold.write)
      ensures hold.read == if old(readLimit) > 0 && readLimit > 0 then old(hold.read) else readLimit <= 0
    {
      var before := readLimit;
      readLimit := Signed(readLimit - decr);
      if before > 0 && readLimit <= 0 {
        SuspendRead();
      } else if before <= 0 && readLimit > 0 {
        if !hold.write {
          hold := hold.(pending := false);
        }
        hold := hold.(read := false);
      }
    }

    /** No direction that is not suspended is emptied by an update at `tick`: its bucket does
        not overflow. */
    ghost predicate Keeps(tick: u32)
      requires cfg != null
      reads this
    {
      var n := TicksSince(tick, lastUpdated);
      0 < n <= INT_MAX ==>
        && (hold.read || !Overflows(readLimit, cfg.readRate, cfg.readMaximum, n))
        && (hold.write || !Overflows(writeLimit, cfg.writeRate, cfg.writeMaximum, n))
    }

    /** What an update does to the limits of both directions. */
    method UpdateLimits(tick: u32)
      requires Sized() && cfg != null && cfg.Valid()
      requires (readLimit <= 0 ==> hold.read) && (writeLimit <= 0 ==> hold.write)
      modifies this`readLimit, this`writeLimit, this`lastUpdated
      ensures Sized()
      ensures readLimit == Refilled(old(readLimit), cfg.readRate, cfg.readMaximum, tick, old(lastUpdated))
      ensures writeLimit == Refilled(old(writeLimit), cfg.writeRate, cfg.writeMaximum, tick, old(lastUpdated))
      ensures old(Keeps(tick)) <==> (readLimit <= 0 ==> hold.read) && (writeLimit <= 0 ==> hold.write)
    {
      var n := TicksSince(tick, lastUpdated);
      if 0 < n <= INT_MAX {
        if readLimit > 0 {
          RefillPositiveIff(readLimit, cfg.readRate, cfg.readMaximum, n);
        }
        if writeLimit > 0 {
          RefillPositiveIff(writeLimit, cfg.writeRate, cfg.writeMaximum, n);
        }
      }
      var _ := Update(tick);
    }

    /** bufferevent_get_rlim_max_ for reading, outside of any group: the bucket is brought up
        to date and tells how much may be read. An exhausted bucket has suspended its direction
        exactly when no bucket overflowed. */
    method GetReadMax(tick: u32, maxSingle: nat) returns (max: nat)
      requires Valid()
      modifies this`readLimit, this`writeLimit, this`lastUpdated
      ensures Valid() <==> cfg == null || old(Keeps(tick))
      ensures max == if cfg == null then maxSingle else if readLimit < 0 then 0 else readLimit
      ensures cfg != null ==>
        readLimit == Refilled(old(readLimit), cfg.readRate, cfg.readMaximum, tick, old(lastUpdated))
      ensures Valid() && cfg != null && max == 0 ==> hold.read && hold.pending
    {
      if cfg == null {
        return maxSingle;
      }
      if tick != lastUpdated {
        UpdateLimits(tick);
      }
      max := if readLimit < 0 then 0 else readLimit;
    }

    /** bev_refill_callback_: the timer has run off. Directions with something in the bucket go
        on, and the timer is set again for those without. */
    method RefillCallback(tick: u32)
      requires Valid() && hold.pending
      modifies this`readLimit, this`writeLimit, this`lastUpdated, this`hold
      ensures Valid() <==> old(Keeps(tick))
      ensures hold.read == (old(hold.read) && readLimit <= 0)
      ensures hold.write == (old(hold.write) && writeLimit <= 0)
      ensures hold.pending == (hold.read || hold.write)
      ensures readLimit == Refilled(old(readLimit), cfg.readRate, cfg.readMaximum, tick, old(lastUpdated))
      ensures writeLimit == Refilled(old(writeLimit), cfg.writeRate, cfg.writeMaximum, tick, old(lastUpdated))
    {
      UpdateLimits(tick);
      hold := hold.(pending := false);
      var again := false;
      if hold.read {
        if readLimit > 0 {
          hold := hold.(read := false);
        } else {
          again := true;
        }
      }
      if hold.write {
        if writeLimit > 0 {
          hold := hold.(write := false);
        } else {
          again := true;
        }
      }
      if again {
        hold := hold.(pending := true);
      }
    }

    /** ev_token_bucket_init_: a new configuration only cuts the buckets down. */
    method InitBucket(c: TokenBucketCfg, tick: u32, reinitialize: bool)
      modifies this`readLimit, this`writeLimit, this`lastUpdated
      ensures readLimit == (if reinitialize then Min(old(readLimit), c.readMaximum) else c.readRate)
      ensures writeLimit == (if reinitialize then Min(old(writeLimit), c.writeMaximum) else c.writeRate)
      ensures lastUpdated == (if reinitialize then old(lastUpdated) else tick)
    {
      if reinitialize {
        if readLimit > c.readMaximum {
          readLimit := c.readMaximum;
        }
        if writeLimit > c.writeMaximum {
          writeLimit := c.writeMaximum;
        }
      } else {
        readLimit, writeLimit, lastUpdated := c.readRate, c.writeRate, tick;
      }
    }

    /** bufferevent_set_rate_limit; null takes the limit away. */
    method SetRateLimit(c: TokenBucketCfg?, tick: u32)
      requires Valid() && (c != null ==> c.Valid())
      modifies this
      ensures Valid() && cfg == c
      ensures c == null ==> hold == Hold(false, false, false)
      ensures c != null && c == old(cfg) ==>
        readLimit == old(readLimit) && writeLimit == old(writeLimit) && hold == old(hold)
      ensures c != null && c != old(cfg) ==>
        && readLimit <= c.readMaximum && writeLimit <= c.writeMaximum
        && (old(cfg) != null ==>
              && readLimit == Min(old(readLimit), c.readMaximum) && writeLimit == Min(old(writeLimit), c.writeMaximum)
              && lastUpdated == old(lastUpdated))
        && (old(cfg) == null ==> readLimit == c.readRate && writeLimit == c.writeRate && lastUpdated == tick)
        && hold.read == (readLimit <= 0) && hold.write == (writeLimit <= 0)
    {
      if c == null {
        cfg := null;
        hold := Hold(false, false, false);
        return;
      }
      if cfg == c {
        return;
      }
      var reinit := cfg != null;
      cfg := c;
      InitBucket(c, tick, reinit);
      hold := hold.(pending := false);
      var suspended := false;
      if readLimit > 0 {
        hold := hold.(read := false);
      } else {
        hold := hold.(read := true);
        suspended := true;
      }
      if writeLimit > 0 {
        hold := hold.(write := false);
      } else {
        hold := hold.(write := true);
        suspended := true;
      }
      if suspended {
        hold := hold.(pending := true);
      }
    }
  }
}
