/** libevent's token buckets: the refill that avoids overflow, in machine arithmetic. */
module TokenBucket {
  import opened Common

  /** The two directions of a bufferevent, and a value for each. */
  datatype Way = Reading | Writing

  datatype Both<T> = Both(reading: T, writing: T) {
    function Of(way: Way): T { if way == Reading then reading else writing }

    function Set(way: Way, x: T): Both<T> {
      if way == Reading then this.(reading := x) else this.(writing := x)
    }
  }

  const TICKS := 0x1_0000_0000 // tick numbers are 32-bit and wrap around
  const INT_MAX := 0x7FFF_FFFF

  /** A signed type runs from -half to half - 1, its unsigned partner to 2 * half - 1. */
  predicate Word(half: int) { half > INT_MAX }

  function Unsigned(half: int, x: int): (u: nat)
    requires half > 0
    ensures u < 2 * half
  {
    x % (2 * half)
  }

  function Signed(half: int, u: nat): int
    requires u < 2 * half
  {
    if u < half then u else u - 2 * half
  }

  /** One side of ev_token_bucket_update_: signed limit, unsigned rate and maximum. */
  function Refill(half: int, limit: int, maximum: nat, rate: nat, ticks: nat): int
    requires Word(half) && ticks > 0 && maximum < half
  {
    if Unsigned(half, maximum - limit) / ticks < rate then Signed(half, maximum)
    else Signed(half, Unsigned(half, Unsigned(half, limit) + Unsigned(half, ticks * rate)))
  }

  /** What the refill is to compute. */
  function Ideal(limit: int, maximum: nat, rate: nat, ticks: nat): int {
    if limit + ticks * rate > maximum then maximum else limit + ticks * rate
  }

  lemma QuotientBelow(d: nat, n: nat, r: nat)
    requires n > 0
    ensures d / n < r <==> d < n * r
  {
    var q := d / n;
    assert n * q <= d < n * q + n;
    if q < r {
      assert n * (q + 1) <= n * r;
    } else {
      assert n * r <= n * q;
    }
  }

  lemma UnsignedOf(half: int, x: int)
    requires half > 0
    ensures 0 <= x < 2 * half ==> Unsigned(half, x) == x
    ensures -2 * half <= x < 0 ==> Unsigned(half, x) == x + 2 * half
  {
    if 0 <= x < 2 * half {
      Divided(2 * half, 0, x);
    } else if -2 * half <= x < 0 {
      Divided(2 * half, -1, x + 2 * half);
    }
  }

  /** Adding in the unsigned type and coming back is adding. */
  lemma SignedSum(half: int, x: int, y: nat)
    requires half > 0 && -half <= x < half && y < 2 * half && -half <= x + y < half
    ensures Signed(half, Unsigned(half, Unsigned(half, x) + Unsigned(half, y))) == x + y
  {
    UnsignedOf(half, x);
    UnsignedOf(half, y);
    assert Unsigned(half, Unsigned(half, x) + y) == Unsigned(half, x + y) by {
      if x < 0 {
        assert (x + 2 * half + y) % (2 * half) == (x + y) % (2 * half) by { ModOfSum(x + y, 1, 2 * half); }
      }
    }
    UnsignedOf(half, x + y);
  }

  /** A bucket that is not above its maximum is refilled as intended, without overflow. */
  lemma RefillIsIdeal(half: int, limit: int, maximum: nat, rate: nat, ticks: nat)
    requires Word(half) && ticks > 0 && maximum < half && -half <= limit <= maximum
    ensures Refill(half, limit, maximum, rate, ticks) == Ideal(limit, maximum, rate, ticks)
  {
    var d := maximum - limit;
    UnsignedOf(half, d);
    QuotientBelow(d, ticks, rate);
    if d >= ticks * rate {
      SignedSum(half, limit, ticks * rate);
    }
  }

  /** One above its maximum, as a refund leaves it, is brought down to the maximum only
      when the tokens to be added reach across the whole unsigned range. */
  lemma RefillAboveMaximum(half: int, limit: int, maximum: nat, rate: nat, ticks: nat)
    requires Word(half) && ticks > 0 && maximum < limit < half
    ensures Refill(half, limit, maximum, rate, ticks) == Ideal(limit, maximum, rate, ticks)
       <==> 2 * half - (limit - maximum) <= ticks * rate
    ensures limit + ticks * rate < half ==> Refill(half, limit, maximum, rate, ticks) == limit + ticks * rate
  {
    var d := 2 * half - (limit - maximum);
    UnsignedOf(half, maximum - limit);
    QuotientBelow(d, ticks, rate);
    assert ticks * rate >= 0;
    if ticks * rate <= d {
      var u := limit + ticks * rate;
      UnsignedOf(half, limit);
      UnsignedOf(half, ticks * rate);
      UnsignedOf(half, u);
      if u >= 2 * half {
        assert u - 2 * half <= maximum;
        ModOfSum(u - 2 * half, 1, 2 * half);
        UnsignedOf(half, u - 2 * half);
      }
    }
  }

  /** It may even overflow: one tick after a refund to the top of the range the bucket is
      as empty as can be. */
  lemma RefillOverflows(half: int)
    requires Word(half)
    ensures Refill(half, half - 1, 1, 1, 1) == -half
  {
    RefillAboveMaximum(half, half - 1, 1, 1, 1);
    UnsignedOf(half, 2 - half);
    UnsignedOf(half, half - 1);
    UnsignedOf(half, 1);
    UnsignedOf(half, half);
  }

  // ----- buckets

  datatype Cfg = Cfg(rate: Both<nat>, maximum: Both<nat>)

  /** What ev_token_bucket_cfg_new checks. */
  predicate Usable(half: int, cfg: Cfg) {
    && Word(half)
    && 1 <= cfg.rate.reading <= cfg.maximum.reading < half
    && 1 <= cfg.rate.writing <= cfg.maximum.writing < half
  }

  datatype Bucket = Bucket(limit: Both<int>, last: nat)

  predicate InRange(half: int, cfg: Cfg, b: Bucket) {
    && b.last < TICKS
    && -half <= b.limit.reading <= cfg.maximum.reading
    && -half <= b.limit.writing <= cfg.maximum.writing
  }

  /** The unsigned difference of two tick numbers. */
  function Elapsed(now: nat, last: nat): nat { (now - last) % TICKS }

  predicate Counts(n: nat) { 0 < n <= INT_MAX }

  /** ev_token_bucket_update_ */
  function Updated(half: int, cfg: Cfg, b: Bucket, now: nat): Bucket
    requires Usable(half, cfg)
  {
    var n := Elapsed(now, b.last);
    if !Counts(n) then b
    else Bucket(Both(Refill(half, b.limit.reading, cfg.maximum.Of(Reading), cfg.rate.Of(Reading), n),
                     Refill(half, b.limit.writing, cfg.maximum.Of(Writing), cfg.rate.Of(Writing), n)), now)
  }

  /** Each side of an updated bucket, when it is not above its maximum. */
  lemma UpdatedIs(half: int, cfg: Cfg, b: Bucket, now: nat, way: Way)
    requires Usable(half, cfg) && InRange(half, cfg, b) && now < TICKS && Counts(Elapsed(now, b.last))
    ensures Updated(half, cfg, b, now).limit.Of(way)
         == Ideal(b.limit.Of(way), cfg.maximum.Of(way), cfg.rate.Of(way), Elapsed(now, b.last))
    ensures b.limit.Of(way) <= Updated(half, cfg, b, now).limit.Of(way) <= cfg.maximum.Of(way)
  {
    var n := Elapsed(now, b.last);
    RefillIsIdeal(half, b.limit.Of(way), cfg.maximum.Of(way), cfg.rate.Of(way), n);
    IdealBounds(b.limit.Of(way), cfg.maximum.Of(way), cfg.rate.Of(way), n);
    UpdatedSide(half, cfg, b, now, way);
  }

  /** When the clock has gone on, by less than half of all tick numbers, each side has that
      many ticks' worth of tokens more, up to its maximum. */
  lemma ClockGoneOn(half: int, cfg: Cfg, b: Bucket, now: nat, d: nat, way: Way)
    requires Usable(half, cfg) && InRange(half, cfg, b) && now < 0x1_0000_0000 && 0 < d < 0x8000_0000
    requires now == b.last + d || now == b.last + d - 0x1_0000_0000
    ensures var u := Updated(half, cfg, b, now);
      u.last == now && u.limit.Of(way) == Ideal(b.limit.Of(way), cfg.maximum.Of(way), cfg.rate.Of(way), d)
  {
    assert Elapsed(now, b.last) == d;
    UpdatedIs(half, cfg, b, now, way);
  }

  /** When it stands still or has gone back, by half of them at most, nothing changes. */
  lemma ClockGoneBack(half: int, cfg: Cfg, b: Bucket, now: nat, d: nat)
    requires Usable(half, cfg) && InRange(half, cfg, b) && now < 0x1_0000_0000 && d <= 0x8000_0000
    requires now == b.last - d || now == b.last - d + 0x1_0000_0000
    ensures Updated(half, cfg, b, now) == b
  {
    assert Elapsed(now, b.last) == if d == 0 then 0 else 0x1_0000_0000 - d;
  }

  lemma IdealBounds(limit: int, maximum: nat, rate: nat, ticks: nat)
    requires limit <= maximum
    ensures limit <= Ideal(limit, maximum, rate, ticks) <= maximum
  {
    assert ticks * rate >= 0;
  }

  lemma UpdatedSide(half: int, cfg: Cfg, b: Bucket, now: nat, way: Way)
    requires Usable(half, cfg) && Counts(Elapsed(now, b.last))
    ensures Updated(half, cfg, b, now).limit.Of(way)
         == Refill(half, b.limit.Of(way), cfg.maximum.Of(way), cfg.rate.Of(way), Elapsed(now, b.last))
  {
  }

  lemma UpdatedInRange(half: int, cfg: Cfg, b: Bucket, now: nat)
    requires Usable(half, cfg) && InRange(half, cfg, b) && now < TICKS
    ensures InRange(half, cfg, Updated(half, cfg, b, now))
  {
    if Counts(Elapsed(now, b.last)) {
      UpdatedIs(half, cfg, b, now, Reading);
      UpdatedIs(half, cfg, b, now, Writing);
    }
  }

  /** Tick numbers may wrap around, the ticks between them still add up. */
  lemma ElapsedAddsUp(t0: nat, t1: nat, t2: nat)
    requires t0 < TICKS && t1 < TICKS && t2 < TICKS && Elapsed(t1, t0) + Elapsed(t2, t1) < TICKS
    ensures Elapsed(t2, t0) == Elapsed(t1, t0) + Elapsed(t2, t1)
  {
  }

  lemma SameTick(now: nat, last: nat)
    requires now < TICKS && last < TICKS && Elapsed(now, last) == 0
    ensures now == last
  {
  }

  lemma IdealAddsUp(limit: int, maximum: nat, rate: nat, m: nat, n: nat)
    ensures Ideal(Ideal(limit, maximum, rate, m), maximum, rate, n) == Ideal(limit, maximum, rate, m + n)
  {
    assert (m + n) * rate == m * rate + n * rate;
    assert n * rate >= 0;
  }

  lemma UpdatesComposeSide(half: int, cfg: Cfg, b: Bucket, t1: nat, t2: nat, way: Way)
    requires Usable(half, cfg) && InRange(half, cfg, b) && t1 < TICKS && t2 < TICKS
    requires Elapsed(t1, b.last) > 0 && Elapsed(t2, t1) > 0 && Elapsed(t1, b.last) + Elapsed(t2, t1) <= INT_MAX
    ensures Updated(half, cfg, Updated(half, cfg, b, t1), t2).limit.Of(way) == Updated(half, cfg, b, t2).limit.Of(way)
  {
    ElapsedAddsUp(b.last, t1, t2);
    UpdatedInRange(half, cfg, b, t1);
    UpdatedIs(half, cfg, b, t1, way);
    UpdatedIs(half, cfg, Updated(half, cfg, b, t1), t2, way);
    UpdatedIs(half, cfg, b, t2, way);
    IdealAddsUp(b.limit.Of(way), cfg.maximum.Of(way), cfg.rate.Of(way), Elapsed(t1, b.last), Elapsed(t2, t1));
  }

  /** Two updates do what one does at the later time. */
  lemma UpdatesCompose(half: int, cfg: Cfg, b: Bucket, t1: nat, t2: nat)
    requires Usable(half, cfg) && InRange(half, cfg, b) && t1 < TICKS && t2 < TICKS
    requires Elapsed(t1, b.last) + Elapsed(t2, t1) <= INT_MAX
    ensures Updated(half, cfg, Updated(half, cfg, b, t1), t2) == Updated(half, cfg, b, t2)
  {
    ElapsedAddsUp(b.last, t1, t2);
    if Elapsed(t1, b.last) == 0 {
      SameTick(t1, b.last);
    } else if Elapsed(t2, t1) == 0 {
      SameTick(t2, t1);
    } else {
      UpdatesComposeSide(half, cfg, b, t1, t2, Reading);
      UpdatesComposeSide(half, cfg, b, t1, t2, Writing);
    }
  }

  // ----- how much a bucket lets through

  /** One transfer in one direction: at tick `now`, of `bytes` bytes. */
  datatype Transfer = Transfer(now: nat, bytes: nat)

  /** The bucket after a transfer: brought up to date, and charged. */
  function After(half: int, cfg: Cfg, b: Bucket, way: Way, t: Transfer): Bucket
    requires Usable(half, cfg)
  {
    var u := Updated(half, cfg, b, t.now);
    u.(limit := u.limit.Set(way, u.limit.Of(way) - t.bytes))
  }

  /** No transfer is larger than what bufferevent_get_rlim_max_ allows at its time. */
  ghost predicate Allowed(half: int, cfg: Cfg, b: Bucket, way: Way, ts: seq<Transfer>)
    requires Usable(half, cfg)
    decreases |ts|
  {
    ts == [] || (
      && ts[0].now < TICKS
      && (var most := Updated(half, cfg, b, ts[0].now).limit.Of(way); ts[0].bytes <= if most < 0 then 0 else most)
      && Allowed(half, cfg, After(half, cfg, b, way, ts[0]), way, ts[1..]))
  }

  function Bytes(ts: seq<Transfer>): nat {
    if ts == [] then 0 else ts[0].bytes + Bytes(ts[1..])
  }

  /** The ticks that the bucket sees pass. */
  function Ticks(last: nat, ts: seq<Transfer>): nat
    decreases |ts|
  {
    if ts == [] then 0
    else
      var n := Elapsed(ts[0].now, last);
      if Counts(n) then n + Ticks(ts[0].now, ts[1..]) else Ticks(last, ts[1..])
  }

  /** The ticks do not go back, and the window is not so long that a tick number comes again. */
  ghost predicate Forward(last: nat, ts: seq<Transfer>, span: nat)
    decreases |ts|
  {
    ts == [] || (
      && ts[0].now < TICKS && Elapsed(ts[0].now, last) <= span
      && Forward(ts[0].now, ts[1..], span - Elapsed(ts[0].now, last)))
  }

  /** Then the ticks that the bucket sees are those from the first to the last. */
  lemma {:induction false} TicksElapsed(last: nat, ts: seq<Transfer>, span: nat)
    requires last < TICKS && span <= INT_MAX && Forward(last, ts, span)
    ensures Ticks(last, ts) == if ts == [] then 0 else Elapsed(ts[|ts| - 1].now, last)
    ensures ts != [] ==> ts[|ts| - 1].now < TICKS
    ensures Ticks(last, ts) <= span
    decreases |ts|
  {
    if ts != [] {
      var n := Elapsed(ts[0].now, last);
      TicksElapsed(ts[0].now, ts[1..], span - n);
      if n == 0 { SameTick(ts[0].now, last); }
      if |ts| > 1 {
        assert ts[1..][|ts| - 2] == ts[|ts| - 1];
        ElapsedAddsUp(last, ts[0].now, ts[|ts| - 1].now);
      }
    }
  }

  /** In a window of d ticks no more than what was in the bucket and d times the rate gets
      through, however the transfers are cut. */
  lemma {:induction false} WindowBound(half: int, cfg: Cfg, b: Bucket, way: Way, ts: seq<Transfer>)
    requires Usable(half, cfg) && InRange(half, cfg, b) && Allowed(half, cfg, b, way, ts)
    ensures Bytes(ts) <= (if b.limit.Of(way) < 0 then 0 else b.limit.Of(way)) + cfg.rate.Of(way) * Ticks(b.last, ts)
    ensures Bytes(ts) <= cfg.maximum.Of(way) + cfg.rate.Of(way) * Ticks(b.last, ts)
    decreases |ts|
  {
    if ts != [] {
      var t := ts[0];
      var u := Updated(half, cfg, b, t.now);
      UpdatedInRange(half, cfg, b, t.now);
      ChargedInRange(half, cfg, u, way, t.bytes);
      WindowBound(half, cfg, After(half, cfg, b, way, t), way, ts[1..]);
      var n, rest := Elapsed(t.now, b.last), Ticks(u.last, ts[1..]);
      if Counts(n) {
        UpdatedIs(half, cfg, b, t.now, way);
        TicksAddUp(cfg.rate.Of(way), n, rest);
      }
      TicksAddUp(cfg.rate.Of(way), 0, rest);
      assert Bytes(ts) == t.bytes + Bytes(ts[1..]);
    }
  }

  /** So the bytes between two ticks d apart are at most the maximum and d times the rate. */
  lemma WindowOfTicks(half: int, cfg: Cfg, b: Bucket, way: Way, ts: seq<Transfer>, span: nat)
    requires Usable(half, cfg) && InRange(half, cfg, b) && Allowed(half, cfg, b, way, ts)
    requires ts != [] && span <= INT_MAX && Forward(b.last, ts, span)
    ensures Bytes(ts) <= cfg.maximum.Of(way) + cfg.rate.Of(way) * Elapsed(ts[|ts| - 1].now, b.last)
  {
    WindowBound(half, cfg, b, way, ts);
    TicksElapsed(b.last, ts, span);
  }

  lemma TicksAddUp(rate: nat, n: nat, rest: nat)
    ensures rate * (n + rest) == n * rate + rate * rest && n * rate >= 0 && rate * rest >= 0
  {
  }

  lemma ChargedInRange(half: int, cfg: Cfg, u: Bucket, way: Way, bytes: nat)
    requires Usable(half, cfg) && InRange(half, cfg, u)
    requires bytes <= if u.limit.Of(way) < 0 then 0 else u.limit.Of(way)
    ensures InRange(half, cfg, u.(limit := u.limit.Set(way, u.limit.Of(way) - bytes)))
  {
  }
}
