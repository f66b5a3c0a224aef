/** When a periodic watcher of libev is to fire next. */
module Periodics {

  /** MIN_INTERVAL: the smallest interval the first guess divides by. */
  const MIN_INTERVAL := 0.0001220703125

  /** Some whole number of intervals after the offset. */
  ghost predicate OnGrid(at: real, offset: real, interval: real) {
    exists k: int {:trigger Grid(offset, interval, k)} :: at == Grid(offset, interval, k)
  }

  function Grid(offset: real, interval: real, k: int): real {
    offset + interval * (k as real)
  }

  /** The first guess: the last point of the grid that is not after now. */
  function Guess(now: real, offset: real, interval: real): real
    requires interval > 0.0
  {
    Grid(offset, interval, ((now - offset) / interval).Floor)
  }

  lemma Times(q: real, x: real, interval: real)
    requires interval > 0.0 && q == x / interval
    ensures interval * q == x
  {
  }

  lemma Scale(interval: real, a: real, b: real)
    requires interval > 0.0 && a <= b
    ensures interval * a <= interval * b
    ensures a < b ==> interval * a < interval * b
  {
  }

  lemma GuessIs(now: real, offset: real, interval: real)
    requires interval > 0.0
    ensures Guess(now, offset, interval) <= now < Guess(now, offset, interval) + interval
  {
    var q := (now - offset) / interval;
    var k := q.Floor;
    Floored(q);
    calc {
      Guess(now, offset, interval);
    ==
      offset + interval * (k as real);
    <= { Scale(interval, k as real, q); }
      offset + interval * q;
    == { Times(q, now - offset, interval); }
      now;
    }
    calc {
      now;
    == { Times(q, now - offset, interval); }
      offset + interval * q;
    <  { Scale(interval, q, k as real + 1.0); }
      offset + interval * (k as real + 1.0);
    == { Distribute(interval, k as real); }
      Guess(now, offset, interval) + interval;
    }
  }

  lemma NextPoint(offset: real, interval: real, k: int)
    ensures Grid(offset, interval, k + 1) == Grid(offset, interval, k) + interval
    ensures Grid(offset, interval, k + 1) == offset + interval * (k as real + 1.0)
  {
    assert (k + 1) as real == k as real + 1.0;
    Distribute(interval, k as real);
  }

  lemma Distribute(a: real, b: real)
    ensures a * (b + 1.0) == a * b + a
  {
  }

  /** Between two neighbours of the grid there is no third. */
  lemma NoneBetween(offset: real, interval: real, j: int, k: int)
    requires interval > 0.0 && Grid(offset, interval, j) < Grid(offset, interval, k)
    ensures Grid(offset, interval, j) + interval <= Grid(offset, interval, k)
  {
    if k <= j {
      Scale(interval, k as real, j as real);
    }
    Scale(interval, (j + 1) as real, k as real);
    NextPoint(offset, interval, j);
  }

  /** Where the grid that the result lies on starts. */
  function Anchor(now: real, offset: real, wInterval: real): real {
    if 8192.0 * wInterval >= 1.0 then offset else Guess(now, offset, 1.0 / 8192.0)
  }

  /** periodic_recalc, for an interval that is not zero.  The result is later than now, by
      at most one interval. */
  method Recalc(now: real, offset: real, wInterval: real) returns (at: real)
    requires wInterval > 0.0
    ensures now < at <= now + wInterval
    // it is the next point of a grid: the watcher's own, or, with an absurdly short interval,
    // the one from the last multiple of a 8192th of a second after the offset
    ensures OnGrid(at, Anchor(now, offset, wInterval), wInterval)
    ensures forall k: int {:trigger Grid(Anchor(now, offset, wInterval), wInterval, k)} ::
      Grid(Anchor(now, offset, wInterval), wInterval, k) > now ==>
      at <= Grid(Anchor(now, offset, wInterval), wInterval, k)
  {
    var interval := if wInterval > MIN_INTERVAL then wInterval else MIN_INTERVAL;
    at := Guess(now, offset, interval);
    GuessIs(now, offset, interval);
    ghost var anchor := Anchor(now, offset, wInterval);
    ghost var k := if 8192.0 * wInterval >= 1.0 then ((now - offset) / interval).Floor else 0;
    assert interval == if 8192.0 * wInterval >= 1.0 then wInterval else 1.0 / 8192.0;
    assert at == Grid(anchor, wInterval, k);
    while at <= now
      invariant at <= now + wInterval
      invariant at == Grid(anchor, wInterval, k)
      decreases ((now - at) / wInterval).Floor + 1
    {
      Closer(now, at, wInterval);
      var next := at + wInterval;
      // over the reals the resolution never fails
      assert next != at;
      at := next;
      NextPoint(anchor, wInterval, k);
      k := k + 1;
    }
    forall j: int | Grid(anchor, wInterval, j) > now ensures at <= Grid(anchor, wInterval, j) {
      NextPoint(anchor, wInterval, k - 1);
      NoneBetween(anchor, wInterval, k - 1, j);
    }
  }

  /** Each round brings the time closer by one. */
  lemma Closer(now: real, at: real, interval: real)
    requires interval > 0.0 && at <= now
    ensures ((now - at) / interval).Floor >= 0
    ensures ((now - (at + interval)) / interval).Floor == ((now - at) / interval).Floor - 1
  {
    var q := (now - at) / interval;
    Times(q, now - at, interval);
    Distribute(interval, q - 1.0);
    assert now - (at + interval) == interval * (q - 1.0);
    QuotientIs(now - (at + interval), interval, q - 1.0);
    FloorLess(q);
    Floored(q);
    if q < 0.0 { Scale(interval, q, 0.0); }
  }

  lemma Floored(q: real)
    ensures q.Floor as real <= q < q.Floor as real + 1.0
  {
  }

  lemma FloorLess(q: real)
    ensures (q - 1.0).Floor == q.Floor - 1
  {
  }

  lemma QuotientIs(x: real, a: real, q: real)
    requires a > 0.0 && x == a * q
    ensures x / a == q
  {
  }
}
