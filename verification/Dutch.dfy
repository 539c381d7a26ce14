/** The price of a Dutch auction as a function of time. */
module Dutch {
  import opened Arithmetic
  import opened Common

  datatype Auction = Auction(start: int, decayStart: int, decayEnd: int)

  function Price(a: Auction, t: int, min: int): int {
    if t <= a.decayStart then a.start
    else if t >= a.decayEnd then min
    else a.start - TruncDiv((a.start - min) * (t - a.decayStart), a.decayEnd - a.decayStart)
  }

  lemma DropWithin(gap: int, elapsed: int, duration: int)
    requires gap >= 0 && 0 <= elapsed <= duration && duration > 0
    ensures 0 <= gap * elapsed <= gap * duration
    ensures 0 <= gap * elapsed / duration <= gap
  {
    Scaled(0, gap, duration);
    ScaledBy(gap, elapsed, duration);
    ScaledBy(gap, 0, elapsed);
    DivBounds(gap * elapsed, duration);
    assert (gap + 1) * duration == gap * duration + duration;
    QuotientBelow(gap * elapsed / duration, gap * elapsed, duration, gap);
  }

  lemma DropGrows(gap: int, e: int, f: int, duration: int)
    requires gap >= 0 && 0 <= e <= f && duration > 0
    ensures 0 <= gap * e <= gap * f && gap * e / duration <= gap * f / duration
  {
    ScaledBy(gap, e, f);
    ScaledBy(gap, 0, e);
    DivMonotone(gap * e, gap * f, duration);
  }

  lemma BelowBy(price: int, start: int, q: int, d: int)
    requires price == start - q
    ensures (price - start) * d == -(q * d) && (q + 1) * d == q * d + d
  {
  }

  /** Inside the decay the price lies on or less than one unit above the straight line from start to floor. */
  lemma PriceOnLine(a: Auction, t: int, min: int)
    requires a.start >= min && a.decayStart < t < a.decayEnd
    ensures var d := a.decayEnd - a.decayStart;
            0 <= (Price(a, t, min) - a.start) * d + (a.start - min) * (t - a.decayStart) < d
  {
    var d, n := a.decayEnd - a.decayStart, (a.start - min) * (t - a.decayStart);
    DropWithin(a.start - min, t - a.decayStart, d);
    DivBounds(n, d);
    BelowBy(Price(a, t, min), a.start, n / d, d);
  }

  /** With a start below the floor the truncation is the other way: on or less than one unit below the line. */
  lemma PriceOnRisingLine(a: Auction, t: int, min: int)
    requires a.start < min && a.decayStart < t < a.decayEnd
    ensures var d := a.decayEnd - a.decayStart;
            -d < (Price(a, t, min) - a.start) * d + (a.start - min) * (t - a.decayStart) <= 0
  {
    var d, n := a.decayEnd - a.decayStart, (min - a.start) * (t - a.decayStart);
    DropWithin(min - a.start, t - a.decayStart, d);
    DivBounds(n, d);
    assert (a.start - min) * (t - a.decayStart) == -n;
    BelowBy(Price(a, t, min), a.start, -(n / d), d);
    assert -(n / d) * d == -(n / d * d) && (n / d + 1) * d == n / d * d + d;
  }

  /** The start price until the decay begins, the floor once it is over. */
  lemma PriceEnds(a: Auction, t: int, min: int)
    ensures t <= a.decayStart ==> Price(a, t, min) == a.start
    ensures t >= a.decayEnd > a.decayStart ==> Price(a, t, min) == min
    ensures a.decayStart < t && a.decayEnd <= t ==> Price(a, t, min) == min
  {
  }

  lemma PriceWithin(a: Auction, t: int, min: int)
    requires a.start >= min
    ensures min <= Price(a, t, min) <= a.start
  {
    if a.decayStart < t < a.decayEnd {
      DropWithin(a.start - min, t - a.decayStart, a.decayEnd - a.decayStart);
    }
  }

  lemma PriceFalls(a: Auction, t: int, u: int, min: int)
    requires a.start >= min && t <= u
    ensures Price(a, t, min) >= Price(a, u, min)
  {
    PriceWithin(a, t, min);
    PriceWithin(a, u, min);
    if a.decayStart < t && u < a.decayEnd {
      var gap, e, f, d := a.start - min, t - a.decayStart, u - a.decayStart, a.decayEnd - a.decayStart;
      DropGrows(gap, e, f, d);
    }
  }

  /** The price never rises exactly when the auction starts at or above its floor. */
  lemma PriceMonotoneIff(a: Auction, min: int)
    ensures (forall t, u :: t <= u ==> Price(a, t, min) >= Price(a, u, min)) <==> a.start >= min
  {
    if a.start >= min {
      forall t, u | t <= u ensures Price(a, t, min) >= Price(a, u, min) { PriceFalls(a, t, u, min); }
    } else {
      var end := if a.decayEnd > a.decayStart then a.decayEnd else a.decayStart + 1;
      assert Price(a, a.decayStart, min) == a.start && Price(a, end, min) == min;
    }
  }
}
