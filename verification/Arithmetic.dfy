/** Multiplication and division facts. */
module Arithmetic {

  lemma Scaled(x: int, y: int, d: int)
    requires d > 0
    ensures x <= y ==> x * d <= y * d
  {
    assert y * d == x * d + (y - x) * d;
  }

  lemma ScaledBy(d: int, x: int, y: int)
    requires d >= 0 && x <= y
    ensures d * x <= d * y
  {
    assert d * y == d * x + d * (y - x);
  }

  lemma Distribute(s: int, t: int, d: int)
    ensures (s + t) * d == s * d + t * d
  {
  }

  lemma DivisionSplit(n: int, d: int)
    requires d > 0
    ensures n / d * d + n % d == n
  {
  }

  lemma DivBounds(n: int, d: int)
    requires n >= 0 && d > 0
    ensures 0 <= n / d && n / d * d <= n < (n / d + 1) * d
  {
    DivisionSplit(n, d);
    Distribute(n / d, 1, d);
  }

  lemma QuotientBelow(q: int, n: int, d: int, bound: int)
    requires d > 0 && q * d <= n && n < (bound + 1) * d
    ensures q <= bound
  {
    Scaled(bound + 1, q, d);
  }

  lemma QuotientAtLeast(n: int, q: int, d: int)
    requires d > 0 && q * d <= n
    ensures q <= n / d
  {
    DivisionSplit(n, d);
    Scaled(n / d + 1, q, d);
    Distribute(n / d, 1, d);
  }

  lemma QuotientUnique(n: int, q: int, d: int)
    requires d > 0
    ensures q * d <= n < q * d + d ==> q == n / d
  {
    Scaled(q + 1, n / d, d);
    Scaled(n / d + 1, q, d);
    DivisionSplit(n, d);
    Distribute(q, 1, d);
    Distribute(n / d, 1, d);
  }

  lemma DivMonotone(n: int, k: int, d: int)
    requires 0 <= n <= k && d > 0
    ensures n / d <= k / d
  {
    DivBounds(n, d);
    DivBounds(k, d);
    QuotientBelow(n / d, n, d, k / d);
  }

  lemma Between(x: int, low: int, high: int, d: int)
    requires d > 0 && low * d < x * d <= high * d
    ensures low < x <= high
  {
    Scaled(x, low, d);
    Scaled(high + 1, x, d);
    Distribute(high, 1, d);
  }
}
