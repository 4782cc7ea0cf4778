/** Division that rounds down or toward zero, and its bounds. */
module Division {
  import opened Basics

  lemma Times(n: nat, x: int)
    requires n > 0
    ensures n * x == (n - 1) * x + x
  {}

  lemma {:induction false} Scale(n: int, x: int, y: int)
    requires n > 0 && x < y
    ensures n * x + n <= n * y
    decreases n
  {
    if n > 1 {
      Scale(n - 1, x, y);
      Times(n, x);
      Times(n, y);
    }
  }

  lemma FloorSpec(a: int, n: int)
    requires n > 0
    ensures n * (a / n) <= a < n * (a / n) + n
  {}

  lemma FloorAtLeast(a: int, n: int, q: int)
    requires n > 0 && n * q <= a
    ensures q <= a / n
  {
    FloorSpec(a, n);
    if a / n < q { Scale(n, a / n, q); }
  }

  lemma FloorAtMost(a: int, n: int, q: int)
    requires n > 0 && a <= n * q
    ensures a / n <= q
  {
    FloorSpec(a, n);
    if a / n > q { Scale(n, q, a / n); }
  }

  lemma TruncBetween(a: int, n: int, lo: int, hi: int)
    requires n > 0 && n * lo <= a <= n * hi
    ensures lo <= TruncDiv(a, n) <= hi
  {
    if a >= 0 {
      FloorAtLeast(a, n, lo);
      FloorAtMost(a, n, hi);
    } else {
      FloorAtMost(-a, n, -lo);
      FloorAtLeast(-a, n, -hi);
    }
  }

  /** Truncated division keeps the order of fractions. */
  lemma TruncMonotone(a: int, n: int, b: int, m: int)
    requires n > 0 && m > 0 && a * m <= b * n
    ensures TruncDiv(a, n) <= TruncDiv(b, m)
  {
    if a >= 0 {
      SameSign(a, m, b, n);
      FloorMonotone(a, n, b, m);
    } else if b < 0 {
      assert (-b) * n == -(b * n) && (-a) * m == -(a * m);
      FloorMonotone(-b, m, -a, n);
    } else {
      FloorAtLeast(-a, n, 0);
      FloorAtLeast(b, m, 0);
    }
  }

  lemma SameSign(a: int, m: int, b: int, n: int)
    requires a >= 0 && m > 0 && n > 0 && a * m <= b * n
    ensures b >= 0
  {
    if b < 0 {
      Scale(n, b, 0);
      Weighted(0, a, m);
    }
  }

  lemma FloorMonotone(a: int, n: int, b: int, m: int)
    requires n > 0 && m > 0 && a * m <= b * n
    ensures a / n <= b / m
  {
    var q := a / n;
    FloorSpec(a, n);
    Weighted(n * q, a, m);
    assert (n * q) * m == n * (m * q);
    if m * q > b { Scale(n, b, m * q); }
    FloorAtLeast(b, m, q);
  }

  lemma Weighted(x: int, y: int, w: int)
    requires x <= y && w >= 0
    ensures w * x <= w * y && x * w == w * x && y * w == w * y
  {}

  /** A sum of products within bounds stays within them when a term within them is added. */
  lemma SumWithin(n: int, a: int, x: int, w: int, lo: int, hi: int)
    requires n * lo <= a <= n * hi && lo <= x <= hi && w >= 0
    ensures (n + w) * lo <= a + x * w <= (n + w) * hi
  {
    Weighted(lo, x, w);
    Weighted(x, hi, w);
    assert (n + w) * lo == n * lo + w * lo;
    assert (n + w) * hi == n * hi + w * hi;
  }
}
