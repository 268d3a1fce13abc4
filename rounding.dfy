/**
 * `Math.round(part / whole * 100)` on whole numbers, as the dashboards use it
 * for percentages.
 */
module Rounding {
  /** `Math.round(a / b * 100)` for `b > 0`: halves round up. */
  function RoundedPercent(a: int, b: int): int
    requires b > 0
  {
    (200 * a + b) / (2 * b)
  }

  /** Quotient and remainder of the rounding division. */
  lemma RoundedPercentSplit(a: int, t: int)
    requires t > 0
    ensures var r := RoundedPercent(a, t);
      0 <= 200 * a + t - 2 * (r * t) < 2 * t
  {
    var x := 200 * a + t;
    var r := x / (2 * t);
    assert x == (2 * t) * r + x % (2 * t);
    assert (2 * t) * r == 2 * (r * t);
  }

  lemma PositiveFactor(d: int, m: int)
    requires d > 0 && d * m > 0
    ensures m > 0
  {
  }

  lemma FactorBelowOne(d: int, m: int)
    requires d > 0 && d * m < d
    ensures m < 1
  {
  }

  lemma DivideBelow(x: int, d: int, k: int)
    requires d > 0 && x < k * d
    ensures x / d < k
  {
    var q := x / d;
    assert x == d * q + x % d;
    assert d * (k - q) == d * k - d * q;
    PositiveFactor(d, k - q);
  }

  lemma DivideAtLeast(x: int, d: int, k: int)
    requires d > 0 && k * d <= x
    ensures k <= x / d
  {
    var q := x / d;
    assert x == d * q + x % d;
    assert d * (k - q) == d * k - d * q;
    FactorBelowOne(d, k - q);
  }

  /** A rounded percentage of a part within its whole lies in 0-100 and is 100 for the whole. */
  lemma RoundedPercentBounds(a: int, t: int)
    requires 0 <= a <= t && t > 0
    ensures 0 <= RoundedPercent(a, t) <= 100
    ensures a == t ==> RoundedPercent(a, t) == 100
    ensures a == 0 ==> RoundedPercent(a, t) == 0
  {
    DivideBelow(200 * a + t, 2 * t, 101);
    DivideAtLeast(200 * a + t, 2 * t, 0);
    if a == t {
      DivideAtLeast(200 * a + t, 2 * t, 100);
    }
    if a == 0 {
      DivideBelow(200 * a + t, 2 * t, 1);
    }
  }
}
