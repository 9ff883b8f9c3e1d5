/** Exact integer arithmetic standing in for the floating-point percentages, means and
    roundings of the client: `Math.round`, `Math.max(0, Math.min(100, x))`, sums. */
module Numeric {

  /** `Math.round(p / q)` for a positive denominator: the nearest integer, halves upward. */
  function Round(p: int, q: int): (r: int)
    requires q > 0
    ensures 2 * q * r <= 2 * p + q < 2 * q * r + 2 * q
  {
    var n := 2 * p + q;
    var d := 2 * q;
    assert n == d * (n / d) + n % d;
    n / d
  }

  /** `Math.round(100 * n / d)`: a rounded percentage. */
  function Percent(n: int, d: int): (r: int)
    requires d > 0
    ensures 0 <= n <= d ==> 0 <= r <= 100
    ensures n == 0 ==> r == 0
    ensures n == d ==> r == 100
  {
    PercentFacts(n, d);
    Round(100 * n, d)
  }

  lemma PercentFacts(n: int, d: int)
    requires d > 0
    ensures 0 <= n <= d ==> 0 <= Round(100 * n, d) <= 100
    ensures n == 0 ==> Round(100 * n, d) == 0
    ensures n == d ==> Round(100 * n, d) == 100
  {
    if 0 <= n <= d {
      MulMonotone(100, n, d);
      RoundBetween(100 * n, d, 0, 100);
    }
    if n == 0 {
      RoundExact(0, d);
    }
    if n == d {
      RoundExact(100, d);
      assert 100 * n == 100 * d;
    }
  }

  /** A quotient that is exactly an integer rounds to that integer. */
  lemma RoundExact(k: int, q: int)
    requires q > 0
    ensures Round(k * q, q) == k
  {
    var r := Round(k * q, q);
    assert 2 * q * r <= 2 * (k * q) + q < 2 * q * r + 2 * q;
    if r < k {
      MulMonotone(2 * q, r + 1, k);
      assert false;
    } else if r > k {
      MulMonotone(2 * q, k + 1, r);
      assert false;
    }
  }

  /** Rounding is monotone in the exact value: p1/q1 <= p2/q2 implies round(p1/q1) <= round(p2/q2). */
  lemma RoundMonotone(p1: int, q1: int, p2: int, q2: int)
    requires q1 > 0 && q2 > 0
    requires p1 * q2 <= p2 * q1
    ensures Round(p1, q1) <= Round(p2, q2)
  {
    var r1 := Round(p1, q1);
    var r2 := Round(p2, q2);
    if r1 > r2 {
      // p1/q1 >= r1 - 1/2 and p2/q2 < r2 + 1/2 <= r1 - 1/2
      MulMonotone(2 * q2, r2 + 1, r1);
      CrossContradiction(p1, q1, p2, q2, r1);
    }
  }

  lemma CrossContradiction(p1: int, q1: int, p2: int, q2: int, r: int)
    requires q1 > 0 && q2 > 0
    requires 2 * q1 * r <= 2 * p1 + q1
    requires 2 * p2 + q2 < 2 * q2 * r
    ensures p2 * q1 < p1 * q2
  {
    var x := 2 * q1 * r;
    var y := 2 * q2 * r;
    MulMonotone(q2, x, 2 * p1 + q1);
    MulStrict(q1, 2 * p2 + q2, y);
    assert q2 * x == q1 * y;
  }

  lemma MulMonotone(c: int, a: int, b: int)
    requires c >= 0 && a <= b
    ensures c * a <= c * b
  {
  }

  lemma MulStrict(c: int, a: int, b: int)
    requires c > 0 && a < b
    ensures c * a < c * b
  {
  }

  /** A value between lo and hi (as lo*q <= p <= hi*q) rounds into [lo, hi]. */
  lemma RoundBetween(p: int, q: int, lo: int, hi: int)
    requires q > 0
    requires lo * q <= p <= hi * q
    ensures lo <= Round(p, q) <= hi
  {
    RoundExact(lo, q);
    RoundExact(hi, q);
    RoundMonotone(lo * q, q, p, q);
    RoundMonotone(p, q, hi * q, q);
  }

  /** Below m (as p < m*q) rounds to at most m. */
  lemma RoundBelow(p: int, q: int, m: int)
    requires q > 0 && p < m * q
    ensures Round(p, q) <= m
  {
    var r := Round(p, q);
    assert 2 * q * (m + 1) == 2 * (m * q) + 2 * q;
    if r >= m + 1 {
      MulMonotone(2 * q, m + 1, r);
    }
  }

  /** Above m (as p > m*q) rounds to at least m. */
  lemma RoundAbove(p: int, q: int, m: int)
    requires q > 0 && p > m * q
    ensures Round(p, q) >= m
  {
    var r := Round(p, q);
    assert 2 * q * (m - 1) == 2 * (m * q) - 2 * q;
    if r <= m - 1 {
      MulMonotone(2 * q, r, m - 1);
    }
  }

  /** Cross-multiplied comparison of c + 4*sa/ka with c + 4*sb/kb. */
  lemma ShiftedCross(c: int, ka: int, kb: int, sa: int, sb: int)
    requires sa * kb <= sb * ka
    ensures (c * ka + 4 * sa) * kb <= (c * kb + 4 * sb) * ka
  {
    assert (c * ka + 4 * sa) * kb == c * (ka * kb) + 4 * (sa * kb);
    assert (c * kb + 4 * sb) * ka == c * (ka * kb) + 4 * (sb * ka);
  }

  /** `Math.max(lo, Math.min(hi, x))`. */
  function Clamp(lo: int, hi: int, x: int): (r: int)
    requires lo <= hi
    ensures lo <= r <= hi
    ensures lo <= x <= hi ==> r == x
    ensures x < lo ==> r == lo
    ensures x > hi ==> r == hi
  {
    if x < lo then lo else if x > hi then hi else x
  }

  function Sum(xs: seq<int>): int
  {
    if xs == [] then 0 else Sum(xs[..|xs| - 1]) + xs[|xs| - 1]
  }

  /** n copies of x sum to n * x. */
  lemma {:induction false} SumOfEqual(xs: seq<int>, x: int)
    requires forall i | 0 <= i < |xs| :: xs[i] == x
    ensures Sum(xs) == |xs| * x
  {
    if xs != [] {
      SumOfEqual(xs[..|xs| - 1], x);
    }
  }

  /** Every term lies in [lo, hi], so the sum lies in [lo*n, hi*n]. */
  lemma {:induction false} SumBetween(xs: seq<int>, lo: int, hi: int)
    requires forall i | 0 <= i < |xs| :: lo <= xs[i] <= hi
    ensures lo * |xs| <= Sum(xs) <= hi * |xs|
  {
    if xs != [] {
      var init := xs[..|xs| - 1];
      assert forall i | 0 <= i < |init| :: init[i] == xs[i];
      SumBetween(init, lo, hi);
      assert lo * |xs| == lo * |init| + lo;
      assert hi * |xs| == hi * |init| + hi;
    }
  }

  lemma {:induction false} SumAppend(xs: seq<int>, ys: seq<int>)
    ensures Sum(xs + ys) == Sum(xs) + Sum(ys)
  {
    if ys != [] {
      var init := ys[..|ys| - 1];
      assert (xs + ys)[..|xs + ys| - 1] == xs + init;
      SumAppend(xs, init);
    } else {
      assert xs + ys == xs;
    }
  }

  /** A fraction num/den with a positive denominator: means and progress values. */
  datatype Ratio = Ratio(num: int, den: int) {

    ghost predicate Valid() {
      den > 0
    }

    /** lo <= num/den <= hi */
    predicate Between(lo: int, hi: int) {
      lo * den <= num <= hi * den
    }
  }
}
