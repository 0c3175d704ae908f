/** Small facts about ordered-field arithmetic on exact reals. */
module RealArith {

  /** Scaling by a positive factor preserves the order of reals. */
  lemma CancelPositive(x: real, y: real, t: real)
    requires t > 0.0 && x * t <= y * t
    ensures x <= y
  {
  }

  /** A total confined to [n * lo, n * hi] has a quotient by n in [lo, hi]. */
  lemma QuotientBetween(sum: real, n: real, lo: real, hi: real)
    requires n > 0.0
    requires n * lo <= sum <= n * hi
    ensures lo <= sum / n <= hi
  {
    assert (sum / n) * n == sum;
    CancelPositive(lo, sum / n, n);
    CancelPositive(sum / n, hi, n);
  }

  /**
    Three shares of a positive total, each given by `share * total == part * 100`,
    add up to at most 100, and to exactly 100 when the parts make up the total.
   */
  lemma SharesOfTotal(pa: real, pb: real, pc: real, a: real, b: real, c: real, t: real)
    requires t > 0.0
    requires pa * t == a * 100.0 && pb * t == b * 100.0 && pc * t == c * 100.0
    requires a + b + c <= t
    ensures pa + pb + pc <= 100.0
    ensures a + b + c == t ==> pa + pb + pc == 100.0
  {
    var s := pa + pb + pc;
    assert s * t == pa * t + pb * t + pc * t;
    assert s * t == (a + b + c) * 100.0;
    CancelPositive(s, 100.0, t);
    if a + b + c == t {
      CancelPositive(100.0, s, t);
    }
  }
}
