/** Multiples and quotients of reals, for the schedules and bounds of several modules. */
module RealArithmetic {
  /** n periods, one after another. */
  function Periods(n: nat, period: real): real {
    if n == 0 then 0.0 else Periods(n - 1, period) + period
  }

  lemma {:induction false} PeriodsIsProduct(n: nat, period: real)
    ensures Periods(n, period) == n as real * period
  {
    if n > 0 {
      PeriodsIsProduct(n - 1, period);
      assert n as real * period == (n - 1) as real * period + period;
    }
  }

  lemma {:induction false} PeriodsGrow(m: nat, n: nat, period: real)
    requires m <= n && period >= 0.0
    ensures Periods(m, period) <= Periods(n, period)
  {
    if m < n {
      PeriodsGrow(m, n - 1, period);
    }
  }

  lemma ProductBelowQuotient(n: nat, r: real, x: real)
    requires r > 0.0 && n as real * r <= x
    ensures n <= (x / r).Floor
  {
    assert (x / r) * r == x;
    assert (x / r - n as real) * r == x - n as real * r;
    NonNegativeFactor(x / r - n as real, r);
  }

  lemma NonNegativeFactor(a: real, r: real)
    requires r > 0.0 && a * r >= 0.0
    ensures a >= 0.0
  {
  }
}
