/** Rate and term conversions, and the integer powers every formula of the
    calculators is built from. */
module RateMath {

  /** `x ** n` for a non-negative integer exponent. */
  function Pow(x: real, n: nat): real
  {
    if n == 0 then 1.0 else x * Pow(x, n - 1)
  }

  /** 1 + x + ... + x^(n-1), in the Horner form that month-by-month recurrences unroll to. */
  function GeomSum(x: real, n: nat): real
  {
    if n == 0 then 0.0 else x * GeomSum(x, n - 1) + 1.0
  }

  function Max(a: real, b: real): (m: real)
    ensures m >= a && m >= b
    ensures m == a || m == b
  {
    if a >= b then a else b
  }

  /** Closed form of the geometric sum: (x - 1)·(1 + ... + x^(n-1)) = x^n - 1. */
  lemma {:induction false} GeomSumClosedForm(x: real, n: nat)
    ensures GeomSum(x, n) * (x - 1.0) == Pow(x, n) - 1.0
  {
    if n > 0 {
      GeomSumClosedForm(x, n - 1);
      calc {
        GeomSum(x, n) * (x - 1.0);
        (x * GeomSum(x, n - 1) + 1.0) * (x - 1.0);
        x * (GeomSum(x, n - 1) * (x - 1.0)) + (x - 1.0);
        x * (Pow(x, n - 1) - 1.0) + (x - 1.0);
      }
    }
  }

  lemma {:induction false} PowOfOne(n: nat)
    ensures Pow(1.0, n) == 1.0
  {
    if n > 0 { PowOfOne(n - 1); }
  }

  lemma {:induction false} PowPositive(x: real, n: nat)
    requires x > 0.0
    ensures Pow(x, n) > 0.0
  {
    if n > 0 { PowPositive(x, n - 1); }
  }

  lemma {:induction false} PowAtMostOne(x: real, n: nat)
    requires 0.0 <= x <= 1.0
    ensures 0.0 <= Pow(x, n) <= 1.0
  {
    if n > 0 {
      PowAtMostOne(x, n - 1);
      ScaledDown(x, Pow(x, n - 1));
    }
  }

  /** Scaling a non-negative amount by a factor in [0, 1] keeps it between
      zero and itself. */
  lemma ScaledDown(f: real, a: real)
    requires 0.0 <= f <= 1.0 && a >= 0.0
    ensures 0.0 <= f * a <= a && a * f == f * a
  {
    ProductNonNegative(f, a);
    ProductNonNegative(1.0 - f, a);
    assert (1.0 - f) * a == a - f * a;
  }

  lemma ProductNonNegative(a: real, b: real)
    requires a >= 0.0 && b >= 0.0
    ensures a * b >= 0.0
  {
  }

  /** A base above one raised to a positive power stays above one. */
  lemma {:induction false} PowAboveOne(x: real, n: nat)
    requires x > 1.0 && n >= 1
    ensures Pow(x, n) > 1.0
  {
    if n > 1 { PowAboveOne(x, n - 1); }
  }

  /** For a base above one, 1 + x + ... + x^(n−1) stays below n·x^n: every
      term is below x^n. */
  lemma {:induction false} GeomSumBelowCountTimesPow(x: real, n: nat)
    requires x > 1.0 && n >= 1
    ensures GeomSum(x, n) < n as real * Pow(x, n)
  {
    if n > 1 {
      GeomSumBelowCountTimesPow(x, n - 1);
      PowAboveOne(x, n);
      var g := GeomSum(x, n - 1);
      var p := Pow(x, n - 1);
      assert x * g < x * ((n - 1) as real * p);
    }
  }

  /** A balance that starts at `b0` and, at the end of each of `n` periods,
      earns `rate` on itself and then receives the deposit `c`. */
  function PeriodicDeposits(b0: real, c: real, rate: real, n: nat): real
  {
    if n == 0 then b0 else PeriodicDeposits(b0, c, rate, n - 1) * (1.0 + rate) + c
  }

  /** The future-value formula: b0·q^n + c·(1 + q + ... + q^(n−1)). */
  lemma {:induction false} DepositsClosedForm(b0: real, c: real, rate: real, n: nat)
    ensures PeriodicDeposits(b0, c, rate, n) == b0 * Pow(1.0 + rate, n) + c * GeomSum(1.0 + rate, n)
  {
    if n > 0 {
      DepositsClosedForm(b0, c, rate, n - 1);
      DepositsStepAlgebra(b0, c, 1.0 + rate, Pow(1.0 + rate, n - 1), GeomSum(1.0 + rate, n - 1));
    }
  }

  lemma DepositsStepAlgebra(b0: real, c: real, q: real, p: real, g: real)
    ensures (b0 * p + c * g) * q + c == b0 * (q * p) + c * (q * g + 1.0)
  {
  }

  /** With no negative rate, deposit or start, the balance is at least what
      was paid in. */
  lemma {:induction false} DepositsAtLeastPaidIn(b0: real, c: real, rate: real, n: nat)
    requires b0 >= 0.0 && c >= 0.0 && rate >= 0.0
    ensures PeriodicDeposits(b0, c, rate, n) >= b0 + c * n as real
  {
    if n > 0 {
      DepositsAtLeastPaidIn(b0, c, rate, n - 1);
      var b := PeriodicDeposits(b0, c, rate, n - 1);
      assert b * (1.0 + rate) >= b by {
        assert b >= 0.0;
        assert b * rate >= 0.0;
      }
    }
  }

  /** `_calculate_monthly_rate`: a percentage per year as a fraction per month. */
  function MonthlyRate(annualPercent: real): (r: real)
    ensures r * 1200.0 == annualPercent
  {
    annualPercent / 100.0 / 12.0
  }

  /** `_calculate_annual_rate`: a percentage per year as a fraction per year. */
  function AnnualRate(annualPercent: real): (r: real)
    ensures r * 100.0 == annualPercent
  {
    annualPercent / 100.0
  }

  /** A percentage of an amount, as `_calculate_commission_amount`,
      `_calculate_annual_insurance` and `_calculate_tax` compute it. */
  function PercentOf(amount: real, percent: real): (p: real)
    ensures p * 100.0 == amount * percent
  {
    amount * (percent / 100.0)
  }

  /** `_years_to_months`: Python's `int(years * 12)`, which truncates toward zero. */
  function YearsToMonths(years: real): (m: int)
    ensures years >= 0.0 ==> 0 <= m && m as real <= years * 12.0 < m as real + 1.0
    ensures years < 0.0 ==> m <= 0 && m as real - 1.0 < years * 12.0 <= m as real
  {
    var t := years * 12.0;
    if t >= 0.0 then t.Floor else -((-t).Floor)
  }

  /** Whole years convert without loss. */
  lemma WholeYearsToMonths(years: int)
    ensures YearsToMonths(years as real) == 12 * years
  {
  }
}
