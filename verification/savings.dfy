/** `calculate_savings`: a deposit with an initial sum and monthly
    top-ups, either compounded a number of times per year or, without
    capitalization, earning simple interest; then taxed on the interest and
    discounted for inflation. */
module Savings {
  import opened Outcomes
  import opened Enums
  import opened RateMath
  import opened Schemas

  /** `_determine_periods_per_year`: how often interest is added to the
      balance; no capitalization has no periods. */
  function PeriodsPerYear(cap: CapitalizationType): (p: Option<nat>)
    ensures p.None? <==> cap == NoCapitalization
    ensures p.Some? ==> p.value >= 1
    ensures cap == Daily ==> p == Some(365)
    ensures cap == Monthly ==> p == Some(12)
    ensures cap == Quarterly ==> p == Some(4)
    ensures cap == Yearly ==> p == Some(1)
  {
    match cap
    case Daily => Some(365)
    case Monthly => Some(12)
    case Quarterly => Some(4)
    case Yearly => Some(1)
    case NoCapitalization => None
  }

  /** The deposit per capitalization period: the monthly top-up itself for
      monthly periods, otherwise a year's top-ups spread evenly over the
      periods of the year. */
  function DepositPerPeriod(monthly: real, periodsPerYear: nat): (c: real)
    requires periodsPerYear >= 1
    ensures c * periodsPerYear as real == monthly * 12.0
  {
    if periodsPerYear == 12 then monthly else monthly * 12.0 / periodsPerYear as real
  }

  lemma QuotientSign(c: real, p: real, m: real)
    requires p > 0.0 && c * p == m
    ensures c > 0.0 <==> m > 0.0
    ensures c >= 0.0 <==> m >= 0.0
  {
  }

  /** The value after `periods` periods at `rate` per period: the initial sum
      compounded, plus the future value of a positive per-period deposit.
      That future value divides by the rate, so a positive deposit at a zero
      rate fails; with no positive deposit there is no annuity part. */
  function FutureValue(initial: real, deposit: real, rate: real, periods: nat): (r: Result<real>)
    ensures r.Err? <==> deposit > 0.0 && rate == 0.0
    ensures r.Err? ==> r.error == DivisionByZero
  {
    var growth := Pow(1.0 + rate, periods);
    if deposit > 0.0 && rate == 0.0 then Err(DivisionByZero)
    else if deposit > 0.0 then Ok(initial * growth + deposit * (growth - 1.0) / rate)
    else Ok(initial * growth)
  }

  /** The future-value formula is the closed form of the period-by-period
      balance: each period the balance earns the rate and then receives the
      deposit. */
  lemma FutureValueReplaysDeposits(initial: real, deposit: real, rate: real, periods: nat)
    requires deposit >= 0.0 && FutureValue(initial, deposit, rate, periods).Ok?
    ensures FutureValue(initial, deposit, rate, periods).value == PeriodicDeposits(initial, deposit, rate, periods)
  {
    var growth := Pow(1.0 + rate, periods);
    if deposit > 0.0 {
      AnnuityPartReplaysDeposits(initial, deposit, rate, periods, growth, FutureValue(initial, deposit, rate, periods).value);
    } else {
      DepositsClosedForm(initial, deposit, rate, periods);
    }
  }

  /** `_calculate_compound_savings`: the future value over `years` years of
      `periodsPerYear` periods, at the annual rate split evenly over the
      periods, with a year's monthly top-ups spread evenly over the periods.
      It fails exactly for top-ups at a zero rate. */
  function CompoundSavings(initial: real, monthly: real, years: nat, annualRate: real, periodsPerYear: nat): (r: Result<real>)
    requires periodsPerYear >= 1
    ensures r.Err? <==> annualRate == 0.0 && monthly > 0.0
    ensures r.Err? ==> r.error == DivisionByZero
  {
    var deposit := DepositPerPeriod(monthly, periodsPerYear);
    QuotientSign(deposit, periodsPerYear as real, monthly * 12.0);
    FutureValue(initial, deposit, annualRate / periodsPerYear as real, years * periodsPerYear)
  }

  /** Compound savings are the period-by-period balance of depositing the
      per-period share of the top-ups. */
  lemma CompoundSavingsReplaysDeposits(initial: real, monthly: real, years: nat, annualRate: real, periodsPerYear: nat)
    requires periodsPerYear >= 1 && monthly >= 0.0
    requires CompoundSavings(initial, monthly, years, annualRate, periodsPerYear).Ok?
    ensures CompoundSavings(initial, monthly, years, annualRate, periodsPerYear).value
         == PeriodicDeposits(initial, DepositPerPeriod(monthly, periodsPerYear),
                             annualRate / periodsPerYear as real, years * periodsPerYear)
  {
    var deposit := DepositPerPeriod(monthly, periodsPerYear);
    QuotientSign(deposit, periodsPerYear as real, monthly * 12.0);
    FutureValueReplaysDeposits(initial, deposit, annualRate / periodsPerYear as real, years * periodsPerYear);
  }

  /** b0·q^n + c·(q^n − 1)/r is the balance of n periods of deposits `c`. */
  lemma AnnuityPartReplaysDeposits(initial: real, deposit: real, rate: real, periods: nat, growth: real, value: real)
    requires rate != 0.0 && growth == Pow(1.0 + rate, periods)
    requires value == initial * growth + deposit * (growth - 1.0) / rate
    ensures value == PeriodicDeposits(initial, deposit, rate, periods)
  {
    var g := GeomSum(1.0 + rate, periods);
    DepositsClosedForm(initial, deposit, rate, periods);
    GeomSumClosedForm(1.0 + rate, periods);
    AnnuityPartAlgebra(deposit, rate, growth, g);
    SumOfParts(value, initial * growth, deposit * (growth - 1.0) / rate, deposit * g);
  }

  lemma SumOfParts(v: real, a: real, b: real, c: real)
    requires v == a + b && b == c
    ensures v == a + c
  {
  }

  /** c·(f − 1)/r = c·g when g·r = f − 1 and r ≠ 0. */
  lemma AnnuityPartAlgebra(c: real, rate: real, f: real, g: real)
    requires rate != 0.0
    requires g * ((1.0 + rate) - 1.0) == f - 1.0
    ensures c * (f - 1.0) / rate == c * g
  {
    assert g * rate == f - 1.0;
    assert c * (f - 1.0) == (c * g) * rate;
  }

  /** `_calculate_simple_savings`: the sum paid in, plus simple interest on
      the initial sum for the whole term, plus `monthly · rate · years / 2`
      for the top-ups. */
  function SimpleSavings(initial: real, monthly: real, years: nat, annualRate: real, months: nat): (s: real)
    ensures s - TotalContributions(initial, monthly, months) == annualRate * years as real * (initial + monthly / 2.0)
    ensures annualRate == 0.0 ==> s == TotalContributions(initial, monthly, months)
  {
    SimpleInterestParts(initial, monthly, annualRate, years as real);
    initial + monthly * months as real + initial * annualRate * years as real + monthly * annualRate * years as real / 2.0
  }

  lemma SimpleInterestParts(initial: real, monthly: real, rate: real, years: real)
    ensures initial * rate * years + monthly * rate * years / 2.0 == rate * years * (initial + monthly / 2.0)
  {
    assert initial * rate * years == rate * years * initial;
    assert monthly * rate * years / 2.0 == rate * years * (monthly / 2.0);
  }

  /** The final amount before tax: compounded when there is a
      capitalization, simple otherwise. */
  function FinalAmount(req: SavingsRequest): (r: Result<real>)
    requires ValidSavingsRequest(req)
    ensures r.Err? <==> req.capitalization != NoCapitalization && req.rate == 0.0 && req.monthly > 0.0
    ensures r.Err? ==> r.error == DivisionByZero
  {
    var annualRate := AnnualRate(req.rate);
    match PeriodsPerYear(req.capitalization)
    case Some(p) => CompoundSavings(req.initial, req.monthly, req.years, annualRate, p)
    case None => Ok(SimpleSavings(req.initial, req.monthly, req.years, annualRate, YearsToMonths(req.years as real)))
  }

  /** What a request's final amount is: with a capitalization, the
      period-by-period balance of the per-period deposits at the annual rate
      split over that capitalization's periods; without one, the simple
      interest on twelve months a year. */
  lemma FinalAmountValue(req: SavingsRequest)
    requires ValidSavingsRequest(req) && FinalAmount(req).Ok?
    ensures req.capitalization == NoCapitalization ==>
              FinalAmount(req).value == SimpleSavings(req.initial, req.monthly, req.years, AnnualRate(req.rate), 12 * req.years)
    ensures req.capitalization != NoCapitalization ==>
              var p := PeriodsPerYear(req.capitalization).value;
              FinalAmount(req).value
                == PeriodicDeposits(req.initial, DepositPerPeriod(req.monthly, p), AnnualRate(req.rate) / p as real, req.years * p)
  {
    WholeYearsToMonths(req.years);
    match PeriodsPerYear(req.capitalization)
    case None =>
    case Some(p) =>
      CompoundSavingsReplaysDeposits(req.initial, req.monthly, req.years, AnnualRate(req.rate), p);
  }

  /** At a zero rate the final amount is exactly what was paid in, whatever
      the capitalization. */
  lemma FinalAmountWithoutRate(req: SavingsRequest)
    requires ValidSavingsRequest(req) && req.rate == 0.0 && FinalAmount(req).Ok?
    ensures FinalAmount(req).value == TotalContributions(req.initial, req.monthly, 12 * req.years)
  {
    WholeYearsToMonths(req.years);
    match PeriodsPerYear(req.capitalization)
    case None =>
    case Some(p) =>
      PowOfOne(req.years * p);
  }

  /** `_calculate_total_contributions`: the initial sum and every monthly
      top-up. */
  function TotalContributions(initial: real, monthly: real, months: nat): (t: real)
    ensures monthly >= 0.0 ==> t >= initial
    ensures months == 0 ==> t == initial
  {
    initial + monthly * months as real
  }

  /** `_adjust_for_inflation`: with positive inflation the amount loses the
      inflation percentage every year; otherwise it is unchanged.
      Inflation of at most 100 percent never raises a non-negative amount and
      never makes it negative. */
  function AdjustForInflation(amount: real, inflationPercent: real, years: nat): (a: real)
    ensures inflationPercent <= 0.0 ==> a == amount
    ensures amount >= 0.0 && inflationPercent <= 100.0 ==> 0.0 <= a <= amount
  {
    if inflationPercent > 0.0 then
      InflationFactorBounds(amount, inflationPercent, years);
      amount * Pow(1.0 - inflationPercent / 100.0, years)
    else amount
  }

  lemma InflationFactorBounds(amount: real, inflationPercent: real, years: nat)
    ensures amount >= 0.0 && 0.0 < inflationPercent <= 100.0 ==>
              0.0 <= amount * Pow(1.0 - inflationPercent / 100.0, years) <= amount
  {
    if amount >= 0.0 && 0.0 < inflationPercent <= 100.0 {
      PowAtMostOne(1.0 - inflationPercent / 100.0, years);
      ScaledDown(Pow(1.0 - inflationPercent / 100.0, years), amount);
    }
  }

  /** Positive inflation takes its percentage off the real amount once a
      year: no year leaves the amount as it is, and each further year
      multiplies it by one minus the inflation rate. */
  lemma InflationCompoundsYearly(amount: real, inflationPercent: real, years: nat)
    ensures AdjustForInflation(amount, inflationPercent, 0) == amount
    ensures inflationPercent > 0.0 ==>
              AdjustForInflation(amount, inflationPercent, years + 1)
                == AdjustForInflation(amount, inflationPercent, years) * (1.0 - inflationPercent / 100.0)
  {
    var x := 1.0 - inflationPercent / 100.0;
    assert Pow(x, years + 1) == x * Pow(x, years);
    assert amount * (x * Pow(x, years)) == (amount * Pow(x, years)) * x;
  }

  // ---------------------------------------------------------- yearly table

  /** The amount the yearly table reaches after `y` years: each year adds the
      year's top-ups, interest on the amount so far, and half a year's
      interest on the year's top-ups. */
  function YearlyAmount(initial: real, monthly: real, annualRate: real, y: nat): real
  {
    if y == 0 then initial
    else
      var prev := YearlyAmount(initial, monthly, annualRate, y - 1);
      YearlyRow(prev, monthly, annualRate, y).amount
  }

  /** The row for `year`, starting from the amount `current`. */
  function YearlyRow(current: real, monthly: real, annualRate: real, year: int): (row: SavingsYear)
    ensures row.contributions == monthly * 12.0
    ensures row.amount == current + row.contributions + row.interest
    ensures annualRate == 0.0 ==> row.interest == 0.0
    ensures current >= 0.0 && monthly >= 0.0 && annualRate >= 0.0 ==> row.interest >= 0.0
  {
    var contributions := monthly * 12.0;
    var interest := current * annualRate + contributions * annualRate / 2.0;
    InterestNonNegative(current, contributions, annualRate);
    SavingsYear(year, current + contributions + interest, contributions, interest)
  }

  /** The table from year `y + 1` on, carrying the running amount. */
  function YearlyRowsFrom(initial: real, monthly: real, annualRate: real, years: nat, y: nat, current: real): (rows: seq<SavingsYear>)
    requires y <= years
    requires current == YearlyAmount(initial, monthly, annualRate, y)
    ensures |rows| == years - y
    ensures forall j :: 0 <= j < |rows| ==>
      rows[j] == YearlyRow(YearlyAmount(initial, monthly, annualRate, y + j), monthly, annualRate, y + j + 1)
    decreases years - y
  {
    if y == years then []
    else
      var row := YearlyRow(current, monthly, annualRate, y + 1);
      [row] + YearlyRowsFrom(initial, monthly, annualRate, years, y + 1, row.amount)
  }

  /** `_generate_yearly_savings_breakdown`: one row per year, whatever the
      capitalization. */
  function YearlyBreakdown(req: SavingsRequest): (rows: seq<SavingsYear>)
    requires ValidSavingsRequest(req)
    ensures |rows| == req.years
    ensures forall i :: 0 <= i < |rows| ==>
      rows[i] == YearlyRow(YearlyAmount(req.initial, req.monthly, AnnualRate(req.rate), i), req.monthly, AnnualRate(req.rate), i + 1)
    ensures forall i :: 0 <= i < |rows| ==>
      && rows[i].year == i + 1
      && rows[i].contributions == req.monthly * 12.0
      && rows[i].amount == YearlyAmount(req.initial, req.monthly, AnnualRate(req.rate), i + 1)
  {
    YearlyRowsFrom(req.initial, req.monthly, AnnualRate(req.rate), req.years, 0, req.initial)
  }

  /** With no negative start, top-up or rate, the yearly amounts never fall
      and always cover what was paid in. */
  lemma {:induction false} YearlyAmountGrows(initial: real, monthly: real, annualRate: real, y: nat)
    requires initial >= 0.0 && monthly >= 0.0 && annualRate >= 0.0
    ensures YearlyAmount(initial, monthly, annualRate, y) >= initial + monthly * 12.0 * y as real
    ensures y > 0 ==> YearlyAmount(initial, monthly, annualRate, y) >= YearlyAmount(initial, monthly, annualRate, y - 1)
  {
    if y > 0 {
      YearlyAmountGrows(initial, monthly, annualRate, y - 1);
      var prev := YearlyAmount(initial, monthly, annualRate, y - 1);
      assert YearlyAmount(initial, monthly, annualRate, y) == YearlyRow(prev, monthly, annualRate, y).amount;
      YearRowGrows(prev, monthly, annualRate, initial, y);
    }
  }

  /** A year's row, started at or above the paid-in line of the years
      before, ends at or above the paid-in line one year on. */
  lemma YearRowGrows(prev: real, monthly: real, annualRate: real, initial: real, y: nat)
    requires initial >= 0.0 && monthly >= 0.0 && annualRate >= 0.0 && y > 0
    requires prev >= initial + monthly * 12.0 * (y - 1) as real
    ensures YearlyRow(prev, monthly, annualRate, y).amount >= initial + monthly * 12.0 * y as real
    ensures YearlyRow(prev, monthly, annualRate, y).amount >= prev
  {
    var row := YearlyRow(prev, monthly, annualRate, y);
    assert prev >= 0.0 by {
      ProductNonNegative(monthly * 12.0, (y - 1) as real);
    }
    assert row.interest >= 0.0;
    YearStepGrows(prev, monthly * 12.0, row.interest, initial, (y - 1) as real);
  }

  lemma InterestNonNegative(current: real, contributions: real, annualRate: real)
    ensures current >= 0.0 && contributions >= 0.0 && annualRate >= 0.0 ==>
              current * annualRate + contributions * annualRate / 2.0 >= 0.0
  {
    if current >= 0.0 && contributions >= 0.0 && annualRate >= 0.0 {
      assert current * annualRate >= 0.0;
      assert contributions * annualRate >= 0.0;
    }
  }

  /** One more year of `c` paid in and non-negative interest keeps the amount
      above the paid-in line and above the previous amount. */
  lemma YearStepGrows(prev: real, c: real, interest: real, initial: real, n: real)
    requires c >= 0.0 && interest >= 0.0 && prev >= initial + c * n
    ensures prev + c + interest >= initial + c * (n + 1.0)
    ensures prev + c + interest >= prev
  {
  }

  /** Without interest the yearly amount is exactly what was paid in. */
  lemma {:induction false} YearlyAmountWithoutRate(initial: real, monthly: real, y: nat)
    ensures YearlyAmount(initial, monthly, 0.0, y) == TotalContributions(initial, monthly, 12 * y)
  {
    if y > 0 {
      YearlyAmountWithoutRate(initial, monthly, y - 1);
      assert (12 * y) as real == (12 * (y - 1)) as real + 12.0;
    }
  }

  // -------------------------------------------------------------- response

  /** How the figures of a savings response follow from the final amount:
      the contributions are everything paid in, the interest is what the
      final amount adds to them, the tax is its percentage of that interest,
      both final amounts are net of tax, and the real one is discounted for
      inflation first. */
  predicate SavingsFiguresAgree(req: SavingsRequest, final: real, resp: SavingsResponse)
    requires ValidSavingsRequest(req)
  {
    && resp.totalContributions == TotalContributions(req.initial, req.monthly, 12 * req.years)
    && resp.totalInterest == final - resp.totalContributions
    && resp.totalTax == PercentOf(resp.totalInterest, req.taxRate)
    && resp.finalAmountNominal == final - resp.totalTax
    && resp.finalAmountReal == AdjustForInflation(final, req.inflation, req.years) - resp.totalTax
    && resp.yearlyBreakdown == YearlyBreakdown(req)
  }

  /** The savings response for a valid request, or the division by zero of a
      compounded deposit with top-ups at a zero rate. A response never
      reports negative interest or tax, its real amount never exceeds its
      nominal one, and at a zero rate nothing is earned: no interest, no tax,
      and the nominal amount is the contributions. */
  function CalculateSavings(req: SavingsRequest): (r: Result<SavingsResponse>)
    requires ValidSavingsRequest(req)
    ensures r.Err? <==> req.capitalization != NoCapitalization && req.rate == 0.0 && req.monthly > 0.0
    ensures r.Err? ==> r.error == DivisionByZero
    ensures r.Ok? ==> SavingsFiguresAgree(req, FinalAmount(req).value, r.value)
    ensures r.Ok? ==> && r.value.totalInterest >= 0.0
                      && r.value.totalTax >= 0.0
                      && r.value.finalAmountReal <= r.value.finalAmountNominal
    ensures r.Ok? && req.rate == 0.0 ==>
              && r.value.totalInterest == 0.0
              && r.value.totalTax == 0.0
              && r.value.finalAmountNominal == r.value.totalContributions
  {
    match FinalAmount(req)
    case Err(e) => Err(e)
    case Ok(final) =>
      WholeYearsToMonths(req.years);
      var contributions := TotalContributions(req.initial, req.monthly, YearsToMonths(req.years as real));
      var interest := final - contributions;
      var tax := PercentOf(interest, req.taxRate);
      var realAmount := AdjustForInflation(final, req.inflation, req.years);
      var resp := SavingsResponse(final - tax, realAmount - tax, contributions, interest, tax, YearlyBreakdown(req));
      FiguresBounded(req, final, resp);
      Ok(resp)
  }

  /** The figures that follow from a final amount that covers the
      contributions. */
  lemma FiguresBounded(req: SavingsRequest, final: real, resp: SavingsResponse)
    requires ValidSavingsRequest(req) && FinalAmount(req) == Ok(final)
    requires SavingsFiguresAgree(req, final, resp)
    ensures resp.totalInterest >= 0.0 && resp.totalTax >= 0.0 && resp.finalAmountReal <= resp.finalAmountNominal
    ensures req.rate == 0.0 ==>
              && resp.totalInterest == 0.0
              && resp.totalTax == 0.0
              && resp.finalAmountNominal == resp.totalContributions
  {
    FinalAmountCoversContributions(req);
    ProductNonNegative(resp.totalInterest, req.taxRate);
    if req.rate == 0.0 {
      FinalAmountWithoutRate(req);
    }
  }

  /** The final amount never falls short of what was paid in, so the
      interest and the tax of a valid request are never negative. Compounded
      deposits pay in a year's top-ups every year whatever the period. */
  lemma FinalAmountCoversContributions(req: SavingsRequest)
    requires ValidSavingsRequest(req)
    requires FinalAmount(req).Ok?
    ensures FinalAmount(req).value >= TotalContributions(req.initial, req.monthly, 12 * req.years)
  {
    WholeYearsToMonths(req.years);
    var annualRate := AnnualRate(req.rate);
    match PeriodsPerYear(req.capitalization)
    case None =>
      SimpleCoversContributions(req.initial, req.monthly, req.years, annualRate);
    case Some(p) =>
      CompoundCoversContributions(req.initial, req.monthly, req.years, annualRate, p);
  }

  lemma SimpleCoversContributions(initial: real, monthly: real, years: nat, annualRate: real)
    requires initial >= 0.0 && monthly >= 0.0 && annualRate >= 0.0
    ensures SimpleSavings(initial, monthly, years, annualRate, 12 * years) >= TotalContributions(initial, monthly, 12 * years)
  {
    assert initial * annualRate * years as real >= 0.0;
    assert monthly * annualRate * years as real >= 0.0;
  }

  lemma CompoundCoversContributions(initial: real, monthly: real, years: nat, annualRate: real, p: nat)
    requires initial >= 0.0 && monthly >= 0.0 && annualRate >= 0.0 && p >= 1
    requires CompoundSavings(initial, monthly, years, annualRate, p).Ok?
    ensures CompoundSavings(initial, monthly, years, annualRate, p).value >= TotalContributions(initial, monthly, 12 * years)
  {
    CompoundCoversDeposits(initial, monthly, years, annualRate, p);
    DepositsPayInTopUps(monthly, years, p);
  }

  /** Compound growth at a non-negative rate keeps at least the deposits made. */
  lemma CompoundCoversDeposits(initial: real, monthly: real, years: nat, annualRate: real, p: nat)
    requires initial >= 0.0 && monthly >= 0.0 && annualRate >= 0.0 && p >= 1
    requires CompoundSavings(initial, monthly, years, annualRate, p).Ok?
    ensures CompoundSavings(initial, monthly, years, annualRate, p).value
         >= initial + DepositPerPeriod(monthly, p) * (years * p) as real
  {
    var rate := annualRate / p as real;
    var deposit := DepositPerPeriod(monthly, p);
    var grown := PeriodicDeposits(initial, deposit, rate, years * p);
    assert CompoundSavings(initial, monthly, years, annualRate, p).value == grown by {
      CompoundSavingsReplaysDeposits(initial, monthly, years, annualRate, p);
    }
    QuotientSign(deposit, p as real, monthly * 12.0);
    DepositsAtLeastPaidIn(initial, deposit, rate, years * p);
  }

  /** Over `years` years the per-period deposits pay in twelve top-ups a year. */
  lemma DepositsPayInTopUps(monthly: real, years: nat, p: nat)
    requires p >= 1
    ensures DepositPerPeriod(monthly, p) * (years * p) as real == monthly * (12 * years) as real
  {
    PaidInPerYear(DepositPerPeriod(monthly, p), p as real, monthly, years as real);
    assert (years * p) as real == years as real * p as real;
    assert (12 * years) as real == 12.0 * years as real;
  }

  /** c per period over years·p periods is 12·monthly per year when c·p = 12·monthly. */
  lemma PaidInPerYear(c: real, p: real, monthly: real, years: real)
    requires c * p == monthly * 12.0
    ensures c * (years * p) == monthly * (12.0 * years)
  {
    assert c * (years * p) == (c * p) * years;
  }
}
