/** `calculate_goal`: either the monthly contribution that reaches a target
    sum, or the sum a given contribution reaches, with a month-by-month plan
    of the savings. */
module Goal {
  import opened Outcomes
  import opened RateMath
  import opened Schemas

  /** `(q^n − 1) / r` with `q = 1 + r`: the future value of n unit deposits,
      which is the geometric sum 1 + q + ... + q^(n−1). */
  function AnnuityFactor(rate: real, months: nat): (af: real)
    requires rate != 0.0
    ensures af == GeomSum(1.0 + rate, months)
  {
    GeomSumClosedForm(1.0 + rate, months);
    ExactQuotient(GeomSum(1.0 + rate, months), rate, Pow(1.0 + rate, months) - 1.0);
    (Pow(1.0 + rate, months) - 1.0) / rate
  }

  lemma ExactQuotient(q: real, d: real, n: real)
    requires d != 0.0 && q * ((1.0 + d) - 1.0) == n
    ensures n / d == q
  {
    assert q * d == n;
  }

  /** `_calculate_expected_final_amount`: the current savings compounded
      monthly plus the future value of the monthly contributions. The
      annuity factor divides by the monthly rate, so a zero rate fails. The
      figure is the balance of a deposit that earns the monthly rate and then
      receives the contribution at the end of every month. */
  function ExpectedFinal(current: real, contribution: real, annualRate: real, months: nat): (r: Result<real>)
    ensures r.Err? <==> annualRate == 0.0
    ensures r.Err? ==> r.error == DivisionByZero
    ensures r.Ok? ==> r.value == PeriodicDeposits(current, contribution, annualRate / 12.0, months)
  {
    var rate := annualRate / 12.0;
    if rate == 0.0 then Err(DivisionByZero)
    else
      DepositsClosedForm(current, contribution, rate, months);
      Ok(current * Pow(1.0 + rate, months) + contribution * AnnuityFactor(rate, months))
  }

  /** `_calculate_required_monthly_contribution`. At a positive rate: what is
      left of the goal after the current savings have grown, spread over the
      annuity factor, and never below zero. Otherwise the plain difference
      spread over the months, which is not clamped. Both divide by something
      that is zero exactly when there are no months. */
  function RequiredMonthly(goal: real, current: real, annualRate: real, months: nat): (r: Result<real>)
    ensures r.Err? <==> months == 0
    ensures r.Err? ==> r.error == DivisionByZero
    ensures r.Ok? && annualRate > 0.0 ==> r.value >= 0.0
  {
    if annualRate > 0.0 then
      var rate := annualRate / 12.0;
      var fv := Pow(1.0 + rate, months);
      var af := (fv - 1.0) / rate;
      FactorVanishesIffNoMonths(rate, months);
      if af == 0.0 then Err(DivisionByZero)
      else Ok(Max((goal - current * fv) / af, 0.0))
    else if months == 0 then Err(DivisionByZero)
    else Ok((goal - current) / months as real)
  }

  /** At a positive rate the annuity factor is zero exactly when there are
      no months. */
  lemma FactorVanishesIffNoMonths(rate: real, months: nat)
    requires rate > 0.0
    ensures (Pow(1.0 + rate, months) - 1.0) / rate == 0.0 <==> months == 0
  {
    if months >= 1 {
      PowAboveOne(1.0 + rate, months);
    }
  }

  /** At a positive rate the required contribution is the one whose expected
      final amount is exactly the goal, unless the current savings alone
      already grow to the goal, in which case it is zero. */
  lemma RequiredMonthlyReachesGoal(goal: real, current: real, annualRate: real, months: nat)
    requires annualRate > 0.0 && months >= 1
    ensures RequiredMonthly(goal, current, annualRate, months).Ok?
    ensures var m := RequiredMonthly(goal, current, annualRate, months).value;
            && (m > 0.0 ==> ExpectedFinal(current, m, annualRate, months).value == goal)
            && (m == 0.0 <==> ExpectedFinal(current, 0.0, annualRate, months).value >= goal)
  {
    var rate := annualRate / 12.0;
    var fv := Pow(1.0 + rate, months);
    var af := AnnuityFactor(rate, months);
    PowAboveOne(1.0 + rate, months);
    assert af > 0.0 by {
      assert af * rate == fv - 1.0;
    }
    var x := (goal - current * fv) / af;
    QuotientRoundTrip(goal - current * fv, af, x);
    var m := RequiredMonthly(goal, current, annualRate, months).value;
    assert m == Max(x, 0.0);
    assert ExpectedFinal(current, m, annualRate, months).value == current * fv + m * af;
    assert ExpectedFinal(current, 0.0, annualRate, months).value == current * fv + 0.0 * af;
  }

  /** x = d / a with a > 0: x·a = d, and x has the sign of d. */
  lemma QuotientRoundTrip(d: real, a: real, x: real)
    requires a > 0.0 && x == d / a
    ensures x * a == d
    ensures x > 0.0 <==> d > 0.0
  {
  }

  // -------------------------------------------------------- monthly plan

  /** The plan's balance after `k` months: each month the contribution is
      added first and the month's interest is then earned on the result. */
  function GoalBalance(current: real, contribution: real, rate: real, k: nat): real
  {
    if k == 0 then current
    else
      var funded := GoalBalance(current, contribution, rate, k - 1) + contribution;
      funded + funded * rate
  }

  /** The plan's row for `month` (from 1): the balance at its end, everything
      contributed so far, and the interest the month earned. */
  function GoalRow(current: real, contribution: real, rate: real, month: nat): GoalMonth
    requires month >= 1
  {
    var funded := GoalBalance(current, contribution, rate, month - 1) + contribution;
    GoalMonth(month, GoalBalance(current, contribution, rate, month), contribution * month as real, funded * rate)
  }

  /** The plan from month `k + 1` on, carrying the running balance and the
      running total of contributions. */
  function GoalRowsFrom(current: real, contribution: real, rate: real, months: nat, k: nat,
                        balance: real, contributed: real): (rows: seq<GoalMonth>)
    requires k <= months
    requires balance == GoalBalance(current, contribution, rate, k)
    requires contributed == contribution * k as real
    ensures |rows| == months - k
    ensures forall j :: 0 <= j < |rows| ==> rows[j] == GoalRow(current, contribution, rate, k + j + 1)
    decreases months - k
  {
    if k == months then []
    else
      var funded := balance + contribution;
      var interest := funded * rate;
      var paid := contributed + contribution;
      CountStep(contribution, k as real);
      [GoalMonth(k + 1, funded + interest, paid, interest)]
        + GoalRowsFrom(current, contribution, rate, months, k + 1, funded + interest, paid)
  }

  lemma CountStep(c: real, k: real)
    ensures c * k + c == c * (k + 1.0)
  {
  }

  /** `_generate_goal_monthly_breakdown`: one row per month, numbered from 1,
      each the closed form of the running loop. */
  function GoalBreakdown(current: real, contribution: real, annualRate: real, months: nat): (rows: seq<GoalMonth>)
    ensures |rows| == months
    ensures forall i :: 0 <= i < months ==> rows[i] == GoalRow(current, contribution, annualRate / 12.0, i + 1)
  {
    GoalRowsFrom(current, contribution, annualRate / 12.0, months, 0, current, 0.0)
  }

  /** The plan adds each contribution before the month's interest, so it is
      the end-of-month deposit recurrence with the contribution grown by one
      month: an annuity due. */
  lemma {:induction false} GoalBalanceIsAnnuityDue(current: real, contribution: real, rate: real, k: nat)
    ensures GoalBalance(current, contribution, rate, k)
         == PeriodicDeposits(current, contribution * (1.0 + rate), rate, k)
  {
    if k > 0 {
      GoalBalanceIsAnnuityDue(current, contribution, rate, k - 1);
      var b := GoalBalance(current, contribution, rate, k - 1);
      DueStepAlgebra(b, contribution, rate);
    }
  }

  lemma DueStepAlgebra(b: real, c: real, rate: real)
    ensures (b + c) + (b + c) * rate == b * (1.0 + rate) + c * (1.0 + rate)
  {
  }

  /** So at a non-zero rate the plan's last balance is the expected final
      amount of a contribution that has already earned one month of
      interest: the breakdown credits every contribution a month earlier
      than the headline figure does. */
  lemma PlanIsGrownExpectedFinal(current: real, contribution: real, annualRate: real, months: nat)
    requires annualRate != 0.0
    ensures ExpectedFinal(current, contribution * (1.0 + annualRate / 12.0), annualRate, months).Ok?
    ensures GoalBalance(current, contribution, annualRate / 12.0, months)
         == ExpectedFinal(current, contribution * (1.0 + annualRate / 12.0), annualRate, months).value
  {
    GoalBalanceIsAnnuityDue(current, contribution, annualRate / 12.0, months);
    var e := ExpectedFinal(current, contribution * (1.0 + annualRate / 12.0), annualRate, months);
    assert e.value == PeriodicDeposits(current, contribution * (1.0 + annualRate / 12.0), annualRate / 12.0, months);
  }

  /** At a zero rate the plan's balance is the savings plus every
      contribution, and nothing is earned. */
  lemma {:induction false} ZeroRatePlan(current: real, contribution: real, k: nat)
    ensures GoalBalance(current, contribution, 0.0, k) == current + contribution * k as real
  {
    if k > 0 {
      ZeroRatePlan(current, contribution, k - 1);
      CountStep(contribution, (k - 1) as real);
    }
  }

  /** At a zero rate the required contribution makes the plan end exactly on
      the goal. */
  lemma ZeroRateRequiredReachesGoal(goal: real, current: real, months: nat)
    requires months >= 1
    ensures RequiredMonthly(goal, current, 0.0, months).Ok?
    ensures GoalBalance(current, RequiredMonthly(goal, current, 0.0, months).value, 0.0, months) == goal
  {
    var m := RequiredMonthly(goal, current, 0.0, months).value;
    ZeroRatePlan(current, m, months);
    assert m * months as real == goal - current;
  }

  // ------------------------------------------------------------ response

  /** The goal response for a valid request. Without a contribution the
      response carries the required contribution and a plan built on it;
      with one it carries the expected final amount and a plan built on the
      given contribution. The only failure is a given contribution at a zero
      rate, where the annuity factor divides by zero. */
  function CalculateGoal(req: GoalRequest): (r: Result<GoalResponse>)
    requires ValidGoalRequest(req)
    ensures r.Err? <==> req.monthlyContribution.Some? && req.expectedRate == 0.0
    ensures r.Err? ==> r.error == DivisionByZero
    ensures r.Ok? ==> && (r.value.requiredMonthly.Some? <==> req.monthlyContribution.None?)
                      && (r.value.expectedFinalAmount.Some? <==> req.monthlyContribution.Some?)
                      && |r.value.monthlyBreakdown| == 12 * req.years
    ensures r.Ok? && req.monthlyContribution.None? && req.expectedRate > 0.0 ==> r.value.requiredMonthly.value >= 0.0
  {
    var annualRate := AnnualRate(req.expectedRate);
    WholeYearsToMonths(req.years);
    var months: nat := YearsToMonths(req.years as real);
    match req.monthlyContribution
    case None =>
      var required := RequiredMonthly(req.goalAmount, req.currentSavings, annualRate, months).value;
      Ok(GoalResponse(Some(required), None, GoalBreakdown(req.currentSavings, required, annualRate, months)))
    case Some(c) =>
      match ExpectedFinal(req.currentSavings, c, annualRate, months)
      case Err(e) => Err(e)
      case Ok(v) => Ok(GoalResponse(None, Some(v), GoalBreakdown(req.currentSavings, c, annualRate, months)))
  }

  /** What a computed goal response is made of: the required contribution on
      the goal, the savings, the yearly rate and 12·years months, or the
      expected final amount of the given contribution; and the plan built on
      whichever contribution applies. */
  lemma GoalParts(req: GoalRequest)
    requires ValidGoalRequest(req)
    requires CalculateGoal(req).Ok?
    ensures var resp := CalculateGoal(req).value;
            var rate := AnnualRate(req.expectedRate);
            var months := 12 * req.years;
            && (req.monthlyContribution.None? ==>
                  && resp.requiredMonthly == Some(RequiredMonthly(req.goalAmount, req.currentSavings, rate, months).value)
                  && resp.monthlyBreakdown
                     == GoalBreakdown(req.currentSavings, resp.requiredMonthly.value, rate, months))
            && (req.monthlyContribution.Some? ==>
                  && resp.expectedFinalAmount
                     == Some(ExpectedFinal(req.currentSavings, req.monthlyContribution.value, rate, months).value)
                  && resp.monthlyBreakdown
                     == GoalBreakdown(req.currentSavings, req.monthlyContribution.value, rate, months))
  {
    WholeYearsToMonths(req.years);
  }
}
