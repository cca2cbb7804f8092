/** `calculate_credit`: a consumer credit whose one-time commission is taken
    out of the amount up front, with an optional yearly insurance charged
    monthly on top of the repayment. */
module Credit {
  import opened Outcomes
  import opened Enums
  import opened RateMath
  import opened Schemas
  import opened Amortization

  /** `_calculate_monthly_insurance` of `_calculate_annual_insurance`: a
      twelfth of the yearly insurance percentage of the amount, and nothing
      when the percentage is not positive. */
  function MonthlyInsurance(amount: real, insurancePercent: real): (m: real)
    ensures insurancePercent > 0.0 ==> m * 1200.0 == amount * insurancePercent
    ensures insurancePercent <= 0.0 ==> m == 0.0
  {
    if insurancePercent > 0.0 then amount * (insurancePercent / 100.0) / 12.0 else 0.0
  }

  /** The commission of a valid request is a part of the amount, so the
      effective amount that is actually lent stays positive. */
  lemma CommissionWithinAmount(req: CreditRequest)
    requires ValidCreditRequest(req)
    ensures 0.0 <= PercentOf(req.amount, req.commission) < req.amount
    ensures req.amount - PercentOf(req.amount, req.commission) > 0.0
  {
    var c := PercentOf(req.amount, req.commission);
    ScaleMonotone(req.commission, 99.0, req.amount);
    ScaleMonotone(0.0, req.commission, req.amount);
    assert c * 100.0 == req.commission * req.amount;
    assert c * 100.0 <= 99.0 * req.amount;
  }

  /** The credit response for a valid request. The commission is deducted
      from the amount before the payment is computed; the reported monthly
      payment includes the insurance; the total adds the commission once; the
      interest is measured against the full amount; the effective rate is the
      plain sum of the three percentages. The annuity formula divides by zero
      at a zero rate, which is the only failure. */
  function CalculateCredit(req: CreditRequest): (r: Result<CreditResponse>)
    requires ValidCreditRequest(req)
    ensures r.Err? <==> req.paymentType == Annuity && req.rate == 0.0
    ensures r.Err? ==> r.error == DivisionByZero
    ensures r.Ok? ==>
      var commission := r.value.commissionAmount;
      && commission == PercentOf(req.amount, req.commission)
      && FiguresAgree(req, YearsToMonths(req.years), commission,
                      MonthlyPayment(req.amount - commission, MonthlyRate(req.rate), YearsToMonths(req.years), req.paymentType),
                      MonthlyInsurance(req.amount, req.insurance), r.value)
  {
    ValidCreditMonths(req);
    var months := YearsToMonths(req.years);
    var rate := MonthlyRate(req.rate);
    var commission := PercentOf(req.amount, req.commission);
    var effective := req.amount - commission;
    AnnuityDefinedIffPositiveRate(effective, rate, months);
    assert rate > 0.0 <==> req.rate != 0.0;
    CreditFrom(req, months, commission, MonthlyPayment(effective, rate, months, req.paymentType),
               MonthlyInsurance(req.amount, req.insurance), rate)
  }

  /** How the headline figures of a credit response relate to the base
      payment: the reported payment includes the insurance, the total is n
      reported payments plus the one-time commission, the interest is what the
      total adds to the full amount, the effective rate is the sum of the
      three percentages, and there is one schedule entry per month. */
  predicate FiguresAgree(req: CreditRequest, months: nat, commission: real, payment: Result<real>,
                         insurance: real, resp: CreditResponse)
  {
    && payment.Ok?
    && resp.commissionAmount == commission
    && resp.monthlyPayment == payment.value + insurance
    && resp.totalPayment == resp.monthlyPayment * months as real + commission
    && resp.totalInterest == resp.totalPayment - req.amount
    && resp.effectiveRate == req.rate + req.commission + req.insurance
    && |resp.paymentSchedule| == months
  }

  /** The response once the base payment is known, or its error. */
  function CreditFrom(req: CreditRequest, months: nat, commission: real, payment: Result<real>,
                      insurance: real, rate: real): (r: Result<CreditResponse>)
    ensures r.Ok? <==> payment.Ok?
    ensures r.Err? ==> r.error == payment.error
    ensures r.Ok? ==> FiguresAgree(req, months, commission, payment, insurance, r.value)
    ensures r.Ok? ==> r.value.paymentSchedule
                      == CreditSchedule(req.amount - commission, rate, months, req.paymentType, payment.value, insurance, commission)
  {
    match payment
    case Err(e) => Err(e)
    case Ok(p) =>
      Ok(CreditRespond(req, months, commission, p, insurance,
                       CreditSchedule(req.amount - commission, rate, months, req.paymentType, p, insurance, commission)))
  }

  /** The response record: the base total is n months of payment and
      insurance, and the commission is paid once on top. */
  function CreditRespond(req: CreditRequest, months: nat, commission: real, payment: real, insurance: real,
                         schedule: seq<CreditMonth>): (resp: CreditResponse)
    ensures resp.monthlyPayment == payment + insurance
    ensures resp.totalPayment == resp.monthlyPayment * months as real + commission
    ensures resp.totalInterest == resp.totalPayment - req.amount
    ensures resp.effectiveRate == req.rate + req.commission + req.insurance
    ensures resp.commissionAmount == commission && resp.paymentSchedule == schedule
  {
    var total := payment * months as real + insurance * months as real + commission;
    CreditResponse(payment + insurance, total, total - req.amount,
                   req.rate + req.commission + req.insurance, commission, schedule)
  }

  function SumFees(s: seq<CreditMonth>): real
  {
    if |s| == 0 then 0.0 else s[0].fees + SumFees(s[1..])
  }

  function SumCreditPrincipal(s: seq<CreditMonth>): real
  {
    if |s| == 0 then 0.0 else s[0].principal + SumCreditPrincipal(s[1..])
  }

  function SumCreditPayment(s: seq<CreditMonth>): real
  {
    if |s| == 0 then 0.0 else s[0].payment + SumCreditPayment(s[1..])
  }

  /** A run of entries whose fees are all `fee` charges `fee` per entry. */
  lemma {:induction false} SumFeesConstant(s: seq<CreditMonth>, fee: real)
    requires forall i :: 0 <= i < |s| ==> s[i].fees == fee
    ensures SumFees(s) == fee * |s| as real
  {
    if |s| > 0 {
      SumFeesConstant(s[1..], fee);
    }
  }

  /** Entries that carry the principal parts of a mortgage schedule, entry for
      entry, repay the same total. */
  lemma {:induction false} SumCreditPrincipalMirrors(cs: seq<CreditMonth>, ms: seq<MortgageMonth>)
    requires |cs| == |ms|
    requires forall i :: 0 <= i < |cs| ==> cs[i].principal == ms[i].principal
    ensures SumCreditPrincipal(cs) == SumPrincipal(ms)
  {
    if |cs| > 0 {
      SumCreditPrincipalMirrors(cs[1..], ms[1..]);
    }
  }

  /** Entries that pay a mortgage entry plus their fees pay the mortgage
      total plus the total fees. */
  lemma {:induction false} SumCreditPaymentSplits(cs: seq<CreditMonth>, ms: seq<MortgageMonth>)
    requires |cs| == |ms|
    requires forall i :: 0 <= i < |cs| ==> cs[i].payment == ms[i].payment + cs[i].fees
    ensures SumCreditPayment(cs) == SumPayment(ms) + SumFees(cs)
  {
    if |cs| > 0 {
      SumCreditPaymentSplits(cs[1..], ms[1..]);
    }
  }

  /** Over the whole credit schedule the fees add up to n months of
      insurance plus the commission, charged once. */
  lemma CreditFeesTotal(effective: real, rate: real, months: nat, pt: PaymentType, payment: real,
                        insurance: real, commission: real)
    requires months >= 1 && commission >= 0.0
    ensures SumFees(CreditSchedule(effective, rate, months, pt, payment, insurance, commission))
         == insurance * months as real + commission
  {
    var s := CreditSchedule(effective, rate, months, pt, payment, insurance, commission);
    CreditScheduleFees(effective, rate, months, pt, payment, insurance, commission);
    FeesOnceThenConstant(s, insurance, commission);
  }

  /** Entries that all charge `fee`, the first one also `extra`, charge `fee`
      per entry plus `extra` once. */
  lemma FeesOnceThenConstant(s: seq<CreditMonth>, fee: real, extra: real)
    requires |s| >= 1 && s[0].fees == fee + extra
    requires forall i :: 1 <= i < |s| ==> s[i].fees == fee
    ensures SumFees(s) == fee * |s| as real + extra
  {
    var rest := s[1..];
    forall i | 0 <= i < |rest|
      ensures rest[i].fees == fee
    {
      assert rest[i] == s[i + 1];
    }
    SumFeesConstant(rest, fee);
    CountSplit(fee, |s| as real);
  }

  /** The fees column of the credit schedule alone. */
  lemma CreditScheduleFees(effective: real, rate: real, months: nat, pt: PaymentType, payment: real,
                           insurance: real, commission: real)
    ensures var s := CreditSchedule(effective, rate, months, pt, payment, insurance, commission);
            forall i :: 0 <= i < |s| ==>
              s[i].fees == insurance + (if i == 0 && commission > 0.0 then commission else 0.0)
  {
    CreditScheduleMirrorsMortgage(effective, rate, months, pt, payment, insurance, commission);
  }

  lemma CountSplit(x: real, n: real)
    ensures x + x * (n - 1.0) == x * n
  {
  }

  /** The credit schedule repays exactly the effective amount and ends on a
      zero balance, whenever its base payment exists. */
  lemma CreditPrincipalTotal(effective: real, rate: real, months: nat, pt: PaymentType,
                             insurance: real, commission: real)
    requires months >= 1
    requires pt == Annuity ==> rate > 0.0
    ensures MonthlyPayment(effective, rate, months, pt).Ok?
    ensures var s := CreditSchedule(effective, rate, months, pt, MonthlyPayment(effective, rate, months, pt).value,
                                    insurance, commission);
            SumCreditPrincipal(s) == effective && s[months - 1].balance == 0.0
  {
    ScheduleRepaysLoan(effective, rate, months, pt);
    var payment := MonthlyPayment(effective, rate, months, pt).value;
    var s := CreditSchedule(effective, rate, months, pt, payment, insurance, commission);
    var ms := MortgageSchedule(effective, rate, months, pt, payment);
    CreditScheduleMirrorsMortgage(effective, rate, months, pt, payment, insurance, commission);
    SumCreditPrincipalMirrors(s, ms);
  }

  /** With equal base payments, the schedule pays n payments, n months of
      insurance and the commission once. */
  lemma CreditAnnuityTotal(effective: real, rate: real, months: nat, payment: real,
                           insurance: real, commission: real, reported: real)
    requires months >= 1 && commission >= 0.0 && reported == payment + insurance
    ensures SumCreditPayment(CreditSchedule(effective, rate, months, Annuity, payment, insurance, commission))
         == reported * months as real + commission
  {
    var s := CreditSchedule(effective, rate, months, Annuity, payment, insurance, commission);
    var ms := MortgageSchedule(effective, rate, months, Annuity, payment);
    CreditScheduleMirrorsMortgage(effective, rate, months, Annuity, payment, insurance, commission);
    SumCreditPaymentSplits(s, ms);
    SumPaymentConstant(ms, payment);
    CreditFeesTotal(effective, rate, months, Annuity, payment, insurance, commission);
    Distribute(payment, insurance, months as real);
  }

  lemma Distribute(a: real, b: real, n: real)
    ensures a * n + b * n == (a + b) * n
  {
  }

  /** What a computed credit is made of: the commission, the base payment on
      the amount left after it, the insurance, and the schedule built from
      them. */
  lemma CreditParts(req: CreditRequest)
    requires ValidCreditRequest(req)
    requires CalculateCredit(req).Ok?
    ensures var months := YearsToMonths(req.years);
            var commission := PercentOf(req.amount, req.commission);
            var effective := req.amount - commission;
            var insurance := MonthlyInsurance(req.amount, req.insurance);
            var payment := MonthlyPayment(effective, MonthlyRate(req.rate), months, req.paymentType);
            var resp := CalculateCredit(req).value;
            && 3 <= months
            && 0.0 <= commission < req.amount
            && payment.Ok?
            && resp.commissionAmount == commission
            && resp.monthlyPayment == payment.value + insurance
            && resp.totalPayment == resp.monthlyPayment * months as real + commission
            && resp.paymentSchedule
               == CreditSchedule(effective, MonthlyRate(req.rate), months, req.paymentType, payment.value, insurance, commission)
  {
    ValidCreditMonths(req);
    CommissionWithinAmount(req);
  }
}
