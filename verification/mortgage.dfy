/** `calculate_mortgage`: the loan is the price less the down payment, repaid
    over whole years of monthly payments at a yearly percentage rate. */
module Mortgage {
  import opened Enums
  import opened RateMath
  import opened Schemas
  import opened Amortization

  /** The mortgage response for a request that passed validation. The payment
      of a valid request always exists, because validation keeps the rate
      above zero and the term at least a year. */
  function CalculateMortgage(req: MortgageRequest): (resp: MortgageResponse)
    requires ValidMortgageRequest(req)
    ensures resp.loanAmount == req.price - req.downPayment > 0.0
    ensures |resp.paymentSchedule| == 12 * req.years
    ensures resp.totalPayment == resp.monthlyPayment * (12 * req.years) as real
    ensures resp.totalInterest > 0.0
    ensures resp == MortgageFor(req.price - req.downPayment, MonthlyRate(req.rate), 12 * req.years, req.paymentType)
  {
    ValidMortgageTerms(req);
    // the term in months is int(years * 12), which is exact for whole years
    WholeYearsToMonths(req.years);
    MortgageFor(req.price - req.downPayment, MonthlyRate(req.rate), 12 * req.years, req.paymentType)
  }

  /** The response for a positive loan over `months` months at a positive
      monthly rate: the reported payment is the convention's monthly payment,
      the total is n of them, and the interest — what the total adds to the
      loan — is positive. */
  function MortgageFor(loan: real, rate: real, months: nat, pt: PaymentType): (resp: MortgageResponse)
    requires loan > 0.0 && rate > 0.0 && months >= 1
    ensures MonthlyPayment(loan, rate, months, pt).Ok?
    ensures resp.monthlyPayment == MonthlyPayment(loan, rate, months, pt).value
    ensures resp.loanAmount == loan
    ensures resp.totalPayment == resp.monthlyPayment * months as real
    ensures resp.totalInterest == resp.totalPayment - loan > 0.0
    ensures resp.paymentSchedule == MortgageSchedule(loan, rate, months, pt, resp.monthlyPayment)
  {
    PaymentsExceedLoan(loan, rate, months, pt);
    var payment := MonthlyPayment(loan, rate, months, pt).value;
    Respond(loan, payment, months, MortgageSchedule(loan, rate, months, pt, payment))
  }

  /** The schedule of the response numbers the months 1..n, repays exactly
      the loan and ends on a zero balance. Annuity: every entry pays the
      reported payment. Differentiated: the first entry pays it and later
      ones never pay more. */
  lemma MortgageScheduleRepays(loan: real, rate: real, months: nat, pt: PaymentType)
    requires loan > 0.0 && rate > 0.0 && months >= 1
    ensures var resp := MortgageFor(loan, rate, months, pt);
            var s := resp.paymentSchedule;
            && |s| == months
            && (forall i :: 0 <= i < months ==> s[i].month == i + 1)
            && s[months - 1].balance == 0.0
            && SumPrincipal(s) == loan
            && (pt == Annuity ==> forall i :: 0 <= i < months ==> s[i].payment == resp.monthlyPayment)
            && (pt == Differentiated ==>
                  && s[0].payment == resp.monthlyPayment
                  && forall i, j :: 0 <= i <= j < months ==> s[j].payment <= s[i].payment)
  {
    var resp := MortgageFor(loan, rate, months, pt);
    ScheduleRepaysLoan(loan, rate, months, pt);
    if pt == Differentiated {
      DifferentiatedPaymentsNonIncreasing(loan, rate, months, resp.monthlyPayment);
    }
  }

  /** The response record: n equal reported payments make the total, and the
      interest is what the total adds to the loan. */
  function Respond(loan: real, payment: real, months: nat, schedule: seq<MortgageMonth>): (resp: MortgageResponse)
    ensures resp.loanAmount == loan && resp.monthlyPayment == payment && resp.paymentSchedule == schedule
    ensures resp.totalPayment == payment * months as real
    ensures resp.totalInterest == resp.totalPayment - loan
  {
    var total := payment * months as real;
    MortgageResponse(loan, payment, total, total - loan, schedule)
  }
}
