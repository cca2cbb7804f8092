/** Request and response records of the service, and the declared field
    ranges of the requests as validity predicates. Only the numeric
    constraints are kept; parsing, defaults and messages are not modelled. */
module Schemas {
  import opened Outcomes
  import opened Enums
  import opened RateMath

  // ---------------------------------------------------------------- requests

  datatype MortgageRequest = MortgageRequest(
    price: real, downPayment: real, years: int, rate: real, paymentType: PaymentType)

  datatype SavingsRequest = SavingsRequest(
    initial: real, monthly: real, years: int, rate: real,
    capitalization: CapitalizationType, taxRate: real, inflation: real)

  /** The credit term is in years but may be fractional. */
  datatype CreditRequest = CreditRequest(
    amount: real, years: real, rate: real, paymentType: PaymentType,
    commission: real, insurance: real)

  datatype GoalRequest = GoalRequest(
    goalAmount: real, currentSavings: real, years: int, expectedRate: real,
    monthlyContribution: Option<real>)

  datatype MonteCarloRequest = MonteCarloRequest(
    initial: real, monthly: real, years: int, avgReturn: real, risk: real,
    simulations: int, goalAmount: Option<real>)

  /** The payload of one comparison scenario: one of the four product requests. */
  datatype ScenarioData =
    | MortgageData(mortgage: MortgageRequest)
    | CreditData(credit: CreditRequest)
    | SavingsData(savings: SavingsRequest)
    | GoalData(goal: GoalRequest)

  datatype ComparisonScenario = ComparisonScenario(name: string, data: ScenarioData)

  datatype CompareRequest = CompareRequest(comparisonType: ComparisonType, scenarios: seq<ComparisonScenario>)

  // --------------------------------------------------------------- responses

  datatype MortgageMonth = MortgageMonth(
    month: int, payment: real, principal: real, interest: real, balance: real)

  datatype MortgageResponse = MortgageResponse(
    loanAmount: real, monthlyPayment: real, totalPayment: real, totalInterest: real,
    paymentSchedule: seq<MortgageMonth>)

  datatype CreditMonth = CreditMonth(
    month: int, payment: real, principal: real, interest: real, fees: real, balance: real)

  datatype CreditResponse = CreditResponse(
    monthlyPayment: real, totalPayment: real, totalInterest: real, effectiveRate: real,
    commissionAmount: real, paymentSchedule: seq<CreditMonth>)

  datatype SavingsYear = SavingsYear(year: int, amount: real, contributions: real, interest: real)

  datatype SavingsResponse = SavingsResponse(
    finalAmountNominal: real, finalAmountReal: real, totalContributions: real,
    totalInterest: real, totalTax: real, yearlyBreakdown: seq<SavingsYear>)

  datatype GoalMonth = GoalMonth(month: int, amount: real, contributions: real, interest: real)

  /** Both branches of the goal calculation as one record: exactly one of the
      two optional figures is present. */
  datatype GoalResponse = GoalResponse(
    requiredMonthly: Option<real>, expectedFinalAmount: Option<real>,
    monthlyBreakdown: seq<GoalMonth>)

  // ----------------------------------------------------------- field ranges

  predicate MortgageFieldsInRange(r: MortgageRequest)
  {
    && r.price > 0.0
    && r.downPayment >= 0.0
    && 1 <= r.years <= 50
    && 0.1 <= r.rate <= 99.0
  }

  /** The field ranges plus the `down_payment_less_than_price` validator. */
  predicate ValidMortgageRequest(r: MortgageRequest)
  {
    MortgageFieldsInRange(r) && r.downPayment < r.price
  }

  predicate ValidSavingsRequest(r: SavingsRequest)
  {
    && r.initial >= 0.0
    && r.monthly >= 0.0
    && 1 <= r.years <= 100
    && 0.0 <= r.rate <= 50.0
    && 0.0 <= r.taxRate <= 99.0
    && 0.0 <= r.inflation <= 99.0
  }

  predicate ValidCreditRequest(r: CreditRequest)
  {
    && r.amount > 0.0
    && 0.25 <= r.years <= 30.0
    && 0.0 <= r.rate <= 99.0
    && 0.0 <= r.commission <= 99.0
    && 0.0 <= r.insurance <= 99.0
  }

  predicate ValidGoalRequest(r: GoalRequest)
  {
    && r.goalAmount > 0.0
    && r.currentSavings >= 0.0
    && 1 <= r.years <= 100
    && 0.0 <= r.expectedRate <= 99.0
    && (r.monthlyContribution.Some? ==> r.monthlyContribution.value >= 0.0)
  }

  predicate ValidMonteCarloRequest(r: MonteCarloRequest)
  {
    && r.initial >= 0.0
    && r.monthly >= 0.0
    && 1 <= r.years <= 50
    && -50.0 <= r.avgReturn <= 99.0
    && 0.0 <= r.risk <= 99.0
    && 10 <= r.simulations <= 10000
    && (r.goalAmount.Some? ==> r.goalAmount.value > 0.0)
  }

  predicate ValidScenarioData(d: ScenarioData)
  {
    match d
    case MortgageData(q) => ValidMortgageRequest(q)
    case CreditData(q) => ValidCreditRequest(q)
    case SavingsData(q) => ValidSavingsRequest(q)
    case GoalData(q) => ValidGoalRequest(q)
  }

  predicate ValidCompareRequest(r: CompareRequest)
  {
    && 2 <= |r.scenarios| <= 10
    && forall i :: 0 <= i < |r.scenarios| ==> ValidScenarioData(r.scenarios[i].data)
  }

  // ------------------------------------------------------------- validation

  /** Field constraints are checked first; the model validator runs only on a
      request whose fields are in range and rejects a down payment that is not
      below the price. */
  function ValidateMortgageRequest(r: MortgageRequest): (v: Result<MortgageRequest>)
    ensures v.Ok? <==> ValidMortgageRequest(r)
    ensures v.Ok? ==> v.value == r
    ensures v == Err(DownPaymentNotLessThanPrice) <==> MortgageFieldsInRange(r) && r.downPayment >= r.price
  {
    if !(r.price > 0.0) then Err(FieldOutOfRange("price"))
    else if !(r.downPayment >= 0.0) then Err(FieldOutOfRange("down_payment"))
    else if !(1 <= r.years <= 50) then Err(FieldOutOfRange("years"))
    else if !(0.1 <= r.rate <= 99.0) then Err(FieldOutOfRange("rate"))
    else if r.downPayment >= r.price then Err(DownPaymentNotLessThanPrice)
    else Ok(r)
  }

  /** A valid mortgage borrows a positive amount over 12 to 600 months at a
      positive monthly rate. */
  lemma ValidMortgageTerms(r: MortgageRequest)
    requires ValidMortgageRequest(r)
    ensures r.price - r.downPayment > 0.0
    ensures 12 <= YearsToMonths(r.years as real) <= 600
    ensures MonthlyRate(r.rate) > 0.0
  {
  }

  /** A credit term of at least a quarter year truncates to at least 3 months,
      and 30 years to at most 360. */
  lemma ValidCreditMonths(r: CreditRequest)
    requires ValidCreditRequest(r)
    ensures 3 <= YearsToMonths(r.years) <= 360
  {
    var m := YearsToMonths(r.years);
    assert m as real > r.years * 12.0 - 1.0 >= 2.0;
  }
}
