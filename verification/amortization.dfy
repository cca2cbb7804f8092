/** The repayment arithmetic shared by mortgages and consumer credit: the
    annuity and differentiated payment formulas, the month-by-month schedule
    replayed on the declining balance, and the closed forms that schedule
    obeys. */
module Amortization {
  import opened Outcomes
  import opened Enums
  import opened RateMath
  import opened Schemas

  /** P·r·q^n / (q^n − 1) with q = 1 + r. The denominator vanishes when
      q^n = 1, where the float division raises. */
  function AnnuityPayment(principal: real, rate: real, months: nat): (r: Result<real>)
    ensures r.Err? <==> Pow(1.0 + rate, months) == 1.0
    ensures r.Err? ==> r.error == DivisionByZero
    ensures r.Ok? ==> r.value * (Pow(1.0 + rate, months) - 1.0) == principal * rate * Pow(1.0 + rate, months)
  {
    var f := Pow(1.0 + rate, months);
    if f - 1.0 == 0.0 then Err(DivisionByZero)
    else
      var a := principal * (rate * f / (f - 1.0));
      assert a * (f - 1.0) == principal * rate * f by {
        assert rate * f / (f - 1.0) * (f - 1.0) == rate * f;
      }
      Ok(a)
  }

  /** For a non-negative rate and at least one month, the annuity formula
      fails exactly when the rate is zero. */
  lemma AnnuityDefinedIffPositiveRate(principal: real, rate: real, months: nat)
    requires rate >= 0.0 && months >= 1
    ensures AnnuityPayment(principal, rate, months).Ok? <==> rate > 0.0
  {
    if rate > 0.0 {
      PowAboveOne(1.0 + rate, months);
    } else {
      PowOfOne(months);
    }
  }

  /** The monthly payment under either convention (the mortgage and the
      credit helpers have the same body). Differentiated: a fixed principal
      part P/n plus the first month's interest P·r. */
  function MonthlyPayment(principal: real, rate: real, months: nat, pt: PaymentType): (r: Result<real>)
    ensures pt == Annuity ==> r == AnnuityPayment(principal, rate, months)
    ensures pt == Differentiated ==> (r.Err? <==> months == 0)
    ensures pt == Differentiated && r.Ok? ==> (r.value - principal * rate) * months as real == principal
    ensures r.Err? ==> r.error == DivisionByZero
  {
    match pt
    case Annuity => AnnuityPayment(principal, rate, months)
    case Differentiated =>
      if months == 0 then Err(DivisionByZero)
      else Ok(principal / months as real + principal * rate)
  }

  /** How one month's payment splits, before the balance is reduced. */
  datatype Installment = Installment(payment: real, principal: real, interest: real)

  /** One month of a schedule on the outstanding `balance`. Annuity: the
      payment is fixed and the principal is what the interest leaves of it.
      Differentiated: the principal is fixed at loan/months and the payment is
      principal plus interest. */
  function InstallmentAt(pt: PaymentType, loan: real, rate: real, months: nat, annuityPayment: real, balance: real): (i: Installment)
    requires months >= 1
    ensures i.payment == i.principal + i.interest
    ensures pt == Annuity ==> i.payment == annuityPayment
    ensures pt == Differentiated ==> i.principal == loan / months as real
  {
    var interest := balance * rate;
    match pt
    case Annuity => Installment(annuityPayment, annuityPayment - interest, interest)
    case Differentiated =>
      var principal := loan / months as real;
      Installment(principal + interest, principal, interest)
  }

  /** The balance left once a month has been paid on `balance`. */
  function NextBalance(pt: PaymentType, loan: real, rate: real, months: nat, payment: real, balance: real): real
    requires months >= 1
  {
    balance - InstallmentAt(pt, loan, rate, months, payment, balance).principal
  }

  /** The unclamped balance after `k` months of the schedule. */
  function BalanceAfter(pt: PaymentType, loan: real, rate: real, months: nat, payment: real, k: nat): real
    requires months >= 1
  {
    if k == 0 then loan
    else NextBalance(pt, loan, rate, months, payment, BalanceAfter(pt, loan, rate, months, payment, k - 1))
  }

  /** The schedule entry for `month`, charged on `balance`; the balance it
      reports is the one left afterwards, clamped at zero. */
  function EntryOn(pt: PaymentType, loan: real, rate: real, months: nat, payment: real, month: int, balance: real): MortgageMonth
    requires months >= 1
  {
    var inst := InstallmentAt(pt, loan, rate, months, payment, balance);
    MortgageMonth(month, inst.payment, inst.principal, inst.interest,
                  Max(NextBalance(pt, loan, rate, months, payment, balance), 0.0))
  }

  /** Entry `i` (0-based) of the mortgage schedule, read off the balance
      after `i` months. */
  function MortgageMonthAt(pt: PaymentType, loan: real, rate: real, months: nat, payment: real, i: nat): (m: MortgageMonth)
    requires months >= 1
    ensures m.month == i + 1
    ensures m.payment == m.principal + m.interest
    ensures m.balance == Max(BalanceAfter(pt, loan, rate, months, payment, i + 1), 0.0)
    ensures pt == Annuity ==> m.payment == payment
    ensures pt == Differentiated ==> m.principal == loan / months as real
  {
    EntryOn(pt, loan, rate, months, payment, i + 1, BalanceAfter(pt, loan, rate, months, payment, i))
  }

  /** The loop from month k+1 on, carrying the running balance. */
  function MortgageScheduleFrom(pt: PaymentType, loan: real, rate: real, months: nat, payment: real, k: nat, balance: real): (s: seq<MortgageMonth>)
    requires k <= months
    requires k < months ==> balance == BalanceAfter(pt, loan, rate, months, payment, k)
    ensures |s| == months - k
    ensures forall j :: 0 <= j < |s| ==> s[j] == MortgageMonthAt(pt, loan, rate, months, payment, k + j)
    decreases months - k
  {
    if k == months then []
    else
      [EntryOn(pt, loan, rate, months, payment, k + 1, balance)]
        + MortgageScheduleFrom(pt, loan, rate, months, payment, k + 1, NextBalance(pt, loan, rate, months, payment, balance))
  }

  /** `_generate_mortgage_schedule`: one entry per month 1..months, each
      splitting its payment into principal and interest on the balance left by
      the months before it. */
  function MortgageSchedule(loan: real, rate: real, months: nat, pt: PaymentType, payment: real): (s: seq<MortgageMonth>)
    ensures |s| == months
    ensures forall i :: 0 <= i < |s| ==> s[i] == MortgageMonthAt(pt, loan, rate, months, payment, i)
    ensures forall i :: 0 <= i < |s| ==> s[i].month == i + 1 && s[i].payment == s[i].principal + s[i].interest
    ensures forall i :: 0 <= i < |s| ==> s[i].balance == Max(BalanceAfter(pt, loan, rate, months, payment, i + 1), 0.0)
    ensures pt == Annuity ==> forall i :: 0 <= i < |s| ==> s[i].payment == payment
    ensures pt == Differentiated ==> forall i :: 0 <= i < |s| ==> s[i].principal == loan / months as real
  {
    MortgageScheduleFrom(pt, loan, rate, months, payment, 0, loan)
  }

  function SumPrincipal(s: seq<MortgageMonth>): real
  {
    if |s| == 0 then 0.0 else s[0].principal + SumPrincipal(s[1..])
  }

  function SumPayment(s: seq<MortgageMonth>): real
  {
    if |s| == 0 then 0.0 else s[0].payment + SumPayment(s[1..])
  }

  /** Equal payments add up to their count times the payment. */
  lemma {:induction false} SumPaymentConstant(s: seq<MortgageMonth>, payment: real)
    requires forall i :: 0 <= i < |s| ==> s[i].payment == payment
    ensures SumPayment(s) == payment * |s| as real
  {
    if |s| > 0 {
      SumPaymentConstant(s[1..], payment);
    }
  }

  // ------------------------------------------------------------ closed forms

  /** The annuity balance after k months in closed form: P·q^k − A·(1 + q + ... + q^(k−1)). */
  function AnnuityClosedForm(loan: real, rate: real, payment: real, k: nat): real
  {
    loan * Pow(1.0 + rate, k) - payment * GeomSum(1.0 + rate, k)
  }

  /** Under the annuity convention the balance obeys b ← b·q − A, so after k
      months it equals the closed form. */
  lemma {:induction false} AnnuityBalanceClosedForm(loan: real, rate: real, months: nat, payment: real, k: nat)
    requires months >= 1
    ensures BalanceAfter(Annuity, loan, rate, months, payment, k) == AnnuityClosedForm(loan, rate, payment, k)
  {
    if k > 0 {
      AnnuityBalanceClosedForm(loan, rate, months, payment, k - 1);
      AnnuityMonth(loan, rate, months, payment, BalanceAfter(Annuity, loan, rate, months, payment, k - 1));
      AnnuityClosedFormStep(loan, rate, payment, k, BalanceAfter(Annuity, loan, rate, months, payment, k - 1));
    }
  }

  /** The closed form after k − 1 months, advanced by one annuity month, is the closed form after k. */
  lemma AnnuityClosedFormStep(loan: real, rate: real, payment: real, k: nat, b: real)
    requires k >= 1
    requires b == AnnuityClosedForm(loan, rate, payment, k - 1)
    ensures b - (payment - b * rate) == AnnuityClosedForm(loan, rate, payment, k)
  {
    AnnuityStepAlgebra(b, rate, payment, loan, Pow(1.0 + rate, k - 1), GeomSum(1.0 + rate, k - 1));
  }

  /** One month of the annuity loop: the balance drops by the payment less the interest. */
  lemma AnnuityMonth(loan: real, rate: real, months: nat, payment: real, b: real)
    requires months >= 1
    ensures NextBalance(Annuity, loan, rate, months, payment, b) == b - (payment - b * rate)
  {
  }

  /** One annuity month, b − (A − b·r), keeps the closed form P·q^k − A·G_k. */
  lemma AnnuityStepAlgebra(b: real, rate: real, payment: real, loan: real, p: real, g: real)
    requires b == loan * p - payment * g
    ensures b - (payment - b * rate) == loan * ((1.0 + rate) * p) - payment * ((1.0 + rate) * g + 1.0)
  {
  }

  /** With the annuity payment for a positive rate, the replayed balance is
      exactly zero after the last month. */
  lemma AnnuityScheduleClosesAtZero(loan: real, rate: real, months: nat)
    requires rate > 0.0 && months >= 1
    ensures AnnuityPayment(loan, rate, months).Ok?
    ensures BalanceAfter(Annuity, loan, rate, months, AnnuityPayment(loan, rate, months).value, months) == 0.0
  {
    AnnuityDefinedIffPositiveRate(loan, rate, months);
    var q := 1.0 + rate;
    var r := AnnuityPayment(loan, rate, months);
    var a := r.value;
    var f := Pow(q, months);
    var g := GeomSum(q, months);
    assert a * (f - 1.0) == loan * rate * f;
    GeomSumClosedForm(q, months);
    AnnuityZeroAlgebra(a, g, f, rate, loan);
    AnnuityBalanceClosedForm(loan, rate, months, a, months);
  }

  /** From g·r = f − 1 and A·(f − 1) = P·r·f with r ≠ 0 follows P·f − A·g = 0. */
  lemma AnnuityZeroAlgebra(a: real, g: real, f: real, rate: real, loan: real)
    requires rate != 0.0
    requires g * ((1.0 + rate) - 1.0) == f - 1.0
    requires a * (f - 1.0) == loan * rate * f
    ensures loan * f - a * g == 0.0
  {
    assert g * rate == f - 1.0;
    assert (a * g) * rate == (loan * f) * rate;
  }

  /** Borrowing costs something: at a positive rate, n payments of either
      kind add up to more than the loan. */
  lemma PaymentsExceedLoan(loan: real, rate: real, months: nat, pt: PaymentType)
    requires loan > 0.0 && rate > 0.0 && months >= 1
    ensures MonthlyPayment(loan, rate, months, pt).Ok?
    ensures MonthlyPayment(loan, rate, months, pt).value * months as real > loan
  {
    AnnuityDefinedIffPositiveRate(loan, rate, months);
    if pt == Annuity {
      AnnuityExceedsLoan(loan, rate, months);
    } else {
      var d := MonthlyPayment(loan, rate, months, pt).value;
      DifferentiatedExceedsAlgebra(d, loan, rate, months as real);
    }
  }

  lemma AnnuityExceedsLoan(loan: real, rate: real, months: nat)
    requires loan > 0.0 && rate > 0.0 && months >= 1
    ensures AnnuityPayment(loan, rate, months).Ok?
    ensures AnnuityPayment(loan, rate, months).value * months as real > loan
  {
    AnnuityDefinedIffPositiveRate(loan, rate, months);
    var r := AnnuityPayment(loan, rate, months);
    AnnuityEquationExceeds(r.value, loan, rate, months);
  }

  /** Any A with A·(q^n − 1) = P·r·q^n pays more than P over n months. */
  lemma AnnuityEquationExceeds(a: real, loan: real, rate: real, months: nat)
    requires loan > 0.0 && rate > 0.0 && months >= 1
    requires a * (Pow(1.0 + rate, months) - 1.0) == loan * rate * Pow(1.0 + rate, months)
    ensures a * months as real > loan
  {
    var q := 1.0 + rate;
    GeomSumClosedForm(q, months);
    GeomSumBelowCountTimesPow(q, months);
    PowAboveOne(q, months);
    AnnuityExceedsAlgebra(a, GeomSum(q, months), Pow(q, months), rate, loan, months as real);
  }

  /** From A·g = P·f (the annuity equation divided by r) and g < n·f follows A·n > P. */
  lemma AnnuityExceedsAlgebra(a: real, g: real, f: real, rate: real, loan: real, n: real)
    requires rate > 0.0 && loan > 0.0 && f > 1.0 && n > 0.0
    requires g * ((1.0 + rate) - 1.0) == f - 1.0
    requires a * (f - 1.0) == loan * rate * f
    requires g < n * f
    ensures a * n > loan
  {
    assert (a * g) * rate == (loan * f) * rate;
    assert a * g == loan * f;
    assert g > 0.0;
    assert a > 0.0;
    assert a * g < a * (n * f);
    assert loan * f < (a * n) * f;
  }

  /** From (D − P·r)·n = P with P, r, n positive follows D·n > P. */
  lemma DifferentiatedExceedsAlgebra(d: real, loan: real, rate: real, n: real)
    requires loan > 0.0 && rate > 0.0 && n > 0.0
    requires (d - loan * rate) * n == loan
    ensures d * n > loan
  {
    assert d * n == loan + loan * rate * n;
    assert loan * rate * n > 0.0 by { assert loan * rate > 0.0; }
  }

  /** One month of the differentiated loop: the balance drops by loan/n. */
  lemma DifferentiatedMonth(loan: real, rate: real, months: nat, payment: real, b: real)
    requires months >= 1
    ensures NextBalance(Differentiated, loan, rate, months, payment, b) == b - loan / months as real
  {
  }

  /** Under the differentiated convention the balance falls by loan/n each
      month: after k months it is loan − k·loan/n. */
  lemma {:induction false} DifferentiatedBalanceClosedForm(loan: real, rate: real, months: nat, payment: real, k: nat)
    requires months >= 1
    ensures BalanceAfter(Differentiated, loan, rate, months, payment, k)
         == loan - k as real * (loan / months as real)
  {
    if k > 0 {
      DifferentiatedBalanceClosedForm(loan, rate, months, payment, k - 1);
      DifferentiatedMonth(loan, rate, months, payment, BalanceAfter(Differentiated, loan, rate, months, payment, k - 1));
    }
  }

  /** The principal parts of any schedule suffix telescope to the balance
      drop over it. */
  lemma {:induction false} PrincipalsTelescope(pt: PaymentType, loan: real, rate: real, months: nat, payment: real, k: nat)
    requires 1 <= months && k <= months
    ensures SumPrincipal(MortgageScheduleFrom(pt, loan, rate, months, payment, k, BalanceAfter(pt, loan, rate, months, payment, k)))
         == BalanceAfter(pt, loan, rate, months, payment, k) - BalanceAfter(pt, loan, rate, months, payment, months)
    decreases months - k
  {
    var b := BalanceAfter(pt, loan, rate, months, payment, k);
    var s := MortgageScheduleFrom(pt, loan, rate, months, payment, k, b);
    if k < months {
      var next := BalanceAfter(pt, loan, rate, months, payment, k + 1);
      PrincipalsTelescope(pt, loan, rate, months, payment, k + 1);
      assert s[1..] == MortgageScheduleFrom(pt, loan, rate, months, payment, k + 1, next);
      assert s[0].principal == b - next;
    }
  }

  /** Both schedules repay the loan: the principal parts sum to it, and the
      final balance is exactly zero (annuity with its own payment and a
      positive rate; differentiated with any rate). */
  lemma ScheduleRepaysLoan(loan: real, rate: real, months: nat, pt: PaymentType)
    requires months >= 1
    requires pt == Annuity ==> rate > 0.0
    ensures MonthlyPayment(loan, rate, months, pt).Ok?
    ensures var payment := MonthlyPayment(loan, rate, months, pt).value;
            var s := MortgageSchedule(loan, rate, months, pt, payment);
            && BalanceAfter(pt, loan, rate, months, payment, months) == 0.0
            && s[months - 1].balance == 0.0
            && SumPrincipal(s) == loan
  {
    var payment;
    if pt == Annuity {
      AnnuityScheduleClosesAtZero(loan, rate, months);
      payment := AnnuityPayment(loan, rate, months).value;
    } else {
      payment := MonthlyPayment(loan, rate, months, pt).value;
      DifferentiatedBalanceClosedForm(loan, rate, months, payment, months);
      assert months as real * (loan / months as real) == loan;
    }
    PrincipalsTelescope(pt, loan, rate, months, payment, 0);
  }

  /** Interest of entry i is charged on the balance left after i months. */
  lemma {:induction false} MonthInterest(pt: PaymentType, loan: real, rate: real, months: nat, payment: real, i: nat)
    requires months >= 1
    ensures MortgageMonthAt(pt, loan, rate, months, payment, i).interest
         == BalanceAfter(pt, loan, rate, months, payment, i) * rate
  {
    MonthIsEntry(pt, loan, rate, months, payment, i);
    EntryInterest(pt, loan, rate, months, payment, i);
  }

  lemma {:induction false} MonthIsEntry(pt: PaymentType, loan: real, rate: real, months: nat, payment: real, i: nat)
    requires months >= 1
    ensures MortgageMonthAt(pt, loan, rate, months, payment, i)
         == EntryOn(pt, loan, rate, months, payment, i + 1, BalanceAfter(pt, loan, rate, months, payment, i))
  {
  }

  lemma {:induction false} EntryInterest(pt: PaymentType, loan: real, rate: real, months: nat, payment: real, i: nat)
    requires months >= 1
    ensures EntryOn(pt, loan, rate, months, payment, i + 1, BalanceAfter(pt, loan, rate, months, payment, i)).interest
         == BalanceAfter(pt, loan, rate, months, payment, i) * rate
  {
    ChargedOnBalance(pt, loan, rate, months, payment, i + 1);
  }

  /** Every entry is charged interest on the balance it is given. */
  lemma ChargedOnBalance(pt: PaymentType, loan: real, rate: real, months: nat, payment: real, month: int)
    requires months >= 1
    ensures forall b: real :: EntryOn(pt, loan, rate, months, payment, month, b).interest == b * rate
  {
  }

  /** Differentiated payments never grow for a non-negative loan and rate,
      and the first one is the reported monthly payment P/n + P·r. */
  lemma DifferentiatedPaymentsNonIncreasing(loan: real, rate: real, months: nat, payment: real)
    requires loan >= 0.0 && rate >= 0.0 && months >= 1
    ensures var s := MortgageSchedule(loan, rate, months, Differentiated, payment);
            && (forall i, j :: 0 <= i <= j < |s| ==> s[j].payment <= s[i].payment)
            && s[0].payment == MonthlyPayment(loan, rate, months, Differentiated).value
  {
    DifferentiatedScheduleOrdered(loan, rate, months, payment);
    DifferentiatedFirstPayment(loan, rate, months, payment);
  }

  lemma DifferentiatedScheduleOrdered(loan: real, rate: real, months: nat, payment: real)
    requires loan >= 0.0 && rate >= 0.0 && months >= 1
    ensures var s := MortgageSchedule(loan, rate, months, Differentiated, payment);
            forall i, j :: 0 <= i <= j < |s| ==> s[j].payment <= s[i].payment
  {
    var s := MortgageSchedule(loan, rate, months, Differentiated, payment);
    forall i, j | 0 <= i <= j < |s|
      ensures s[j].payment <= s[i].payment
    {
      DifferentiatedPaymentsOrdered(loan, rate, months, payment, i, j);
    }
  }

  lemma DifferentiatedFirstPayment(loan: real, rate: real, months: nat, payment: real)
    requires months >= 1
    ensures MortgageSchedule(loan, rate, months, Differentiated, payment)[0].payment
         == MonthlyPayment(loan, rate, months, Differentiated).value
  {
    MonthInterest(Differentiated, loan, rate, months, payment, 0);
  }

  lemma DifferentiatedPaymentsOrdered(loan: real, rate: real, months: nat, payment: real, i: nat, j: nat)
    requires loan >= 0.0 && rate >= 0.0 && 1 <= months && i <= j
    ensures InstallmentAt(Differentiated, loan, rate, months, payment, BalanceAfter(Differentiated, loan, rate, months, payment, j)).payment
         <= InstallmentAt(Differentiated, loan, rate, months, payment, BalanceAfter(Differentiated, loan, rate, months, payment, i)).payment
  {
    var bi := BalanceAfter(Differentiated, loan, rate, months, payment, i);
    var bj := BalanceAfter(Differentiated, loan, rate, months, payment, j);
    DifferentiatedBalanceFalls(loan, rate, months, payment, i, j);
    DifferentiatedInstallmentMonotone(loan, rate, months, payment, bj, bi);
  }

  /** A smaller balance never asks for a larger differentiated payment. */
  lemma DifferentiatedInstallmentMonotone(loan: real, rate: real, months: nat, payment: real, x: real, y: real)
    requires months >= 1 && rate >= 0.0 && x <= y
    ensures InstallmentAt(Differentiated, loan, rate, months, payment, x).payment
         <= InstallmentAt(Differentiated, loan, rate, months, payment, y).payment
  {
    ScaleMonotone(x, y, rate);
  }

  /** With the computed annuity payment on a positive loan at a positive
      rate the balance falls every month, so a later balance is always below
      an earlier one. */
  lemma {:induction false} AnnuityBalanceFalls(loan: real, rate: real, months: nat, payment: real, i: nat, j: nat)
    requires months >= 1 && loan > 0.0 && rate > 0.0 && AnnuityPayment(loan, rate, months) == Ok(payment)
    requires i < j
    ensures BalanceAfter(Annuity, loan, rate, months, payment, j)
          < BalanceAfter(Annuity, loan, rate, months, payment, i)
    decreases j - i
  {
    AnnuityPrincipalPositive(loan, rate, months, payment, j - 1);
    if i < j - 1 {
      AnnuityBalanceFalls(loan, rate, months, payment, i, j - 1);
    }
  }

  /** Month k + 1 of an annuity repays q^k·(A − P·r) of principal: the
      principal part grows by the factor q every month. */
  lemma AnnuityPrincipalClosedForm(loan: real, rate: real, months: nat, payment: real, k: nat)
    requires months >= 1
    ensures payment - BalanceAfter(Annuity, loan, rate, months, payment, k) * rate
         == Pow(1.0 + rate, k) * (payment - rate * loan)
  {
    AnnuityBalanceClosedForm(loan, rate, months, payment, k);
    ClosedFormPrincipal(loan, rate, payment, k);
  }

  /** The principal part A − b·r on the closed-form balance b. */
  lemma ClosedFormPrincipal(loan: real, rate: real, payment: real, k: nat)
    ensures payment - AnnuityClosedForm(loan, rate, payment, k) * rate
         == Pow(1.0 + rate, k) * (payment - rate * loan)
  {
    GeomSumClosedForm(1.0 + rate, k);
    InterestGap(loan, rate, payment, Pow(1.0 + rate, k), GeomSum(1.0 + rate, k), AnnuityClosedForm(loan, rate, payment, k));
  }

  /** The computed payment always exceeds the interest on the loan, so every
      month repays a positive principal and the balance falls. */
  lemma AnnuityPrincipalPositive(loan: real, rate: real, months: nat, payment: real, k: nat)
    requires months >= 1 && loan > 0.0 && rate > 0.0 && AnnuityPayment(loan, rate, months) == Ok(payment)
    ensures BalanceAfter(Annuity, loan, rate, months, payment, k + 1)
          < BalanceAfter(Annuity, loan, rate, months, payment, k)
  {
    var b := BalanceAfter(Annuity, loan, rate, months, payment, k);
    AnnuityPrincipalClosedForm(loan, rate, months, payment, k);
    AnnuityAboveInterest(loan, rate, months, payment);
    PowPositive(1.0 + rate, k);
    AnnuityMonth(loan, rate, months, payment, b);
    GrowingPrincipalRepays(b, BalanceAfter(Annuity, loan, rate, months, payment, k + 1),
                           payment, rate, Pow(1.0 + rate, k), payment - rate * loan);
  }

  /** The computed annuity payment exceeds the interest on the whole loan. */
  lemma AnnuityAboveInterest(loan: real, rate: real, months: nat, payment: real)
    requires months >= 1 && loan > 0.0 && rate > 0.0 && AnnuityPayment(loan, rate, months) == Ok(payment)
    ensures payment > rate * loan
  {
    var f := Pow(1.0 + rate, months);
    assert payment * (f - 1.0) == loan * rate * f;
    PowAboveOne(1.0 + rate, months);
    PaymentAboveInterest(loan, rate, f, payment);
  }

  /** A month that repays p·x of principal with p, x > 0 lowers the balance. */
  lemma GrowingPrincipalRepays(b: real, next: real, payment: real, rate: real, p: real, x: real)
    requires next == b - (payment - b * rate)
    requires payment - b * rate == p * x && p > 0.0 && x > 0.0
    ensures next < b
  {
    PositiveProduct(p, x);
  }

  /** A − b·r = q^k·(A − P·r) when b = P·q^k − A·g and g·r = q^k − 1. */
  lemma InterestGap(loan: real, rate: real, a: real, p: real, g: real, b: real)
    requires g * ((1.0 + rate) - 1.0) == p - 1.0
    requires b == loan * p - a * g
    ensures a - b * rate == p * (a - rate * loan)
  {
    assert g * rate == p - 1.0;
    assert b * rate == loan * p * rate - a * (g * rate);
  }

  /** A·(f − 1) = P·r·f with f > 1 puts A above P·r. */
  lemma PaymentAboveInterest(loan: real, rate: real, f: real, a: real)
    requires loan > 0.0 && rate > 0.0 && f > 1.0
    requires a * (f - 1.0) == loan * rate * f
    ensures a > rate * loan
  {
    assert (a - rate * loan) * (f - 1.0) == loan * rate;
    assert loan * rate > 0.0;
    if a - rate * loan <= 0.0 {
      ProductNonNegative(rate * loan - a, f - 1.0);
    }
  }

  lemma PositiveProduct(x: real, y: real)
    requires x > 0.0 && y > 0.0
    ensures x * y > 0.0
  {
  }

  /** With a non-negative loan the differentiated balance never rises. */
  lemma {:induction false} DifferentiatedBalanceFalls(loan: real, rate: real, months: nat, payment: real, i: nat, j: nat)
    requires months >= 1 && loan >= 0.0 && i <= j
    ensures BalanceAfter(Differentiated, loan, rate, months, payment, j)
         <= BalanceAfter(Differentiated, loan, rate, months, payment, i)
    decreases j - i
  {
    if i < j {
      DifferentiatedBalanceFalls(loan, rate, months, payment, i, j - 1);
      DifferentiatedMonth(loan, rate, months, payment, BalanceAfter(Differentiated, loan, rate, months, payment, j - 1));
      NonNegativeQuotient(loan, months as real);
    }
  }

  lemma NonNegativeQuotient(a: real, n: real)
    requires a >= 0.0 && n > 0.0
    ensures a / n >= 0.0
  {
  }

  lemma ScaleMonotone(x: real, y: real, c: real)
    requires x <= y && c >= 0.0
    ensures x * c <= y * c
  {
  }

  // ------------------------------------------------------------------ credit

  /** Fees of a credit month: the monthly insurance, plus the one-time
      commission in month 1 when there is one. */
  function CreditFees(month: int, monthlyInsurance: real, commission: real): real
  {
    monthlyInsurance + (if month == 1 && commission > 0.0 then commission else 0.0)
  }

  /** A credit entry is the mortgage entry for the same balance with the fees
      added to the payment. */
  function WithFees(m: MortgageMonth, fees: real): CreditMonth
  {
    CreditMonth(m.month, m.payment + fees, m.principal, m.interest, fees, m.balance)
  }

  function CreditScheduleFrom(pt: PaymentType, amount: real, rate: real, months: nat, payment: real,
                              monthlyInsurance: real, commission: real, k: nat, balance: real): (s: seq<CreditMonth>)
    requires k <= months
    requires k < months ==> balance == BalanceAfter(pt, amount, rate, months, payment, k)
    ensures |s| == months - k
    ensures forall j :: 0 <= j < |s| ==>
      s[j] == WithFees(MortgageMonthAt(pt, amount, rate, months, payment, k + j),
                       CreditFees(k + j + 1, monthlyInsurance, commission))
    decreases months - k
  {
    if k == months then []
    else
      [WithFees(EntryOn(pt, amount, rate, months, payment, k + 1, balance), CreditFees(k + 1, monthlyInsurance, commission))]
        + CreditScheduleFrom(pt, amount, rate, months, payment, monthlyInsurance, commission, k + 1,
                             NextBalance(pt, amount, rate, months, payment, balance))
  }

  /** `_generate_credit_schedule`: the mortgage loop on the effective amount,
      each payment raised by the month's fees. */
  function CreditSchedule(effectiveAmount: real, rate: real, months: nat, pt: PaymentType, payment: real,
                          monthlyInsurance: real, commission: real): (s: seq<CreditMonth>)
    ensures |s| == months
  {
    CreditScheduleFrom(pt, effectiveAmount, rate, months, payment, monthlyInsurance, commission, 0, effectiveAmount)
  }

  /** Entry by entry, the credit schedule is the mortgage schedule of the
      effective amount with the month's fees added to the payment: the
      insurance every month, and the commission, when there is one, in the
      first month only. */
  lemma CreditScheduleMirrorsMortgage(effectiveAmount: real, rate: real, months: nat, pt: PaymentType, payment: real,
                                      monthlyInsurance: real, commission: real)
    ensures var s := CreditSchedule(effectiveAmount, rate, months, pt, payment, monthlyInsurance, commission);
            var ms := MortgageSchedule(effectiveAmount, rate, months, pt, payment);
            && |s| == |ms| == months
            && (forall i :: 0 <= i < months ==>
                  && s[i].month == ms[i].month == i + 1
                  && s[i].principal == ms[i].principal && s[i].interest == ms[i].interest
                  && s[i].balance == ms[i].balance
                  && s[i].payment == ms[i].payment + s[i].fees)
            && (forall i :: 0 <= i < months ==>
                  s[i].fees == monthlyInsurance + (if i == 0 && commission > 0.0 then commission else 0.0))
  {
  }

}
