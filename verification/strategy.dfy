/** The comparison strategies: each computes one kind of product through its
    calculator and picks the recommended result among several. */
module Strategies {
  import opened Outcomes
  import opened Schemas
  import Mortgage
  import Credit
  import Savings
  import Goal

  /** The four concrete strategy classes; each holds the same calculator. */
  datatype Strategy = MortgageStrategy | CreditStrategy | SavingsStrategy | GoalStrategy

  /** What a strategy's `calculate` returns. The goal calculator answers
      with a response object when it is given a monthly contribution and
      with a plain mapping when it computes the required contribution: the
      mapping has the same figures as keys but no attributes. */
  datatype Calculation =
    | MortgageResult(mortgage: MortgageResponse)
    | CreditResult(credit: CreditResponse)
    | SavingsResult(savings: SavingsResponse)
    | GoalResult(goal: GoalResponse)
    | GoalRecord(goal: GoalResponse)

  /** One entry of the comparison list: the scenario's name and its result. */
  datatype NamedResult = NamedResult(name: string, data: Calculation)

  /** The scenario data a strategy's calculator can read. Any other request
      lacks the fields the calculator reads. */
  predicate Accepts(s: Strategy, data: ScenarioData)
  {
    match s
    case MortgageStrategy => data.MortgageData?
    case CreditStrategy => data.CreditData?
    case SavingsStrategy => data.SavingsData?
    case GoalStrategy => data.GoalData?
  }

  /** `calculate`: hand the request to the one calculator of the strategy and
      tag its response. A request of another product fails, and so does a
      calculator that fails. */
  function Calculate(s: Strategy, data: ScenarioData): (r: Result<Calculation>)
    requires ValidScenarioData(data)
    ensures !Accepts(s, data) ==> r == Err(ScenarioShapeMismatch)
    ensures s == MortgageStrategy && data.MortgageData? ==>
              r == Ok(MortgageResult(Mortgage.CalculateMortgage(data.mortgage)))
    ensures s == CreditStrategy && data.CreditData? ==>
              (match Credit.CalculateCredit(data.credit)
               case Ok(v) => r == Ok(CreditResult(v))
               case Err(e) => r == Err(e))
    ensures s == SavingsStrategy && data.SavingsData? ==>
              (match Savings.CalculateSavings(data.savings)
               case Ok(v) => r == Ok(SavingsResult(v))
               case Err(e) => r == Err(e))
    ensures s == GoalStrategy && data.GoalData? ==>
              (match Goal.CalculateGoal(data.goal)
               case Ok(v) => r == Ok(if data.goal.monthlyContribution.None? then GoalRecord(v) else GoalResult(v))
               case Err(e) => r == Err(e))
    ensures r.Ok? ==> ProductOf(r.value) == s
  {
    match (s, data)
    case (MortgageStrategy, MortgageData(q)) => Ok(MortgageResult(Mortgage.CalculateMortgage(q)))
    case (CreditStrategy, CreditData(q)) =>
      (match Credit.CalculateCredit(q)
       case Ok(v) => Ok(CreditResult(v))
       case Err(e) => Err(e))
    case (SavingsStrategy, SavingsData(q)) =>
      (match Savings.CalculateSavings(q)
       case Ok(v) => Ok(SavingsResult(v))
       case Err(e) => Err(e))
    case (GoalStrategy, GoalData(q)) =>
      (match Goal.CalculateGoal(q)
       case Ok(v) => Ok(if q.monthlyContribution.None? then GoalRecord(v) else GoalResult(v))
       case Err(e) => Err(e))
    case _ => Err(ScenarioShapeMismatch)
  }

  /** The strategy a result comes from. */
  function ProductOf(c: Calculation): Strategy
  {
    match c
    case MortgageResult(_) => MortgageStrategy
    case CreditResult(_) => CreditStrategy
    case SavingsResult(_) => SavingsStrategy
    case GoalResult(_) => GoalStrategy
    case GoalRecord(_) => GoalStrategy
  }

  // ------------------------------------------------------- stable choices

  /** The index Python's `min` returns: the first among the least keys. */
  function FirstMin(keys: seq<real>): (i: nat)
    requires |keys| > 0
    ensures i < |keys|
    ensures forall j :: 0 <= j < |keys| ==> keys[i] <= keys[j]
    ensures forall j :: 0 <= j < i ==> keys[j] > keys[i]
  {
    MinFrom(keys, 1, 0)
  }

  /** The scan of `min`: `best` is the first least key among the first `k`;
      a later key replaces it only when strictly smaller. */
  function MinFrom(keys: seq<real>, k: nat, best: nat): (i: nat)
    requires 0 < k <= |keys| && best < k
    requires forall j :: 0 <= j < k ==> keys[best] <= keys[j]
    requires forall j :: 0 <= j < best ==> keys[j] > keys[best]
    ensures best <= i < |keys|
    ensures forall j :: 0 <= j < |keys| ==> keys[i] <= keys[j]
    ensures forall j :: 0 <= j < i ==> keys[j] > keys[i]
    decreases |keys| - k
  {
    if k == |keys| then best
    else if keys[k] < keys[best] then MinFrom(keys, k + 1, k)
    else MinFrom(keys, k + 1, best)
  }

  /** The index Python's `max` returns: the first among the greatest keys. */
  function FirstMax(keys: seq<real>): (i: nat)
    requires |keys| > 0
    ensures i < |keys|
    ensures forall j :: 0 <= j < |keys| ==> keys[j] <= keys[i]
    ensures forall j :: 0 <= j < i ==> keys[j] < keys[i]
  {
    MaxFrom(keys, 1, 0)
  }

  function MaxFrom(keys: seq<real>, k: nat, best: nat): (i: nat)
    requires 0 < k <= |keys| && best < k
    requires forall j :: 0 <= j < k ==> keys[j] <= keys[best]
    requires forall j :: 0 <= j < best ==> keys[j] < keys[best]
    ensures best <= i < |keys|
    ensures forall j :: 0 <= j < |keys| ==> keys[j] <= keys[i]
    ensures forall j :: 0 <= j < i ==> keys[j] < keys[i]
    decreases |keys| - k
  {
    if k == |keys| then best
    else if keys[k] > keys[best] then MaxFrom(keys, k + 1, k)
    else MaxFrom(keys, k + 1, best)
  }

  /** The first least key is the least key that no earlier key ties: any
      index with those two properties is the one `FirstMin` returns. */
  lemma FirstMinUnique(keys: seq<real>, i: nat)
    requires i < |keys|
    requires forall j :: 0 <= j < |keys| ==> keys[i] <= keys[j]
    requires forall j :: 0 <= j < i ==> keys[j] > keys[i]
    ensures FirstMin(keys) == i
  {
    var m := FirstMin(keys);
    assert keys[m] <= keys[i] && keys[i] <= keys[m];
  }

  /** Likewise for the first greatest key. */
  lemma FirstMaxUnique(keys: seq<real>, i: nat)
    requires i < |keys|
    requires forall j :: 0 <= j < |keys| ==> keys[j] <= keys[i]
    requires forall j :: 0 <= j < i ==> keys[j] < keys[i]
    ensures FirstMax(keys) == i
  {
    var m := FirstMax(keys);
    assert keys[m] <= keys[i] && keys[i] <= keys[m];
  }

  // -------------------------------------------------------------- keys

  /** `x["data"].total_payment`: mortgage and credit responses have one. */
  function TotalPayment(c: Calculation): Option<real>
  {
    match c
    case MortgageResult(m) => Some(m.totalPayment)
    case CreditResult(cr) => Some(cr.totalPayment)
    case _ => None
  }

  /** `x["data"].total_interest`: every response but the goal's has one. */
  function TotalInterest(c: Calculation): Option<real>
  {
    match c
    case MortgageResult(m) => Some(m.totalInterest)
    case CreditResult(cr) => Some(cr.totalInterest)
    case SavingsResult(sv) => Some(sv.totalInterest)
    case _ => None
  }

  /** The key of every result, failing on the first result that lacks the
      attribute. */
  function KeysOf(results: seq<NamedResult>, key: Calculation -> Option<real>): (r: Result<seq<real>>)
    ensures r.Ok? <==> forall i :: 0 <= i < |results| ==> key(results[i].data).Some?
    ensures r.Err? ==> r.error == ScenarioShapeMismatch
    ensures r.Ok? ==> |r.value| == |results|
                      && forall i :: 0 <= i < |results| ==> r.value[i] == key(results[i].data).value
  {
    if |results| == 0 then Ok([])
    else
      match key(results[0].data)
      case None => Err(ScenarioShapeMismatch)
      case Some(k) =>
        match KeysOf(results[1..], key)
        case Err(e) => Err(e)
        case Ok(rest) =>
          assert forall i :: 1 <= i < |results| ==> results[1..][i - 1] == results[i];
          Ok([k] + rest)
  }

  /** A goal figure read as an attribute: only a goal response object has
      one; its value may be `None`, which Python cannot order. */
  function RequiredMonthlyOf(c: Calculation): Option<Option<real>>
  {
    if c.GoalResult? then Some(c.goal.requiredMonthly) else None
  }

  function ExpectedFinalOf(c: Calculation): Option<Option<real>>
  {
    if c.GoalResult? then Some(c.goal.expectedFinalAmount) else None
  }

  /** How `min` and `max` read a goal key at position `i`: the attribute
      must exist, and from the second element on the key is compared with
      the first one, so neither may be `None`. */
  predicate ReadsCleanly(results: seq<NamedResult>, key: Calculation -> Option<Option<real>>, i: nat)
    requires i < |results|
  {
    && key(results[i].data).Some?
    && (i > 0 ==> key(results[i].data) != Some(None) && key(results[0].data) != Some(None))
  }

  /** The keys of a goal comparison, read left to right as `min` and `max`
      read them: the first element whose attribute is missing, or whose key
      cannot be compared, decides the failure. A single element is never
      compared, so its `None` key is harmless. */
  function OptionalKeysOf(results: seq<NamedResult>, key: Calculation -> Option<Option<real>>)
    : (r: Result<seq<real>>)
    requires |results| > 0
    ensures r.Ok? <==> forall i :: 0 <= i < |results| ==> ReadsCleanly(results, key, i)
    ensures r == Err(ScenarioShapeMismatch) <==>
              exists i :: 0 <= i < |results| && key(results[i].data).None?
                          && forall j :: 0 <= j < i ==> ReadsCleanly(results, key, j)
    ensures r.Err? ==> r.error == ScenarioShapeMismatch || r.error == IncomparableKeys
    ensures r.Ok? ==> |r.value| == |results|
    ensures r.Ok? && |results| >= 2 ==>
              forall i :: 0 <= i < |results| ==> key(results[i].data) == Some(Some(r.value[i]))
  {
    match key(results[0].data)
    case None =>
      assert !ReadsCleanly(results, key, 0);
      Err(ScenarioShapeMismatch)
    case Some(first) =>
      match LaterKeys(results, key, 1)
      case Err(e) => Err(e)
      case Ok(rest) => Ok([if first.Some? then first.value else 0.0] + rest)
  }

  /** The scan of `min` and `max` from position `k` on, once the first key
      has been read. */
  function LaterKeys(results: seq<NamedResult>, key: Calculation -> Option<Option<real>>, k: nat)
    : (r: Result<seq<real>>)
    requires 1 <= k <= |results| && key(results[0].data).Some?
    ensures r.Ok? <==> forall i :: k <= i < |results| ==> ReadsCleanly(results, key, i)
    ensures r == Err(ScenarioShapeMismatch) <==>
              exists i :: k <= i < |results| && key(results[i].data).None?
                          && forall j :: k <= j < i ==> ReadsCleanly(results, key, j)
    ensures r.Err? ==> r.error == ScenarioShapeMismatch || r.error == IncomparableKeys
    ensures r.Ok? ==> |r.value| == |results| - k
                      && forall i :: k <= i < |results| ==> key(results[i].data) == Some(Some(r.value[i - k]))
    decreases |results| - k
  {
    if k == |results| then Ok([])
    else
      match key(results[k].data)
      case None =>
        assert !ReadsCleanly(results, key, k);
        Err(ScenarioShapeMismatch)
      case Some(v) =>
        if v.None? || key(results[0].data).value.None? then
          assert !ReadsCleanly(results, key, k);
          Err(IncomparableKeys)
        else
          assert ReadsCleanly(results, key, k);
          match LaterKeys(results, key, k + 1)
          case Err(e) => Err(e)
          case Ok(rest) => Ok([v.value] + rest)
  }

  // ---------------------------------------------------- recommendations

  /** The index of the recommended result. Mortgage and credit: the first
      least total payment. Savings: the first greatest total interest. Goal:
      decided by the first result alone — the first least required
      contribution when its expected final amount is `None`, else the first
      greatest expected final amount. An empty list fails. */
  function RecommendIndex(s: Strategy, results: seq<NamedResult>): (r: Result<nat>)
    ensures |results| == 0 ==> r == Err(EmptySequence)
    ensures r.Ok? ==> r.value < |results|
  {
    if |results| == 0 then Err(EmptySequence)
    else
      match s
      case MortgageStrategy => MinBy(results, TotalPayment)
      case CreditStrategy => MinBy(results, TotalPayment)
      case SavingsStrategy =>
        (match KeysOf(results, TotalInterest)
         case Err(e) => Err(e)
         case Ok(keys) => Ok(FirstMax(keys)))
      case GoalStrategy =>
        (match ExpectedFinalOf(results[0].data)
         case None => Err(ScenarioShapeMismatch)
         case Some(None) =>
           (match OptionalKeysOf(results, RequiredMonthlyOf)
            case Err(e) => Err(e)
            case Ok(keys) => Ok(FirstMin(keys)))
         case Some(Some(_)) =>
           (match OptionalKeysOf(results, ExpectedFinalOf)
            case Err(e) => Err(e)
            case Ok(keys) => Ok(FirstMax(keys))))
  }

  function MinBy(results: seq<NamedResult>, key: Calculation -> Option<real>): (r: Result<nat>)
    requires |results| > 0
    ensures r.Ok? <==> forall i :: 0 <= i < |results| ==> key(results[i].data).Some?
    ensures r.Ok? ==> r.value < |results|
                      && (forall j :: 0 <= j < |results| ==>
                            key(results[r.value].data).value <= key(results[j].data).value)
                      && (forall j :: 0 <= j < r.value ==>
                            key(results[j].data).value > key(results[r.value].data).value)
  {
    match KeysOf(results, key)
    case Err(e) => Err(e)
    case Ok(keys) => Ok(FirstMin(keys))
  }

  /** `recommendation`: the recommended element of the list itself. */
  function Recommendation(s: Strategy, results: seq<NamedResult>): (r: Result<NamedResult>)
    ensures r.Ok? ==> r.value in results
    ensures |results| == 0 ==> r == Err(EmptySequence)
  {
    match RecommendIndex(s, results)
    case Err(e) => Err(e)
    case Ok(i) => Ok(results[i])
  }

  /** Mortgage and credit recommend a result whose total payment is no more
      than any other's, and no earlier result pays as little. */
  lemma CheapestRecommended(s: Strategy, results: seq<NamedResult>)
    requires s == MortgageStrategy || s == CreditStrategy
    requires |results| > 0
    requires forall i :: 0 <= i < |results| ==> ProductOf(results[i].data) == s
    ensures RecommendIndex(s, results).Ok?
    ensures var i := RecommendIndex(s, results).value;
            && (forall j :: 0 <= j < |results| ==>
                  TotalPayment(results[i].data).value <= TotalPayment(results[j].data).value)
            && (forall j :: 0 <= j < i ==>
                  TotalPayment(results[j].data).value > TotalPayment(results[i].data).value)
  {
    assert forall i :: 0 <= i < |results| ==> TotalPayment(results[i].data).Some?;
  }

  /** Savings recommends a result whose total interest is no less than any
      other's, and no earlier result earns as much. */
  lemma RichestRecommended(results: seq<NamedResult>)
    requires |results| > 0
    requires forall i :: 0 <= i < |results| ==> ProductOf(results[i].data) == SavingsStrategy
    ensures RecommendIndex(SavingsStrategy, results).Ok?
    ensures var i := RecommendIndex(SavingsStrategy, results).value;
            && (forall j :: 0 <= j < |results| ==>
                  TotalInterest(results[j].data).value <= TotalInterest(results[i].data).value)
            && (forall j :: 0 <= j < i ==>
                  TotalInterest(results[j].data).value < TotalInterest(results[i].data).value)
  {
    assert forall i :: 0 <= i < |results| ==> TotalInterest(results[i].data).Some?;
  }

  /** Goal comparisons look at the first result only. A plain mapping
      anywhere in the list fails: its attributes cannot be read. When every
      result is a response object with an expected final amount, the
      recommendation is the first greatest one; when the first carries none,
      and every result carries a required contribution, it is the first least
      required contribution; and once the first carries an amount, another
      result's `None` amount cannot be compared. */
  lemma GoalRecommended(results: seq<NamedResult>)
    requires |results| >= 2
    requires forall i :: 0 <= i < |results| ==> ProductOf(results[i].data) == GoalStrategy
    ensures (forall i :: 0 <= i < |results| && results[i].data.GoalResult? ==>
               results[i].data.goal.expectedFinalAmount.Some?)
              && (exists i :: 0 <= i < |results| && results[i].data.GoalRecord?) ==>
            RecommendIndex(GoalStrategy, results) == Err(ScenarioShapeMismatch)
    ensures (forall i :: 0 <= i < |results| ==>
               results[i].data.GoalResult? && results[i].data.goal.expectedFinalAmount.Some?) ==>
            && RecommendIndex(GoalStrategy, results).Ok?
            && var i := RecommendIndex(GoalStrategy, results).value;
               && (forall j :: 0 <= j < |results| ==>
                     results[j].data.goal.expectedFinalAmount.value <= results[i].data.goal.expectedFinalAmount.value)
               && (forall j :: 0 <= j < i ==>
                     results[j].data.goal.expectedFinalAmount.value < results[i].data.goal.expectedFinalAmount.value)
    ensures (forall i :: 0 <= i < |results| ==> results[i].data.GoalResult? && results[i].data.goal.requiredMonthly.Some?)
              && results[0].data.goal.expectedFinalAmount.None? ==>
            && RecommendIndex(GoalStrategy, results).Ok?
            && var i := RecommendIndex(GoalStrategy, results).value;
               && (forall j :: 0 <= j < |results| ==>
                     results[i].data.goal.requiredMonthly.value <= results[j].data.goal.requiredMonthly.value)
               && (forall j :: 0 <= j < i ==>
                     results[j].data.goal.requiredMonthly.value > results[i].data.goal.requiredMonthly.value)
    ensures (forall i :: 0 <= i < |results| ==> results[i].data.GoalResult?)
              && results[0].data.goal.expectedFinalAmount.Some?
              && (exists i :: 0 <= i < |results| && results[i].data.goal.expectedFinalAmount.None?) ==>
            RecommendIndex(GoalStrategy, results) == Err(IncomparableKeys)
  {
    RecordMismatchesShape(results);
    GreatestExpectedFinalRecommended(results);
    LeastContributionRecommended(results);
    MissingExpectedFinalIncomparable(results);
  }

  /** With an expected final amount on every result, the first greatest one
      is recommended. */
  lemma GreatestExpectedFinalRecommended(results: seq<NamedResult>)
    requires |results| >= 2
    ensures (forall i :: 0 <= i < |results| ==>
               results[i].data.GoalResult? && results[i].data.goal.expectedFinalAmount.Some?) ==>
            && RecommendIndex(GoalStrategy, results).Ok?
            && var i := RecommendIndex(GoalStrategy, results).value;
               && (forall j :: 0 <= j < |results| ==>
                     results[j].data.goal.expectedFinalAmount.value <= results[i].data.goal.expectedFinalAmount.value)
               && (forall j :: 0 <= j < i ==>
                     results[j].data.goal.expectedFinalAmount.value < results[i].data.goal.expectedFinalAmount.value)
  {
  }

  /** When the first result has no expected final amount and every result
      states its required contribution, the first least one is recommended. */
  lemma LeastContributionRecommended(results: seq<NamedResult>)
    requires |results| >= 2
    ensures (forall i :: 0 <= i < |results| ==> results[i].data.GoalResult? && results[i].data.goal.requiredMonthly.Some?)
              && results[0].data.goal.expectedFinalAmount.None? ==>
            && RecommendIndex(GoalStrategy, results).Ok?
            && var i := RecommendIndex(GoalStrategy, results).value;
               && (forall j :: 0 <= j < |results| ==>
                     results[i].data.goal.requiredMonthly.value <= results[j].data.goal.requiredMonthly.value)
               && (forall j :: 0 <= j < i ==>
                     results[j].data.goal.requiredMonthly.value > results[i].data.goal.requiredMonthly.value)
  {
  }

  /** Once the first result carries an expected final amount, a later one
      without it cannot be compared. */
  lemma MissingExpectedFinalIncomparable(results: seq<NamedResult>)
    requires |results| >= 2
    ensures (forall i :: 0 <= i < |results| ==> results[i].data.GoalResult?)
              && results[0].data.goal.expectedFinalAmount.Some?
              && (exists i :: 0 <= i < |results| && results[i].data.goal.expectedFinalAmount.None?) ==>
            RecommendIndex(GoalStrategy, results) == Err(IncomparableKeys)
  {
  }

  /** A plain mapping among results that otherwise all carry an expected
      final amount is reported as a shape mismatch: the scan reaches it
      before any comparison fails. */
  lemma RecordMismatchesShape(results: seq<NamedResult>)
    requires |results| >= 1
    requires forall i :: 0 <= i < |results| ==> ProductOf(results[i].data) == GoalStrategy
    ensures (forall i :: 0 <= i < |results| && results[i].data.GoalResult? ==>
               results[i].data.goal.expectedFinalAmount.Some?)
              && (exists i :: 0 <= i < |results| && results[i].data.GoalRecord?) ==>
            RecommendIndex(GoalStrategy, results) == Err(ScenarioShapeMismatch)
  {
    if (forall i :: 0 <= i < |results| && results[i].data.GoalResult? ==>
          results[i].data.goal.expectedFinalAmount.Some?)
       && (exists i :: 0 <= i < |results| && results[i].data.GoalRecord?)
       && results[0].data.GoalResult?
    {
      var i := FirstRecord(results, 0);
      assert forall j :: 0 <= j < i ==> ReadsCleanly(results, ExpectedFinalOf, j);
    }
  }

  /** Whatever the keys, a plain mapping anywhere among goal results keeps
      the recommendation from being made. */
  lemma RecordBlocksRecommendation(results: seq<NamedResult>)
    requires |results| >= 1
    ensures (exists i :: 0 <= i < |results| && results[i].data.GoalRecord?) ==>
            RecommendIndex(GoalStrategy, results).Err?
  {
    if exists i :: 0 <= i < |results| && results[i].data.GoalRecord? {
      var i :| 0 <= i < |results| && results[i].data.GoalRecord?;
      assert !ReadsCleanly(results, RequiredMonthlyOf, i) && !ReadsCleanly(results, ExpectedFinalOf, i);
    }
  }

  /** The position of the first plain mapping at or after `k`. */
  function FirstRecord(results: seq<NamedResult>, k: nat): (i: nat)
    requires k <= |results| && exists i :: k <= i < |results| && results[i].data.GoalRecord?
    ensures k <= i < |results| && results[i].data.GoalRecord?
    ensures forall j :: k <= j < i ==> !results[j].data.GoalRecord?
    decreases |results| - k
  {
    if results[k].data.GoalRecord? then k else FirstRecord(results, k + 1)
  }
}
