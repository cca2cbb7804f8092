/** `CompareService.comparison`: look the strategy up, run it on every
    scenario in order, and name the recommended scenario. */
module CompareService {
  import opened Outcomes
  import opened Enums
  import opened Schemas
  import opened Strategies
  import opened Factory
  import Mortgage

  datatype CompareResponse = CompareResponse(
    comparisonType: ComparisonType, recommendation: string, comparison: seq<NamedResult>)

  predicate AllValid(scenarios: seq<ComparisonScenario>)
  {
    forall i :: 0 <= i < |scenarios| ==> ValidScenarioData(scenarios[i].data)
  }

  /** The loop over the scenarios: each result keeps its scenario's name, in
      the request's order; the first scenario whose calculation fails ends the
      loop with that failure. */
  function CalculateAll(s: Strategy, scenarios: seq<ComparisonScenario>): (r: Result<seq<NamedResult>>)
    requires AllValid(scenarios)
    ensures r.Ok? <==> forall i :: 0 <= i < |scenarios| ==> Calculate(s, scenarios[i].data).Ok?
    ensures r.Ok? ==> |r.value| == |scenarios|
    ensures r.Ok? ==> forall i :: 0 <= i < |scenarios| ==>
              r.value[i] == NamedResult(scenarios[i].name, Calculate(s, scenarios[i].data).value)
    ensures r.Err? ==> exists i :: 0 <= i < |scenarios| && Calculate(s, scenarios[i].data) == Err(r.error)
                                   && forall j :: 0 <= j < i ==> Calculate(s, scenarios[j].data).Ok?
    decreases |scenarios|
  {
    if |scenarios| == 0 then Ok([])
    else
      match Calculate(s, scenarios[0].data)
      case Err(e) => Err(e)
      case Ok(c) =>
        match CalculateAll(s, scenarios[1..])
        case Err(e) => Err(e)
        case Ok(rest) => Ok([NamedResult(scenarios[0].name, c)] + rest)
  }

  /** `comparison`: an unregistered type fails before any scenario is
      calculated. On success the type is echoed, every scenario appears once
      in order under its own name with its own calculation, and the
      recommendation is the name of one of them. */
  function Comparison(registry: Registry, req: CompareRequest): (r: Result<CompareResponse>)
    requires ValidCompareRequest(req)
    ensures req.comparisonType !in registry ==> r == Err(UnknownComparisonType(req.comparisonType))
    ensures r.Ok? ==> req.comparisonType in registry && r.value.comparisonType == req.comparisonType
    ensures r.Ok? ==> |r.value.comparison| == |req.scenarios|
    ensures r.Ok? ==> forall i :: 0 <= i < |req.scenarios| ==>
              && r.value.comparison[i].name == req.scenarios[i].name
              && Calculate(registry[req.comparisonType], req.scenarios[i].data) == Ok(r.value.comparison[i].data)
    ensures r.Ok? ==> exists i :: 0 <= i < |req.scenarios| && r.value.recommendation == req.scenarios[i].name
  {
    match Create(registry, req.comparisonType)
    case Err(e) => Err(e)
    case Ok(strategy) =>
      match CalculateAll(strategy, req.scenarios)
      case Err(e) => Err(e)
      case Ok(results) =>
        match Recommendation(strategy, results)
        case Err(e) => Err(e)
        case Ok(rec) =>
          assert exists i :: 0 <= i < |results| && results[i] == rec;
          Ok(CompareResponse(req.comparisonType, rec.name, results))
  }

  /** With the registry built at import time, a scenario of another product
      than the comparison type makes the whole comparison fail. */
  lemma MismatchedScenarioFails(req: CompareRequest, k: nat)
    requires ValidCompareRequest(req)
    requires k < |req.scenarios| && !Accepts(StrategyFor(req.comparisonType), req.scenarios[k].data)
    ensures Comparison(DefaultRegistry(), req).Err?
  {
    DefaultCreateTotal(req.comparisonType);
    assert Calculate(StrategyFor(req.comparisonType), req.scenarios[k].data).Err?;
  }

  /** The total payment the mortgage calculator reports for a scenario. */
  function MortgageTotal(data: ScenarioData): real
    requires data.MortgageData? && ValidScenarioData(data)
  {
    Mortgage.CalculateMortgage(data.mortgage).totalPayment
  }

  /** A mortgage comparison of mortgage scenarios always succeeds and
      recommends a scenario whose total payment is no more than any other's. */
  lemma MortgageComparisonRecommendsCheapest(req: CompareRequest)
    requires ValidCompareRequest(req) && req.comparisonType == MortgageComparison
    requires forall i :: 0 <= i < |req.scenarios| ==> req.scenarios[i].data.MortgageData?
    ensures Comparison(DefaultRegistry(), req).Ok?
    ensures var rec := Comparison(DefaultRegistry(), req).value.recommendation;
            exists i :: 0 <= i < |req.scenarios| && rec == req.scenarios[i].name
              && forall j :: 0 <= j < |req.scenarios| ==>
                   MortgageTotal(req.scenarios[i].data) <= MortgageTotal(req.scenarios[j].data)
  {
    DefaultCreateTotal(MortgageComparison);
    var results := CalculateAll(MortgageStrategy, req.scenarios).value;
    CheapestRecommended(MortgageStrategy, results);
    var i := RecommendIndex(MortgageStrategy, results).value;
    assert req.scenarios[i].name == results[i].name;
  }

  /** A goal comparison succeeds only when every scenario states a monthly
      contribution: a scenario without one yields the goal calculator's plain
      mapping, whose attributes the recommendation cannot read. */
  lemma GoalComparisonNeedsContributions(req: CompareRequest)
    requires ValidCompareRequest(req) && req.comparisonType == GoalComparison
    ensures Comparison(DefaultRegistry(), req).Ok? ==>
              forall i :: 0 <= i < |req.scenarios| ==>
                req.scenarios[i].data.GoalData? && req.scenarios[i].data.goal.monthlyContribution.Some?
  {
    DefaultCreateTotal(GoalComparison);
    if Comparison(DefaultRegistry(), req).Ok? {
      var results := CalculateAll(GoalStrategy, req.scenarios).value;
      assert Recommendation(GoalStrategy, results).Ok?;
      RecordBlocksRecommendation(results);
      forall i | 0 <= i < |req.scenarios|
        ensures req.scenarios[i].data.GoalData? && req.scenarios[i].data.goal.monthlyContribution.Some?
      {
        var c := Calculate(GoalStrategy, req.scenarios[i].data);
        assert results[i].data == c.value;
        assert !results[i].data.GoalRecord?;
      }
    }
  }
}
