/** `ComparisonStrategyFactory`: a registry from comparison type to
    strategy, filled once when the module is loaded. */
module Factory {
  import opened Outcomes
  import opened Enums
  import opened Strategies

  type Registry = map<ComparisonType, Strategy>

  /** `register`: the type now maps to the strategy, replacing any earlier
      entry; every other entry stays as it was. */
  function Register(registry: Registry, t: ComparisonType, s: Strategy): (r: Registry)
    ensures t in r && r[t] == s
    ensures r.Keys == registry.Keys + {t}
    ensures forall u :: u in registry && u != t ==> r[u] == registry[u]
  {
    registry[t := s]
  }

  /** `create`: the registered strategy, or the unknown-type error. */
  function Create(registry: Registry, t: ComparisonType): (r: Result<Strategy>)
    ensures r.Err? <==> t !in registry
    ensures r.Err? ==> r.error == UnknownComparisonType(t)
    ensures r.Ok? ==> r.value == registry[t]
  {
    if t in registry then Ok(registry[t]) else Err(UnknownComparisonType(t))
  }

  /** After registering a strategy, creating its type returns it, and
      creating any other type returns what it returned before. */
  lemma CreateAfterRegister(registry: Registry, t: ComparisonType, s: Strategy, u: ComparisonType)
    ensures Create(Register(registry, t, s), t) == Ok(s)
    ensures u != t ==> Create(Register(registry, t, s), u) == Create(registry, u)
  {
  }

  /** The registrations made at import time, in their order. */
  function DefaultRegistry(): (r: Registry)
    ensures forall t: ComparisonType :: t in r
    ensures r[MortgageComparison] == MortgageStrategy && r[CreditComparison] == CreditStrategy
    ensures r[SavingsComparison] == SavingsStrategy && r[GoalComparison] == GoalStrategy
  {
    var r := Register(map[], MortgageComparison, MortgageStrategy);
    var r := Register(r, CreditComparison, CreditStrategy);
    var r := Register(r, SavingsComparison, SavingsStrategy);
    var r := Register(r, GoalComparison, GoalStrategy);
    assert r.Keys == AllTypes;
    EveryTypeListed();
    r
  }

  /** The four comparison types. */
  const AllTypes: set<ComparisonType> := {MortgageComparison, CreditComparison, SavingsComparison, GoalComparison}

  /** The four comparison types are all the enumeration has. */
  lemma EveryTypeListed()
    ensures forall t: ComparisonType :: t in AllTypes
  {
    forall t: ComparisonType
      ensures t in AllTypes
    {
      match t
      case MortgageComparison =>
      case CreditComparison =>
      case SavingsComparison =>
      case GoalComparison =>
    }
  }

  /** Every comparison type has a strategy once the module is loaded: `create`
      never fails, and each type gets the strategy of its own product. */
  lemma DefaultCreateTotal(t: ComparisonType)
    ensures Create(DefaultRegistry(), t).Ok?
    ensures Create(DefaultRegistry(), t).value == StrategyFor(t)
  {
  }

  /** The product each comparison type compares. */
  function StrategyFor(t: ComparisonType): Strategy
  {
    match t
    case MortgageComparison => MortgageStrategy
    case CreditComparison => CreditStrategy
    case SavingsComparison => SavingsStrategy
    case GoalComparison => GoalStrategy
  }
}
