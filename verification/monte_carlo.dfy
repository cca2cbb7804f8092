/** `MonteCarloService.simulate`, its deterministic parts: the split of the
    simulations over three workers, the path recurrence, the gathering of
    the workers' results in worker order, and the probability figures. The
    random monthly draws are an input: one sequence of draws per path,
    in the global order of the paths. */
module MonteCarlo {
  import opened Outcomes
  import opened RateMath
  import opened Schemas

  /** `WORKERS_CNT`. */
  const Workers: nat := 3

  // ------------------------------------------------------------- workers

  /** The number of simulations worker `i` runs: an even share, plus one of
      the remainder for the first `simulations mod 3` workers. */
  function WorkerShare(simulations: nat, i: nat): (n: nat)
    ensures simulations / Workers <= n <= simulations / Workers + 1
  {
    simulations / Workers + (if i < simulations % Workers then 1 else 0)
  }

  /** The shares of the workers that are started: a worker with nothing to
      do is skipped. */
  function SharesFrom(simulations: nat, i: nat): (shares: seq<nat>)
    requires i <= Workers
    ensures |shares| <= Workers - i
    ensures forall k :: 0 <= k < |shares| ==> shares[k] > 0
    decreases Workers - i
  {
    if i == Workers then []
    else
      Started(WorkerShare(simulations, i)) + SharesFrom(simulations, i + 1)
  }

  /** A worker's share, or nothing when the worker is skipped. */
  function Started(n: nat): (shares: seq<nat>)
    ensures |shares| <= 1
    ensures Sum(shares) == n
    ensures forall k :: 0 <= k < |shares| ==> shares[k] > 0
  {
    if n > 0 then [n] else []
  }

  function Shares(simulations: nat): (shares: seq<nat>)
    ensures |shares| <= Workers
    ensures forall k :: 0 <= k < |shares| ==> shares[k] > 0
  {
    SharesFrom(simulations, 0)
  }

  function Sum(ns: seq<nat>): nat
  {
    if |ns| == 0 then 0 else ns[0] + Sum(ns[1..])
  }

  /** The shares are balanced: each is the even share or one more, earlier
      workers never get fewer, and the three together are every
      simulation. */
  lemma SharesBalanced(simulations: nat)
    ensures forall i :: 0 <= i < Workers ==>
              simulations / Workers <= WorkerShare(simulations, i) <= simulations / Workers + 1
    ensures forall i, j :: 0 <= i <= j < Workers ==> WorkerShare(simulations, j) <= WorkerShare(simulations, i)
    ensures WorkerShare(simulations, 0) + WorkerShare(simulations, 1) + WorkerShare(simulations, 2) == simulations
  {
    var q := simulations / Workers;
    var r := simulations % Workers;
    assert simulations == 3 * q + r && r < 3;
  }

  /** The started workers together run every simulation, and with at least
      three simulations all three workers are started. */
  lemma SharesPartition(simulations: nat)
    ensures Sum(Shares(simulations)) == simulations
    ensures simulations >= Workers ==>
              Shares(simulations) == [WorkerShare(simulations, 0), WorkerShare(simulations, 1), WorkerShare(simulations, 2)]
  {
    SharesBalanced(simulations);
    var s0, s1, s2 := WorkerShare(simulations, 0), WorkerShare(simulations, 1), WorkerShare(simulations, 2);
    var tail2 := SharesFrom(simulations, 2);
    var tail1 := SharesFrom(simulations, 1);
    assert SharesFrom(simulations, 3) == [];
    assert tail2 == Started(s2) + [];
    assert tail1 == Started(s1) + tail2;
    assert Shares(simulations) == Started(s0) + tail1;
    SumAppend(Started(s2), []);
    SumAppend(Started(s1), tail2);
    SumAppend(Started(s0), tail1);
  }

  lemma {:induction false} SumAppend(a: seq<nat>, b: seq<nat>)
    ensures Sum(a + b) == Sum(a) + Sum(b)
  {
    if |a| > 0 {
      assert (a + b)[1..] == a[1..] + b;
      SumAppend(a[1..], b);
    } else {
      assert a + b == b;
    }
  }

  // ---------------------------------------------------------------- paths

  /** `_simulate_single_path`: the path starts at the initial amount; each
      month the contribution is added and the sum then grows by that month's
      return. */
  function Path(current: real, contribution: real, draws: seq<real>): (p: seq<real>)
    ensures |p| == |draws| + 1
    ensures p[0] == current
    decreases |draws|
  {
    if |draws| == 0 then [current]
    else [current] + Path((current + contribution) * (1.0 + draws[0]), contribution, draws[1..])
  }

  /** Month by month, the path adds the contribution and then grows the sum
      by that month's return. */
  lemma {:induction false} PathStep(current: real, contribution: real, draws: seq<real>, k: nat)
    requires k < |draws|
    ensures Path(current, contribution, draws)[k + 1]
         == (Path(current, contribution, draws)[k] + contribution) * (1.0 + draws[k])
    decreases k
  {
    var next := (current + contribution) * (1.0 + draws[0]);
    var q := Path(next, contribution, draws[1..]);
    assert Path(current, contribution, draws) == [current] + q;
    if k > 0 {
      PathStep(next, contribution, draws[1..], k - 1);
      assert draws[k] == draws[1..][k - 1];
    }
  }

  /** When every return is `r`, the path is the deposit recurrence with the
      contribution grown by one month: month k holds the same amount as a
      deposit of c·(1 + r) made at the end of each of k months. */
  lemma {:induction false} PathUnderConstantReturns(current: real, contribution: real, draws: seq<real>, r: real, k: nat)
    requires forall i :: 0 <= i < |draws| ==> draws[i] == r
    requires k <= |draws|
    ensures Path(current, contribution, draws)[k] == PeriodicDeposits(current, contribution * (1.0 + r), r, k)
  {
    var p := Path(current, contribution, draws);
    forall i | 0 <= i < k
      ensures GrowthStep(p, contribution, r, i)
    {
      PathStep(current, contribution, draws, i);
    }
    ConstantRecurrence(p, current, contribution, r, k);
  }

  /** Month `i + 1` of `p` adds `c` to month `i` and grows the sum by `r`. */
  predicate GrowthStep(p: seq<real>, c: real, r: real, i: nat)
    requires i + 1 < |p|
  {
    p[i + 1] == (p[i] + c) * (1.0 + r)
  }

  lemma {:induction false} ConstantRecurrence(p: seq<real>, current: real, c: real, r: real, k: nat)
    requires k < |p| && p[0] == current
    requires forall i :: 0 <= i < k ==> GrowthStep(p, c, r, i)
    ensures p[k] == PeriodicDeposits(current, c * (1.0 + r), r, k)
  {
    if k > 0 {
      ConstantRecurrence(p, current, c, r, k - 1);
      assert GrowthStep(p, c, r, k - 1);
      var before := PeriodicDeposits(current, c * (1.0 + r), r, k - 1);
      PathStepAlgebra(p[k - 1], p[k], c, r, before, PeriodicDeposits(current, c * (1.0 + r), r, k));
    }
  }

  lemma PathStepAlgebra(prev: real, next: real, c: real, r: real, before: real, after: real)
    requires prev == before && next == (prev + c) * (1.0 + r)
    requires after == before * (1.0 + r) + c * (1.0 + r)
    ensures next == after
  {
  }

  /** What a batch of simulations draws: the final amount of every path and
      every path, in the same order. */
  datatype SimulationRun = SimulationRun(finalAmounts: seq<real>, paths: seq<seq<real>>)

  /** `_run_simulations`: one path per sequence of draws, in order, with
      its last amount recorded as a final amount. */
  function RunSimulations(initial: real, contribution: real, draws: seq<seq<real>>): (run: SimulationRun)
    ensures |run.paths| == |run.finalAmounts| == |draws|
    ensures forall j :: 0 <= j < |draws| ==>
              && run.paths[j] == Path(initial, contribution, draws[j])
              && run.finalAmounts[j] == run.paths[j][|draws[j]|]
  {
    if |draws| == 0 then SimulationRun([], [])
    else
      var path := Path(initial, contribution, draws[0]);
      var rest := RunSimulations(initial, contribution, draws[1..]);
      SimulationRun([path[|path| - 1]] + rest.finalAmounts, [path] + rest.paths)
  }

  /** The gathering loop: the workers' final amounts and paths are extended
      onto the result in worker order. */
  function Gather(runs: seq<SimulationRun>): (run: SimulationRun)
    ensures |runs| == 0 ==> run == SimulationRun([], [])
    ensures |runs| > 0 ==> runs[0].finalAmounts <= run.finalAmounts && runs[0].paths <= run.paths
  {
    if |runs| == 0 then SimulationRun([], [])
    else
      Concat(runs[0], Gather(runs[1..]))
  }

  /** Consecutive slices of `xs` of the given sizes. */
  function Split<T>(xs: seq<T>, sizes: seq<nat>): (chunks: seq<seq<T>>)
    requires Sum(sizes) == |xs|
    ensures |chunks| == |sizes|
    ensures forall i :: 0 <= i < |sizes| ==> |chunks[i]| == sizes[i]
    ensures Flatten(chunks) == xs
  {
    if |sizes| == 0 then []
    else [xs[..sizes[0]]] + Split(xs[sizes[0]..], sizes[1..])
  }

  function Flatten<T>(xss: seq<seq<T>>): seq<T>
  {
    if |xss| == 0 then [] else xss[0] + Flatten(xss[1..])
  }

  /** Every worker's batch run on its own slice of the draws. */
  function RunEach(initial: real, contribution: real, chunks: seq<seq<seq<real>>>): (runs: seq<SimulationRun>)
    ensures |runs| == |chunks|
    ensures forall i :: 0 <= i < |chunks| ==> runs[i] == RunSimulations(initial, contribution, chunks[i])
  {
    if |chunks| == 0 then []
    else [RunSimulations(initial, contribution, chunks[0])] + RunEach(initial, contribution, chunks[1..])
  }

  /** Running two batches one after the other is running their
      concatenation. */
  lemma RunAppend(initial: real, contribution: real, a: seq<seq<real>>, b: seq<seq<real>>)
    ensures RunSimulations(initial, contribution, a + b)
         == Concat(RunSimulations(initial, contribution, a), RunSimulations(initial, contribution, b))
  {
    var ab := RunSimulations(initial, contribution, a + b);
    var both := Concat(RunSimulations(initial, contribution, a), RunSimulations(initial, contribution, b));
    forall j | 0 <= j < |a| + |b|
      ensures ab.paths[j] == both.paths[j] && ab.finalAmounts[j] == both.finalAmounts[j]
    {
      if j < |a| {
        assert (a + b)[j] == a[j];
      } else {
        assert (a + b)[j] == b[j - |a|];
      }
    }
    assert ab.paths == both.paths;
    assert ab.finalAmounts == both.finalAmounts;
  }

  /** One run after another: final amounts and paths each in order. */
  function Concat(x: SimulationRun, y: SimulationRun): SimulationRun
  {
    SimulationRun(x.finalAmounts + y.finalAmounts, x.paths + y.paths)
  }

  /** Gathering the batches of consecutive chunks in order gives the batch
      of all the chunks together. */
  lemma {:induction false} GatherRunsFlatten(initial: real, contribution: real, chunks: seq<seq<seq<real>>>)
    ensures Gather(RunEach(initial, contribution, chunks)) == RunSimulations(initial, contribution, Flatten(chunks))
  {
    if |chunks| > 0 {
      assert RunEach(initial, contribution, chunks)[1..] == RunEach(initial, contribution, chunks[1..]);
      GatherRunsFlatten(initial, contribution, chunks[1..]);
      RunAppend(initial, contribution, chunks[0], Flatten(chunks[1..]));
    }
  }

  /** The three workers' runs, gathered in worker order. */
  function ParallelRun(initial: real, contribution: real, draws: seq<seq<real>>): (run: SimulationRun)
    ensures |run.finalAmounts| == |run.paths| == |draws|
  {
    SharesPartition(|draws|);
    GatherRunsFlatten(initial, contribution, Split(draws, Shares(|draws|)));
    Gather(RunEach(initial, contribution, Split(draws, Shares(|draws|))))
  }

  /** Splitting the simulations over the workers and gathering their results
      in worker order gives the same final amounts and paths, in the same
      order, as one sequential run. */
  lemma ParallelMatchesSequential(initial: real, contribution: real, draws: seq<seq<real>>)
    ensures ParallelRun(initial, contribution, draws) == RunSimulations(initial, contribution, draws)
  {
    SharesPartition(|draws|);
    GatherRunsFlatten(initial, contribution, Split(draws, Shares(|draws|)));
  }

  // ----------------------------------------------------------- parameters

  /** The deterministic half of `_prepare_parameters`: the monthly mean
      return and the number of months. */
  datatype SimulationParameters = SimulationParameters(monthlyRate: real, months: int)

  function PrepareParameters(req: MonteCarloRequest): (p: SimulationParameters)
    ensures p.monthlyRate * 1200.0 == req.avgReturn
    ensures p.months == 12 * req.years
  {
    SimulationParameters(MonthlyRate(req.avgReturn), req.years * 12)
  }

  /** `_calculate_total_contributions`: the initial amount and every monthly
      contribution. */
  function TotalContributions(req: MonteCarloRequest, months: int): (t: real)
    ensures req.monthly >= 0.0 && months >= 0 ==> t >= req.initial
  {
    req.initial + req.monthly * months as real
  }

  // -------------------------------------------------------- probabilities

  function CountBelow(xs: seq<real>, bound: real): (n: nat)
    ensures n <= |xs|
  {
    if |xs| == 0 then 0 else (if xs[0] < bound then 1 else 0) + CountBelow(xs[1..], bound)
  }

  function CountAtLeast(xs: seq<real>, bound: real): (n: nat)
    ensures n <= |xs|
  {
    if |xs| == 0 then 0 else (if xs[0] >= bound then 1 else 0) + CountAtLeast(xs[1..], bound)
  }

  /** `float(np.mean(mask)) * 100` for a mask with `count` true entries out
      of `total`. */
  function Percent(count: nat, total: nat): (p: real)
    requires 0 < total && count <= total
    ensures 0.0 <= p <= 100.0
  {
    PercentBounds(count, total);
    count as real / total as real * 100.0
  }

  /** A percentage of `total` scaled back by `total` is a hundred times the
      count. */
  lemma PercentScales(count: nat, total: nat)
    requires 0 < total && count <= total
    ensures Percent(count, total) * total as real == 100.0 * count as real
  {
  }

  lemma PercentBounds(count: nat, total: nat)
    requires 0 < total && count <= total
    ensures 0.0 <= count as real / total as real <= 1.0
  {
  }

  datatype Probabilities = Probabilities(loss: real, negativeReturn: real, reachGoal: Option<real>)

  /** `_calculate_probabilities`: the percentage of final amounts below what
      was paid in, below the initial amount and — only when a goal is given
      and is not zero — at or above the goal. */
  function CalculateProbabilities(finals: seq<real>, initial: real, goal: Option<real>, totalContributions: real)
    : (p: Probabilities)
    requires |finals| > 0
    ensures 0.0 <= p.loss <= 100.0 && 0.0 <= p.negativeReturn <= 100.0
    ensures p.loss == Percent(CountBelow(finals, totalContributions), |finals|)
    ensures p.negativeReturn == Percent(CountBelow(finals, initial), |finals|)
    ensures p.reachGoal.Some? <==> goal.Some? && goal.value != 0.0
    ensures p.reachGoal.Some? ==> p.reachGoal.value == Percent(CountAtLeast(finals, goal.value), |finals|)
  {
    var n := |finals|;
    var reach := if goal.Some? && goal.value != 0.0 then Some(Percent(CountAtLeast(finals, goal.value), n)) else None;
    Probabilities(Percent(CountBelow(finals, totalContributions), n), Percent(CountBelow(finals, initial), n), reach)
  }

  /** A lower bound never counts more amounts below it. */
  lemma {:induction false} CountBelowMonotone(xs: seq<real>, lo: real, hi: real)
    requires lo <= hi
    ensures CountBelow(xs, lo) <= CountBelow(xs, hi)
  {
    if |xs| > 0 {
      CountBelowMonotone(xs[1..], lo, hi);
    }
  }

  /** Every amount is either below the bound or at or above it. */
  lemma {:induction false} CountsComplement(xs: seq<real>, bound: real)
    ensures CountBelow(xs, bound) + CountAtLeast(xs, bound) == |xs|
  {
    if |xs| > 0 {
      CountsComplement(xs[1..], bound);
    }
  }

  /** The amounts below a bound are exactly those under it: none when all
      reach it, all when none does. */
  lemma {:induction false} CountBelowExtremes(xs: seq<real>, bound: real)
    ensures (forall i :: 0 <= i < |xs| ==> xs[i] >= bound) ==> CountBelow(xs, bound) == 0
    ensures (forall i :: 0 <= i < |xs| ==> xs[i] < bound) ==> CountBelow(xs, bound) == |xs|
  {
    if |xs| > 0 {
      CountBelowExtremes(xs[1..], bound);
      assert forall i :: 0 <= i < |xs| - 1 ==> xs[1..][i] == xs[i + 1];
    }
  }

  /** Paying in never less than the initial amount, a negative return is
      never more likely than a loss. */
  lemma NegativeReturnWithinLoss(finals: seq<real>, initial: real, goal: Option<real>, totalContributions: real)
    requires |finals| > 0 && initial <= totalContributions
    ensures var p := CalculateProbabilities(finals, initial, goal, totalContributions);
            p.negativeReturn <= p.loss
  {
    CountBelowMonotone(finals, initial, totalContributions);
    PercentMonotone(CountBelow(finals, initial), CountBelow(finals, totalContributions), |finals|);
  }

  /** The chance of reaching the goal and the chance of staying below it add
      up to a hundred percent. */
  lemma ReachGoalComplement(finals: seq<real>, initial: real, goal: real, totalContributions: real)
    requires |finals| > 0 && goal != 0.0
    ensures var p := CalculateProbabilities(finals, initial, Some(goal), totalContributions);
            p.reachGoal.value + Percent(CountBelow(finals, goal), |finals|) == 100.0
  {
    CountsComplement(finals, goal);
    PercentComplement(CountAtLeast(finals, goal), CountBelow(finals, goal), |finals|);
  }

  /** The comparisons are strict: when every final amount covers what was
      paid in there is no loss, and when none does the loss is certain. */
  lemma LossExtremes(finals: seq<real>, initial: real, goal: Option<real>, totalContributions: real)
    requires |finals| > 0
    ensures (forall i :: 0 <= i < |finals| ==> finals[i] >= totalContributions) ==>
              CalculateProbabilities(finals, initial, goal, totalContributions).loss == 0.0
    ensures (forall i :: 0 <= i < |finals| ==> finals[i] < totalContributions) ==>
              CalculateProbabilities(finals, initial, goal, totalContributions).loss == 100.0
  {
    CountBelowExtremes(finals, totalContributions);
    PercentExtremes(|finals|);
  }

  lemma PercentMonotone(a: nat, b: nat, total: nat)
    requires 0 < total && a <= b <= total
    ensures Percent(a, total) <= Percent(b, total)
  {
    var t := total as real;
    DivMul(a as real, t);
    DivMul(b as real, t);
    ScaledOrder(a as real / t, b as real / t, t);
  }

  lemma ScaledOrder(x: real, y: real, t: real)
    requires t > 0.0 && x * t <= y * t
    ensures x <= y
  {
    assert (y - x) * t >= 0.0;
  }

  lemma PercentComplement(a: nat, b: nat, total: nat)
    requires 0 < total && a + b == total
    ensures Percent(a, total) + Percent(b, total) == 100.0
  {
    SharesOfWhole(a as real, b as real, total as real);
  }

  /** Two parts that make up a whole are fractions of it summing to one. */
  lemma SharesOfWhole(a: real, b: real, t: real)
    requires t > 0.0 && a + b == t
    ensures a / t * 100.0 + b / t * 100.0 == 100.0
  {
    assert a / t + b / t == (a + b) / t;
  }

  lemma DivMul(a: real, n: real)
    requires n != 0.0
    ensures (a / n) * n == a
  {
  }

  lemma PercentExtremes(total: nat)
    requires 0 < total
    ensures Percent(0, total) == 0.0 && Percent(total, total) == 100.0
  {
  }

  // ------------------------------------------------------------- simulate

  /** The deterministic part of the response: the final amounts, the raw
      paths, what was paid in and the probabilities. */
  datatype SimulationOutcome = SimulationOutcome(
    finalAmounts: seq<real>, simulationsData: seq<seq<real>>,
    totalContributions: real, probabilities: Probabilities)

  /** The draws fit the request: one sequence per simulation, one return
      per month. */
  predicate ReturnsFit(req: MonteCarloRequest, draws: seq<seq<real>>)
  {
    && |draws| == req.simulations
    && forall i :: 0 <= i < |draws| ==> |draws[i]| == 12 * req.years
  }

  /** `simulate` for a valid request, given the monthly returns a working
      random generator would draw (the source's own generator call lacks
      its bit generator and raises before the first month). The simulations are split over the workers, and the
      gathered results are those of running every path in order: path j
      follows the j-th draws and its last amount is the j-th final amount.
      What was paid in covers the initial amount, and the probabilities are
      taken over all the final amounts. */
  function Simulate(req: MonteCarloRequest, draws: seq<seq<real>>): (out: SimulationOutcome)
    requires ValidMonteCarloRequest(req) && ReturnsFit(req, draws)
    ensures out.finalAmounts == RunSimulations(req.initial, req.monthly, draws).finalAmounts
    ensures out.simulationsData == RunSimulations(req.initial, req.monthly, draws).paths
    ensures out.totalContributions == TotalContributions(req, 12 * req.years) >= req.initial
    ensures out.probabilities
            == CalculateProbabilities(out.finalAmounts, req.initial, req.goalAmount, out.totalContributions)
    ensures out.probabilities.negativeReturn <= out.probabilities.loss
    ensures out.probabilities.reachGoal.Some? <==> req.goalAmount.Some?
  {
    var params := PrepareParameters(req);
    var run := ParallelRun(req.initial, req.monthly, draws);
    ParallelMatchesSequential(req.initial, req.monthly, draws);
    var total := TotalContributions(req, params.months);
    NegativeReturnWithinLoss(run.finalAmounts, req.initial, req.goalAmount, total);
    SimulationOutcome(run.finalAmounts, run.paths, total,
                      CalculateProbabilities(run.finalAmounts, req.initial, req.goalAmount, total))
  }

  /** When every return of every path is `r`, every final amount is what
      deposits of c·(1 + r) at the end of each month reach at the rate r. */
  lemma ConstantReturnsFinals(initial: real, contribution: real, draws: seq<seq<real>>, r: real, months: nat)
    requires forall i :: 0 <= i < |draws| ==> |draws[i]| == months
    requires forall i, k :: 0 <= i < |draws| && 0 <= k < |draws[i]| ==> draws[i][k] == r
    ensures forall j :: 0 <= j < |draws| ==>
              RunSimulations(initial, contribution, draws).finalAmounts[j]
              == PeriodicDeposits(initial, contribution * (1.0 + r), r, months)
  {
    var run := RunSimulations(initial, contribution, draws);
    forall j | 0 <= j < |draws|
      ensures run.finalAmounts[j] == PeriodicDeposits(initial, contribution * (1.0 + r), r, months)
    {
      var d := draws[j];
      assert forall k :: 0 <= k < |d| ==> d[k] == r;
      PathUnderConstantReturns(initial, contribution, d, r, |d|);
    }
  }

  /** With no risk every return is the mean monthly return, so every path is
      the same deterministic compounding: its final amount is what monthly
      deposits of c·(1 + r) reach at the rate r. */
  lemma RisklessFinals(req: MonteCarloRequest, draws: seq<seq<real>>)
    requires ValidMonteCarloRequest(req) && ReturnsFit(req, draws)
    requires forall i, k :: 0 <= i < |draws| && 0 <= k < |draws[i]| ==>
               draws[i][k] == PrepareParameters(req).monthlyRate
    ensures var r := PrepareParameters(req).monthlyRate;
            forall j :: 0 <= j < req.simulations ==>
              Simulate(req, draws).finalAmounts[j]
              == PeriodicDeposits(req.initial, req.monthly * (1.0 + r), r, 12 * req.years)
  {
    ConstantReturnsFinals(req.initial, req.monthly, draws, PrepareParameters(req).monthlyRate, 12 * req.years);
  }
}
