/**
 * The script-level accumulation loop, as a method over the run's inputs,
 * and what every run it produces satisfies.
 */
module YieldLoop {
  import opened Rates
  import opened Simulation

  datatype Status = ReachedTarget | NonConvergence

  /** What a run leaves behind: the final counters and the four recorded series. */
  datatype SimulationResult = SimulationResult(
    status: Status,
    iterations: nat,
    totalTolueneUsed: real,
    cumulativeMchYield: real,
    remainingToluene: real,
    tolueneUsage: seq<real>,
    mchYields: seq<real>,
    remainingTolueneList: seq<real>,
    efficiencyList: seq<real>)

  /**
   * r records a run of the loop on p: the loop stopped at the first step whose
   * cumulative yield reached the target, or when the cap ran out, and every
   * counter and every series holds the loop's state after r.iterations steps.
   */
  ghost predicate RecordsRun(p: Params, exp: real -> real, cap: Option<nat>, r: SimulationResult)
    requires InputsInRange(p)
    ensures RecordsRun(p, exp, cap, r) && r.status == ReachedTarget ==> r.iterations >= 1
  {
    // stopping condition
    && (r.status == ReachedTarget <==> r.cumulativeMchYield >= p.targetYield)
    && (r.status == NonConvergence ==> cap.Some? && r.iterations == cap.value)
    && (cap.Some? ==> r.iterations <= cap.value)
    && BelowTargetThrough(p, exp, r.iterations)
    // final counters
    && r.totalTolueneUsed == TolueneAfter(p, r.iterations)
    && r.cumulativeMchYield == CumulativeYield(p, exp, r.iterations)
    && r.remainingToluene == RemainingAfter(p, r.iterations)
    // recorded series
    && r.tolueneUsage == TolueneUsage(p, r.iterations)
    && r.mchYields == MchYields(p, exp, r.iterations)
    && r.remainingTolueneList == RemainingTolueneList(p, r.iterations)
    && r.efficiencyList == EfficiencyList(p, exp, r.iterations)
  }

  /**
   * The yield of step k: the yield function at the running toluene total,
   * scaled by selectivity times conversion. It computes StepYield; it is a
   * separate method only to keep the verification condition of Simulate small.
   */
  method AdjustedYield(p: Params, exp: real -> real, a: real, b: real, totalTolueneUsed: real, k: nat)
    returns (mchYieldCurrent: real)
    requires InputsInRange(p)
    requires a == YieldFactor(p) && b == YieldOffset && totalTolueneUsed == TolueneAfter(p, k)
    ensures mchYieldCurrent == StepYield(p, exp, k)
    ensures PositiveExp(exp) ==> mchYieldCurrent >= 0.0
  {
    mchYieldCurrent := SimulateYieldWithHydrogen(a, b, totalTolueneUsed, p.temperature, p.pressure,
                                                 p.hydrogenRatio, exp);
    var effectiveConversionRate := p.selectivity * p.conversionRate;
    mchYieldCurrent := mchYieldCurrent * effectiveConversionRate;
    if PositiveExp(exp) {
      StepYieldNonNegative(p, exp, k);
    }
  }

  /**
   * Runs the accumulation loop until the cumulative yield reaches the target.
   * With cap == None the loop is unbounded, as in the original script, and
   * terminates because every step contributes a positive yield; with
   * cap == Some(c) it gives up after c steps and reports NonConvergence.
   */
  method Simulate(p: Params, exp: real -> real, cap: Option<nat>) returns (r: SimulationResult)
    requires InputsInRange(p)
    requires cap.None? ==> PositiveContribution(p, exp)
    ensures RecordsRun(p, exp, cap, r)
  {
    var a := YieldFactor(p);
    var b := YieldOffset;
    var recyclingRate := RecyclingRate(p);
    var cumulativeMchYield := 0.0;
    var totalTolueneUsed := 0.0;
    var remainingToluene := if p.recyclingEnabled then p.tolueneFlowRate * (1.0 - recyclingRate) else 0.0;
    var iterations: nat := 0;
    var tolueneUsage: seq<real> := [];
    var mchYields: seq<real> := [];
    var remainingTolueneList: seq<real> := [];
    var efficiencyList: seq<real> := [];
    ghost var bound: nat := if cap.None? then StepBound(p, exp) else 0;

    while cumulativeMchYield < p.targetYield && (cap.None? || iterations < cap.value)
      invariant cap.Some? ==> iterations <= cap.value
      invariant cap.None? ==> iterations <= bound
      invariant BelowTargetThrough(p, exp, iterations)
      invariant totalTolueneUsed == TolueneAfter(p, iterations)
      invariant cumulativeMchYield == CumulativeYield(p, exp, iterations)
      invariant remainingToluene == RemainingAfter(p, iterations)
      invariant tolueneUsage == TolueneUsage(p, iterations)
      invariant mchYields == MchYields(p, exp, iterations)
      invariant remainingTolueneList == RemainingTolueneList(p, iterations)
      invariant efficiencyList == EfficiencyList(p, exp, iterations)
      decreases if cap.Some? then cap.value - iterations else bound - iterations
    {
      if cap.None? {
        BelowTargetBeforeBound(p, exp, iterations);
      }
      iterations := iterations + 1;

      totalTolueneUsed := totalTolueneUsed + p.tolueneFlowRate;

      var mchYieldCurrent := AdjustedYield(p, exp, a, b, totalTolueneUsed, iterations);

      cumulativeMchYield := cumulativeMchYield + mchYieldCurrent;

      if p.recyclingEnabled {
        remainingToluene := remainingToluene + p.tolueneFlowRate * (1.0 - recyclingRate);
      }

      var efficiencyCurrent := Efficiency(mchYieldCurrent, p.tolueneFlowRate, p.maxYieldRatio);

      tolueneUsage := tolueneUsage + [totalTolueneUsed];
      mchYields := mchYields + [cumulativeMchYield];
      if p.recyclingEnabled {
        remainingTolueneList := remainingTolueneList + [remainingToluene];
      }
      efficiencyList := efficiencyList + [efficiencyCurrent];
    }

    var status := if cumulativeMchYield >= p.targetYield then ReachedTarget else NonConvergence;
    r := SimulationResult(status, iterations, totalTolueneUsed, cumulativeMchYield, remainingToluene,
                          tolueneUsage, mchYields, remainingTolueneList, efficiencyList);
  }

  // ---------------------------------------------------------------------
  // What every recorded run satisfies

  /** The final counters of a run in closed form. */
  lemma RunCounters(p: Params, exp: real -> real, cap: Option<nat>, r: SimulationResult)
    requires InputsInRange(p) && RecordsRun(p, exp, cap, r)
    ensures r.totalTolueneUsed == r.iterations as real * p.tolueneFlowRate
    ensures p.recyclingEnabled ==>
      r.remainingToluene == (r.iterations + 1) as real * p.tolueneFlowRate * (1.0 - p.recyclingRate)
    ensures !p.recyclingEnabled ==> r.remainingToluene == 0.0
  {
    TolueneAfterClosedForm(p, r.iterations);
    RemainingAfterClosedForm(p, r.iterations);
  }

  /** The recorded series of a run: one entry per step, each the state after that step. */
  lemma RunSeries(p: Params, exp: real -> real, cap: Option<nat>, r: SimulationResult)
    requires InputsInRange(p) && RecordsRun(p, exp, cap, r)
    ensures |r.tolueneUsage| == |r.mchYields| == |r.efficiencyList| == r.iterations
    ensures p.recyclingEnabled ==> |r.remainingTolueneList| == r.iterations
    ensures !p.recyclingEnabled ==> r.remainingTolueneList == []
    ensures forall i :: 0 <= i < r.iterations ==> r.tolueneUsage[i] == (i + 1) as real * p.tolueneFlowRate
    ensures forall i :: 0 <= i < r.iterations ==> r.mchYields[i] == CumulativeYield(p, exp, i + 1)
    ensures forall i :: 0 <= i < r.iterations ==> r.efficiencyList[i] == EfficiencyAt(p, exp, i + 1)
  {
    var n := r.iterations;
    SeriesLengths(p, exp, n);
    TolueneUsageClosedForm(p, n);
    forall i | 0 <= i < n
      ensures r.mchYields[i] == CumulativeYield(p, exp, i + 1)
      ensures r.efficiencyList[i] == EfficiencyAt(p, exp, i + 1)
    {
      SeriesEntries(p, exp, n, i);
    }
  }

  /** With recycling, entry i of the remaining-toluene series counts i + 2 remainders. */
  lemma RunRemainingSeries(p: Params, exp: real -> real, cap: Option<nat>, r: SimulationResult)
    requires InputsInRange(p) && RecordsRun(p, exp, cap, r) && p.recyclingEnabled
    ensures |r.remainingTolueneList| == r.iterations
    ensures forall i :: 0 <= i < r.iterations ==>
      r.remainingTolueneList[i] == (i + 2) as real * p.tolueneFlowRate * (1.0 - p.recyclingRate)
  {
    RemainingListClosedForm(p, r.iterations);
  }

  /**
   * A run stops the first time the cumulative yield reaches the target: every
   * recorded cumulative yield but the last is below it, and the last one
   * reaches it unless the cap ran out.
   */
  lemma RunStopsAtTarget(p: Params, exp: real -> real, cap: Option<nat>, r: SimulationResult)
    requires InputsInRange(p) && RecordsRun(p, exp, cap, r)
    ensures forall k :: 0 <= k < r.iterations ==> CumulativeYield(p, exp, k) < p.targetYield
    ensures |r.mchYields| == r.iterations
    ensures forall i :: 0 <= i < r.iterations - 1 ==> r.mchYields[i] < p.targetYield
    ensures r.status == ReachedTarget ==>
      r.iterations >= 1 && r.mchYields[r.iterations - 1] >= p.targetYield
    ensures r.status == NonConvergence ==> r.cumulativeMchYield < p.targetYield
  {
    var n := r.iterations;
    BelowTargetThroughMeans(p, exp, n);
    SeriesLengths(p, exp, n);
    forall i | 0 <= i < n
      ensures r.mchYields[i] == CumulativeYield(p, exp, i + 1)
      ensures i < n - 1 ==> r.mchYields[i] < p.targetYield
    {
      SeriesEntries(p, exp, n, i);
      if i < n - 1 {
        assert CumulativeYield(p, exp, i + 1) < p.targetYield;
      }
    }
  }

  /** The recorded cumulative yields never decrease, and strictly increase with a positive contribution. */
  lemma RunYieldsMonotone(p: Params, exp: real -> real, cap: Option<nat>, r: SimulationResult)
    requires InputsInRange(p) && PositiveExp(exp) && RecordsRun(p, exp, cap, r)
    ensures |r.mchYields| == r.iterations
    ensures forall i, j :: 0 <= i <= j < r.iterations ==> r.mchYields[i] <= r.mchYields[j]
    ensures PositiveContribution(p, exp) ==>
      forall i, j :: 0 <= i < j < r.iterations ==> r.mchYields[i] < r.mchYields[j]
  {
    var n := r.iterations;
    SeriesLengths(p, exp, n);
    forall i, j | 0 <= i <= j < n
      ensures r.mchYields[i] <= r.mchYields[j]
      ensures PositiveContribution(p, exp) && i < j ==> r.mchYields[i] < r.mchYields[j]
    {
      SeriesEntries(p, exp, n, i);
      SeriesEntries(p, exp, n, j);
      CumulativeYieldMonotone(p, exp, i + 1, j + 1);
      if PositiveContribution(p, exp) && i < j {
        CumulativeYieldIncreasing(p, exp, i + 1, j + 1);
      }
    }
  }

  /**
   * With a positive contribution a run reaches the target within StepBound
   * steps, whenever it is uncapped or its cap is at least StepBound.
   */
  lemma RunConverges(p: Params, exp: real -> real, cap: Option<nat>, r: SimulationResult)
    requires PositiveContribution(p, exp) && RecordsRun(p, exp, cap, r)
    requires cap.Some? ==> cap.value >= StepBound(p, exp)
    ensures r.status == ReachedTarget
    ensures r.iterations <= StepBound(p, exp)
  {
    if r.status == NonConvergence {
      ReachesTargetAfter(p, exp, r.iterations);
    }
    if r.iterations > 0 {
      BelowTargetThroughMeans(p, exp, r.iterations);
      BelowTargetBeforeBound(p, exp, r.iterations - 1);
    }
  }

  /**
   * With zero selectivity or zero conversion nothing is produced, so a
   * (necessarily capped) run always ends in NonConvergence after the whole cap.
   */
  lemma RunWithZeroFactor(p: Params, exp: real -> real, cap: Option<nat>, r: SimulationResult)
    requires InputsInRange(p) && RecordsRun(p, exp, cap, r)
    requires p.selectivity == 0.0 || p.conversionRate == 0.0
    ensures r.status == NonConvergence
    ensures cap.Some? && r.iterations == cap.value
    ensures r.cumulativeMchYield == 0.0
  {
    ZeroFactorYieldsNothing(p, exp, r.iterations);
  }

  /** When the first step alone reaches the target, a run makes exactly one step. */
  lemma RunSingleStep(p: Params, exp: real -> real, cap: Option<nat>, r: SimulationResult)
    requires InputsInRange(p) && RecordsRun(p, exp, cap, r)
    requires StepYield(p, exp, 1) >= p.targetYield
    requires cap.None? || cap.value >= 1
    ensures r.status == ReachedTarget && r.iterations == 1
  {
    BelowTargetThroughMeans(p, exp, r.iterations);
    assert CumulativeYield(p, exp, 1) == StepYield(p, exp, 1);
    if r.iterations >= 2 {
      assert false;
    }
  }
}
