/**
 * The yield-accumulation loop of the hydrogenation simulation.
 *
 * Every step adds a fixed toluene increment, computes the step's yield
 * (the yield function of module Rates scaled by selectivity times
 * conversion), adds it to the cumulative MCH yield, accrues a recycling
 * remainder when recycling is enabled, computes the step's efficiency and
 * appends to the recorded series. The loop stops the first time the
 * cumulative yield reaches the target.
 *
 * The functions TolueneAfter, StepYield, CumulativeYield, RemainingAfter and
 * EfficiencyAt give the loop's state after n steps; the lemmas state closed
 * forms, monotonicity and termination for them, and method Simulate is
 * proved to compute them.
 */
module Simulation {
  import opened Rates

  datatype Option<T> = None | Some(value: T)

  /** The inputs of one run; maxYieldRatio defaults to 1.0. */
  datatype Params = Params(
    targetYield: real,
    tolueneFlowRate: real,
    temperature: real,
    pressure: real,
    selectivity: real,
    conversionRate: real,
    recyclingEnabled: bool,
    recyclingRate: real,
    hydrogenRatio: real,
    maxYieldRatio: real := DefaultMaxYieldRatio)

  const DefaultMaxYieldRatio: real := 1.0

  /** The constant offset b of the yield function. */
  const YieldOffset: real := 0.0

  /** The bounds the input form enforces on every field. */
  predicate InputsInRange(p: Params) {
    && p.targetYield >= 1.0
    && p.tolueneFlowRate >= 1.0
    && 10.0 <= p.temperature <= 900.0
    && p.pressure >= 0.1
    && 0.0 <= p.selectivity <= 1.0
    && 0.0 <= p.conversionRate <= 1.0
    && (p.recyclingEnabled ==> 0.0 <= p.recyclingRate <= 1.0)
    && InHydrogenRange(p.hydrogenRatio)
    && p.maxYieldRatio > 0.0
  }

  /** The defaults the input form starts from (recycling enabled). */
  function DefaultParams(): (p: Params)
    ensures InputsInRange(p) && p.maxYieldRatio == 1.0
  {
    Params(95000.0, 60000.0, 200.0, 10.0, 0.95, 0.9, true, 0.85, 4.0)
  }

  /** Inputs under which every step adds a strictly positive yield. */
  ghost predicate PositiveContribution(p: Params, exp: real -> real) {
    InputsInRange(p) && PositiveExp(exp) && p.selectivity > 0.0 && p.conversionRate > 0.0
  }

  /** The recycling rate in effect: the entered one, or 0 without recycling. */
  function RecyclingRate(p: Params): (r: real)
    ensures !p.recyclingEnabled ==> r == 0.0
    ensures InputsInRange(p) ==> 0.0 <= r <= 1.0
  {
    if p.recyclingEnabled then p.recyclingRate else 0.0
  }

  /** The yield factor a: hydrogen ratio * max yield ratio * selectivity * conversion. */
  function YieldFactor(p: Params): (a: real)
    ensures InputsInRange(p) ==> a >= 0.0
    ensures InputsInRange(p) ==> (a == 0.0 <==> p.selectivity == 0.0 || p.conversionRate == 0.0)
  {
    var s := p.selectivity * p.conversionRate;
    UnitProduct(p.selectivity, p.conversionRate);
    assert InputsInRange(p) ==> s >= 0.0;
    assert InputsInRange(p) ==> (p.hydrogenRatio * p.maxYieldRatio > 0.0);
    assert InputsInRange(p) ==> (s == 0.0 <==> p.selectivity == 0.0 || p.conversionRate == 0.0);
    assert p.hydrogenRatio * p.maxYieldRatio * p.selectivity * p.conversionRate
        == (p.hydrogenRatio * p.maxYieldRatio) * s;
    p.hydrogenRatio * p.maxYieldRatio * p.selectivity * p.conversionRate
  }

  /** selectivity * conversion, which scales every step's yield. */
  function EffectiveConversionRate(p: Params): (r: real)
    ensures InputsInRange(p) ==> 0.0 <= r <= 1.0
  {
    UnitProduct(p.selectivity, p.conversionRate);
    p.selectivity * p.conversionRate
  }

  lemma UnitProduct(x: real, y: real)
    ensures 0.0 <= x <= 1.0 && 0.0 <= y <= 1.0 ==> 0.0 <= x * y <= 1.0
  {
    if 0.0 <= x <= 1.0 && 0.0 <= y <= 1.0 {
      var z := 1.0 - x;
      assert z * y >= 0.0;
      assert z * y == y - x * y;
    }
  }

  /** The toluene left over per step after recycling. */
  function RecyclingRemainder(p: Params): (r: real)
    ensures InputsInRange(p) ==> 0.0 <= r <= p.tolueneFlowRate
    ensures !p.recyclingEnabled ==> r == p.tolueneFlowRate
  {
    var keep := 1.0 - RecyclingRate(p);
    assert InputsInRange(p) ==> p.tolueneFlowRate * keep <= p.tolueneFlowRate * 1.0;
    p.tolueneFlowRate * keep
  }

  /** Total toluene used after n steps: each step adds the flow rate. */
  function TolueneAfter(p: Params, n: nat): (t: real)
    ensures p.tolueneFlowRate > 0.0 ==> (t > 0.0 <==> n > 0)
  {
    if n == 0 then 0.0 else TolueneAfter(p, n - 1) + p.tolueneFlowRate
  }

  /** The adjusted yield of step k (k >= 1). */
  function StepYield(p: Params, exp: real -> real, k: nat): (y: real)
    requires ToKelvin(p.temperature) != 0.0
    ensures YieldFactor(p) == 0.0 ==> y == 0.0
  {
    SimulateYieldWithHydrogen(YieldFactor(p), YieldOffset, TolueneAfter(p, k),
                              p.temperature, p.pressure, p.hydrogenRatio, exp)
    * EffectiveConversionRate(p)
  }

  /** Cumulative MCH yield after n steps. */
  function CumulativeYield(p: Params, exp: real -> real, n: nat): (c: real)
    requires ToKelvin(p.temperature) != 0.0
    ensures InputsInRange(p) && PositiveExp(exp) ==> c >= 0.0
  {
    if n == 0 then 0.0
    else
      var c := CumulativeYield(p, exp, n - 1) + StepYield(p, exp, n);
      StepYieldNonNegative(p, exp, n);
      c
  }

  /** Remaining toluene after n steps: an initial offset, then one remainder per step. */
  function RemainingAfter(p: Params, n: nat): (r: real)
    ensures InputsInRange(p) ==> r >= 0.0
  {
    if n == 0 then
      (if p.recyclingEnabled then RecyclingRemainder(p) else 0.0)
    else if p.recyclingEnabled then
      RemainingAfter(p, n - 1) + RecyclingRemainder(p)
    else
      RemainingAfter(p, n - 1)
  }

  /** The efficiency of one step: its yield per unit of flow times max yield ratio. */
  function Efficiency(stepYield: real, flow: real, maxYieldRatio: real): (e: real)
    requires flow > 0.0 ==> maxYieldRatio != 0.0
    ensures flow > 0.0 ==> e * (flow * maxYieldRatio) == stepYield
    ensures flow <= 0.0 ==> e == 0.0
  {
    if flow > 0.0 then stepYield / (flow * maxYieldRatio) else 0.0
  }

  /** The efficiency of step k, which turns back into the step's yield. */
  function EfficiencyAt(p: Params, exp: real -> real, k: nat): (e: real)
    requires InputsInRange(p)
    ensures e * (p.tolueneFlowRate * p.maxYieldRatio) == StepYield(p, exp, k)
  {
    Efficiency(StepYield(p, exp, k), p.tolueneFlowRate, p.maxYieldRatio)
  }

  // ---------------------------------------------------------------------
  // Closed forms

  lemma {:induction false} TolueneAfterClosedForm(p: Params, n: nat)
    ensures TolueneAfter(p, n) == n as real * p.tolueneFlowRate
  {
    if n > 0 {
      TolueneAfterClosedForm(p, n - 1);
      assert (n - 1) as real * p.tolueneFlowRate + p.tolueneFlowRate
          == n as real * p.tolueneFlowRate;
    }
  }

  /** With recycling, the remainder after n steps counts n + 1 increments; without, it is 0. */
  lemma {:induction false} RemainingAfterClosedForm(p: Params, n: nat)
    ensures p.recyclingEnabled ==>
      RemainingAfter(p, n) == (n + 1) as real * p.tolueneFlowRate * (1.0 - p.recyclingRate)
    ensures !p.recyclingEnabled ==> RemainingAfter(p, n) == 0.0
  {
    if n > 0 {
      RemainingAfterClosedForm(p, n - 1);
      if p.recyclingEnabled {
        var r := p.tolueneFlowRate * (1.0 - p.recyclingRate);
        assert n as real * p.tolueneFlowRate * (1.0 - p.recyclingRate) == n as real * r;
        assert (n + 1) as real * p.tolueneFlowRate * (1.0 - p.recyclingRate) == (n + 1) as real * r;
      }
    }
  }

  /** Step k's yield is k times the first step's. */
  lemma StepYieldLinear(p: Params, exp: real -> real, k: nat)
    requires ToKelvin(p.temperature) != 0.0
    ensures StepYield(p, exp, k) == k as real * StepYield(p, exp, 1)
  {
    TolueneAfterClosedForm(p, k);
    TolueneAfterClosedForm(p, 1);
    YieldScalesWithToluene(YieldFactor(p), k as real, p.tolueneFlowRate,
                           p.temperature, p.pressure, p.hydrogenRatio, exp);
  }

  /** Twice the cumulative yield after n steps is n(n+1) times the first step's yield. */
  lemma {:induction false} CumulativeYieldClosedForm(p: Params, exp: real -> real, n: nat)
    requires ToKelvin(p.temperature) != 0.0
    ensures 2.0 * CumulativeYield(p, exp, n) == n as real * (n as real + 1.0) * StepYield(p, exp, 1)
  {
    if n > 0 {
      CumulativeYieldClosedForm(p, exp, n - 1);
      StepYieldLinear(p, exp, n);
      var m, y1 := n as real, StepYield(p, exp, 1);
      assert (m - 1.0) * m * y1 + 2.0 * (m * y1) == m * (m + 1.0) * y1;
    }
  }

  // ---------------------------------------------------------------------
  // Signs and monotonicity

  lemma StepYieldNonNegative(p: Params, exp: real -> real, k: nat)
    requires ToKelvin(p.temperature) != 0.0
    ensures InputsInRange(p) && PositiveExp(exp) ==> StepYield(p, exp, k) >= 0.0
  {
    if InputsInRange(p) && PositiveExp(exp) {
      TolueneAfterClosedForm(p, k);
      var y := SimulateYieldWithHydrogen(YieldFactor(p), YieldOffset, TolueneAfter(p, k),
                                         p.temperature, p.pressure, p.hydrogenRatio, exp);
      assert y >= 0.0;
    }
  }

  lemma StepYieldPositive(p: Params, exp: real -> real, k: nat)
    requires PositiveContribution(p, exp) && k >= 1
    ensures StepYield(p, exp, k) > 0.0
  {
    TolueneAfterClosedForm(p, k);
    var y := SimulateYieldWithHydrogen(YieldFactor(p), YieldOffset, TolueneAfter(p, k),
                                       p.temperature, p.pressure, p.hydrogenRatio, exp);
    assert y > 0.0;
    assert EffectiveConversionRate(p) == p.selectivity * p.conversionRate;
    assert EffectiveConversionRate(p) > 0.0;
  }

  /** The cumulative yield never decreases from step to step. */
  lemma {:induction false} CumulativeYieldMonotone(p: Params, exp: real -> real, m: nat, n: nat)
    requires InputsInRange(p) && PositiveExp(exp) && m <= n
    ensures CumulativeYield(p, exp, m) <= CumulativeYield(p, exp, n)
  {
    if m < n {
      CumulativeYieldMonotone(p, exp, m, n - 1);
      StepYieldNonNegative(p, exp, n);
    }
  }

  /** With a positive contribution, the cumulative yield strictly increases. */
  lemma {:induction false} CumulativeYieldIncreasing(p: Params, exp: real -> real, m: nat, n: nat)
    requires PositiveContribution(p, exp) && m < n
    ensures CumulativeYield(p, exp, m) < CumulativeYield(p, exp, n)
  {
    CumulativeYieldMonotone(p, exp, m, n - 1);
    StepYieldPositive(p, exp, n);
  }

  /** With a zero yield factor nothing is ever produced. */
  lemma {:induction false} ZeroFactorYieldsNothing(p: Params, exp: real -> real, n: nat)
    requires ToKelvin(p.temperature) != 0.0 && YieldFactor(p) == 0.0
    ensures CumulativeYield(p, exp, n) == 0.0
  {
    if n > 0 {
      ZeroFactorYieldsNothing(p, exp, n - 1);
    }
  }

  // ---------------------------------------------------------------------
  // Termination

  /** A number of steps after which the target is certainly reached. */
  function StepBound(p: Params, exp: real -> real): (n: nat)
    requires PositiveContribution(p, exp)
    ensures n >= 1
  {
    StepYieldPositive(p, exp, 1);
    var q := p.targetYield / StepYield(p, exp, 1);
    assert q > 0.0;
    (q.Floor + 1) as nat
  }

  /** The cumulative yield after n steps is at least n times the first step's yield. */
  lemma {:induction false} CumulativeYieldAtLeastLinear(p: Params, exp: real -> real, n: nat)
    requires InputsInRange(p) && PositiveExp(exp)
    ensures CumulativeYield(p, exp, n) >= n as real * StepYield(p, exp, 1)
  {
    if n > 0 {
      CumulativeYieldAtLeastLinear(p, exp, n - 1);
      StepYieldLinear(p, exp, n);
      StepYieldNonNegative(p, exp, 1);
      var y1 := StepYield(p, exp, 1);
      assert (n - 1) as real * y1 + n as real * y1 >= n as real * y1;
    }
  }

  /** After StepBound steps the cumulative yield has reached the target. */
  lemma ReachesTarget(p: Params, exp: real -> real)
    requires PositiveContribution(p, exp)
    ensures CumulativeYield(p, exp, StepBound(p, exp)) >= p.targetYield
  {
    var n := StepBound(p, exp);
    var y1 := StepYield(p, exp, 1);
    StepYieldPositive(p, exp, 1);
    var q := p.targetYield / y1;
    assert n as real > q;
    CumulativeYieldAtLeastLinear(p, exp, n);
    AboveQuotient(CumulativeYield(p, exp, n), n as real, y1, p.targetYield);
  }

  /** c >= n * y with n above t / y gives c >= t. */
  lemma AboveQuotient(c: real, n: real, y: real, t: real)
    requires y > 0.0 && n > t / y && c >= n * y
    ensures c >= t
  {
    var q := t / y;
    assert q * y == t;
    assert (n - q) * y > 0.0;
    assert n * y == q * y + (n - q) * y;
  }

  /** From StepBound steps on, the cumulative yield stays at or above the target. */
  lemma ReachesTargetAfter(p: Params, exp: real -> real, n: nat)
    requires PositiveContribution(p, exp) && n >= StepBound(p, exp)
    ensures CumulativeYield(p, exp, n) >= p.targetYield
  {
    ReachesTarget(p, exp);
    CumulativeYieldMonotone(p, exp, StepBound(p, exp), n);
  }

  /** While the target is not reached, fewer than StepBound steps have been made. */
  lemma BelowTargetBeforeBound(p: Params, exp: real -> real, n: nat)
    requires PositiveContribution(p, exp)
    requires CumulativeYield(p, exp, n) < p.targetYield
    ensures n < StepBound(p, exp)
  {
    ReachesTarget(p, exp);
    if n >= StepBound(p, exp) {
      CumulativeYieldMonotone(p, exp, StepBound(p, exp), n);
    }
  }

  // ---------------------------------------------------------------------
  // The recorded series after n steps

  /** Total toluene used after each of the first n steps. */
  function TolueneUsage(p: Params, n: nat): seq<real> {
    if n == 0 then [] else TolueneUsage(p, n - 1) + [TolueneAfter(p, n)]
  }

  /** Cumulative yield after each of the first n steps. */
  function MchYields(p: Params, exp: real -> real, n: nat): seq<real>
    requires ToKelvin(p.temperature) != 0.0
  {
    if n == 0 then [] else MchYields(p, exp, n - 1) + [CumulativeYield(p, exp, n)]
  }

  /** Efficiency of each of the first n steps. */
  function EfficiencyList(p: Params, exp: real -> real, n: nat): seq<real>
    requires InputsInRange(p)
  {
    if n == 0 then [] else EfficiencyList(p, exp, n - 1) + [EfficiencyAt(p, exp, n)]
  }

  /** Remaining toluene after each of the first n steps; nothing is recorded without recycling. */
  function RemainingTolueneList(p: Params, n: nat): seq<real> {
    if n == 0 || !p.recyclingEnabled then []
    else RemainingTolueneList(p, n - 1) + [RemainingAfter(p, n)]
  }

  /** Every cumulative yield before step n was below the target. */
  predicate BelowTargetThrough(p: Params, exp: real -> real, n: nat)
    requires ToKelvin(p.temperature) != 0.0
  {
    n == 0 || (BelowTargetThrough(p, exp, n - 1) && CumulativeYield(p, exp, n - 1) < p.targetYield)
  }

  lemma {:induction false} BelowTargetThroughMeans(p: Params, exp: real -> real, n: nat)
    requires ToKelvin(p.temperature) != 0.0
    ensures BelowTargetThrough(p, exp, n) <==>
      forall k: nat :: k < n ==> CumulativeYield(p, exp, k) < p.targetYield
  {
    if forall k: nat :: k < n ==> CumulativeYield(p, exp, k) < p.targetYield {
      BelowTargetThroughFromAll(p, exp, n);
    } else {
      var k: nat :| k < n && CumulativeYield(p, exp, k) >= p.targetYield;
      NotBelowTargetThrough(p, exp, n, k);
    }
  }

  /** One direction: a step k < n at or above target rules out "below target through n". */
  lemma {:induction false} NotBelowTargetThrough(p: Params, exp: real -> real, n: nat, k: nat)
    requires ToKelvin(p.temperature) != 0.0
    requires k < n && CumulativeYield(p, exp, k) >= p.targetYield
    ensures !BelowTargetThrough(p, exp, n)
  {
    if k < n - 1 {
      NotBelowTargetThrough(p, exp, n - 1, k);
    }
  }

  /** The other direction: below target at every k < n gives below target through n. */
  lemma {:induction false} BelowTargetThroughFromAll(p: Params, exp: real -> real, n: nat)
    requires ToKelvin(p.temperature) != 0.0
    requires forall k: nat :: k < n ==> CumulativeYield(p, exp, k) < p.targetYield
    ensures BelowTargetThrough(p, exp, n)
  {
    if n > 0 {
      BelowTargetThroughFromAll(p, exp, n - 1);
      assert CumulativeYield(p, exp, n - 1) < p.targetYield;
    }
  }

  /** The four series grow by one entry per step (the remaining-toluene one only with recycling). */
  lemma {:induction false} SeriesLengths(p: Params, exp: real -> real, n: nat)
    requires InputsInRange(p)
    ensures |TolueneUsage(p, n)| == |MchYields(p, exp, n)| == |EfficiencyList(p, exp, n)| == n
    ensures |RemainingTolueneList(p, n)| == if p.recyclingEnabled then n else 0
  {
    if n > 0 {
      SeriesLengths(p, exp, n - 1);
    }
  }

  /** Entry i of the toluene series is i + 1 flow increments. */
  lemma TolueneUsageClosedForm(p: Params, n: nat)
    ensures |TolueneUsage(p, n)| == n
    ensures forall i :: 0 <= i < n ==> TolueneUsage(p, n)[i] == (i + 1) as real * p.tolueneFlowRate
  {
    TolueneUsageLength(p, n);
    forall i | 0 <= i < n
      ensures TolueneUsage(p, n)[i] == (i + 1) as real * p.tolueneFlowRate
    {
      TolueneUsageEntry(p, n, i);
      TolueneAfterClosedForm(p, i + 1);
    }
  }

  lemma {:induction false} TolueneUsageLength(p: Params, n: nat)
    ensures |TolueneUsage(p, n)| == n
  {
    if n > 0 {
      TolueneUsageLength(p, n - 1);
    }
  }

  lemma {:induction false} TolueneUsageEntry(p: Params, n: nat, i: nat)
    requires i < n
    ensures |TolueneUsage(p, n)| == n && TolueneUsage(p, n)[i] == TolueneAfter(p, i + 1)
  {
    TolueneUsageLength(p, n);
    TolueneUsageLength(p, n - 1);
    if i < n - 1 {
      TolueneUsageEntry(p, n - 1, i);
    }
  }

  /** With recycling, entry i of the remaining-toluene series counts i + 2 remainders. */
  lemma RemainingListClosedForm(p: Params, n: nat)
    requires p.recyclingEnabled
    ensures |RemainingTolueneList(p, n)| == n
    ensures forall i :: 0 <= i < n ==>
      RemainingTolueneList(p, n)[i] == (i + 2) as real * p.tolueneFlowRate * (1.0 - p.recyclingRate)
  {
    RemainingListLength(p, n);
    forall i | 0 <= i < n
      ensures RemainingTolueneList(p, n)[i] == (i + 2) as real * p.tolueneFlowRate * (1.0 - p.recyclingRate)
    {
      RemainingListEntry(p, n, i);
      RemainingAfterClosedForm(p, i + 1);
    }
  }

  lemma {:induction false} RemainingListLength(p: Params, n: nat)
    requires p.recyclingEnabled
    ensures |RemainingTolueneList(p, n)| == n
  {
    if n > 0 {
      RemainingListLength(p, n - 1);
    }
  }

  lemma {:induction false} RemainingListEntry(p: Params, n: nat, i: nat)
    requires p.recyclingEnabled && i < n
    ensures |RemainingTolueneList(p, n)| == n && RemainingTolueneList(p, n)[i] == RemainingAfter(p, i + 1)
  {
    RemainingListLength(p, n);
    RemainingListLength(p, n - 1);
    if i < n - 1 {
      RemainingListEntry(p, n - 1, i);
    }
  }

  /** Entry i of every series is the state after step i + 1. */
  lemma {:induction false} SeriesEntries(p: Params, exp: real -> real, n: nat, i: nat)
    requires InputsInRange(p) && i < n
    ensures |TolueneUsage(p, n)| == |MchYields(p, exp, n)| == |EfficiencyList(p, exp, n)| == n
    ensures TolueneUsage(p, n)[i] == TolueneAfter(p, i + 1)
    ensures MchYields(p, exp, n)[i] == CumulativeYield(p, exp, i + 1)
    ensures EfficiencyList(p, exp, n)[i] == EfficiencyAt(p, exp, i + 1)
    ensures p.recyclingEnabled ==>
      |RemainingTolueneList(p, n)| == n && RemainingTolueneList(p, n)[i] == RemainingAfter(p, i + 1)
  {
    SeriesLengths(p, exp, n);
    if i < n - 1 {
      SeriesEntries(p, exp, n - 1, i);
      SeriesLengths(p, exp, n - 1);
    } else {
      SeriesLengths(p, exp, n - 1);
    }
  }
}
