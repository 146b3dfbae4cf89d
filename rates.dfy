/**
 * Rate helpers of the toluene-to-methylcyclohexane (MCH) hydrogenation
 * simulation: an Arrhenius temperature factor, a pressure factor, the
 * hydrogen-to-toluene step multiplier and the per-step yield function that
 * combines them.
 *
 * All quantities are exact reals. The exponential function is not available
 * in Dafny, so it is passed in as a function `exp` and only the properties
 * the proofs need (positivity, strict monotonicity) are assumed of it, as
 * preconditions.
 */
module Rates {

  /** Arrhenius pre-exponential factor A. */
  const PreExponentialFactor: real := 100000.0
  /** Activation energy Ea, in J/mol. */
  const ActivationEnergy: real := 70000.0
  /** Gas constant R, in J/(mol K). */
  const GasConstant: real := 8.314
  /** Offset from degrees Celsius to Kelvin. */
  const KelvinOffset: real := 273.15
  /** Standard pressure, in bar. */
  const StandardPressure: real := 1.0

  /** The hydrogen multiplier inside the favourable ratio range, and outside it. */
  const HydrogenBonus: real := 8.0
  const HydrogenPenalty: real := 0.8
  /** The favourable hydrogen-to-toluene ratio range, inclusive at both ends. */
  const HydrogenRatioLow: real := 3.0
  const HydrogenRatioHigh: real := 5.0

  /** What the proofs assume of the exponential function. */
  ghost predicate PositiveExp(exp: real -> real) {
    forall x :: exp(x) > 0.0
  }

  ghost predicate IncreasingExp(exp: real -> real) {
    forall x, y :: x < y ==> exp(x) < exp(y)
  }

  /** Degrees Celsius to Kelvin; above absolute zero exactly when t > -273.15. */
  function ToKelvin(t: real): (k: real)
    ensures k > 0.0 <==> t > -KelvinOffset
    ensures k - t == KelvinOffset
  {
    t + KelvinOffset
  }

  /** The exponent -Ea / (R * T_k) of the Arrhenius equation; undefined at 0 K. */
  function ArrheniusExponent(t: real): (x: real)
    requires ToKelvin(t) != 0.0
    ensures ToKelvin(t) > 0.0 ==> x < 0.0
  {
    -ActivationEnergy / (GasConstant * ToKelvin(t))
  }

  /** A * exp(-Ea / (R * T_k)) for a temperature t in degrees Celsius. */
  function TemperatureFactor(t: real, exp: real -> real): (f: real)
    requires ToKelvin(t) != 0.0
    ensures PositiveExp(exp) ==> f > 0.0
  {
    PreExponentialFactor * exp(ArrheniusExponent(t))
  }

  /** The pressure factor: the pressure relative to standard pressure, or 1 as a fallback. */
  function PressureFactor(p: real): (f: real)
    ensures f > 0.0
    ensures p > 0.0 ==> f == p
    ensures p <= 0.0 ==> f == 1.0
  {
    if p > 0.0 then p / StandardPressure else 1.0
  }

  predicate InHydrogenRange(ratio: real) {
    HydrogenRatioLow <= ratio <= HydrogenRatioHigh
  }

  /** Step multiplier: a bonus inside the favourable range, a penalty outside. */
  function HydrogenEffect(ratio: real): (h: real)
    ensures h > 0.0
    ensures h == HydrogenBonus || h == HydrogenPenalty
    ensures h == HydrogenBonus <==> InHydrogenRange(ratio)
  {
    if InHydrogenRange(ratio) then HydrogenBonus else HydrogenPenalty
  }

  /**
   * Yield for a total toluene amount, given the yield factor a and the
   * offset b of the run: a * toluene * temperature * pressure * hydrogen + b.
   */
  function SimulateYieldWithHydrogen(a: real, b: real, tolueneUsed: real, t: real, p: real,
                                     ratio: real, exp: real -> real): (y: real)
    requires ToKelvin(t) != 0.0
    ensures PositiveExp(exp) && a >= 0.0 && tolueneUsed >= 0.0 && b >= 0.0 ==> y >= b
    ensures PositiveExp(exp) && a > 0.0 && tolueneUsed > 0.0 ==> y > b
  {
    var tempEffect := TemperatureFactor(t, exp);
    var pressureEffect := PressureFactor(p);
    var hydrogenEffect := HydrogenEffect(ratio);
    ProductNonNegative(a, tolueneUsed, tempEffect, pressureEffect, hydrogenEffect);
    a * tolueneUsed * tempEffect * pressureEffect * hydrogenEffect + b
  }

  lemma ProductNonNegative(a: real, x: real, t: real, p: real, h: real)
    requires p > 0.0 && h > 0.0
    ensures a >= 0.0 && x >= 0.0 && t > 0.0 ==> a * x * t * p * h >= 0.0
    ensures a > 0.0 && x > 0.0 && t > 0.0 ==> a * x * t * p * h > 0.0
  {
  }

  /** Without an offset, the yield scales linearly with the toluene amount. */
  lemma YieldScalesWithToluene(a: real, c: real, x: real, t: real, p: real,
                               ratio: real, exp: real -> real)
    requires ToKelvin(t) != 0.0
    ensures SimulateYieldWithHydrogen(a, 0.0, c * x, t, p, ratio, exp)
         == c * SimulateYieldWithHydrogen(a, 0.0, x, t, p, ratio, exp)
  {
  }

  /**
   * The step at the lower end of the hydrogen range: with no offset, a ratio
   * of exactly 3.0 yields ten times what a ratio just below it (2.999) yields.
   */
  lemma HydrogenBoundaryJump(a: real, x: real, t: real, p: real, exp: real -> real)
    requires ToKelvin(t) != 0.0
    ensures HydrogenEffect(3.0) == HydrogenBonus && HydrogenEffect(2.999) == HydrogenPenalty
    ensures SimulateYieldWithHydrogen(a, 0.0, x, t, p, 3.0, exp)
         == 10.0 * SimulateYieldWithHydrogen(a, 0.0, x, t, p, 2.999, exp)
  {
  }

  /** The Arrhenius exponent increases strictly with temperature above 0 K. */
  lemma ArrheniusExponentIncreasing(t1: real, t2: real)
    requires ToKelvin(t1) > 0.0 && t1 < t2
    ensures ArrheniusExponent(t1) < ArrheniusExponent(t2)
  {
  }

  /** The temperature factor increases strictly with temperature above 0 K. */
  lemma TemperatureFactorIncreasing(t1: real, t2: real, exp: real -> real)
    requires IncreasingExp(exp)
    requires ToKelvin(t1) > 0.0 && t1 < t2
    ensures TemperatureFactor(t1, exp) < TemperatureFactor(t2, exp)
  {
  }
}
