# Toluene hydrogenation yield simulation in Dafny

This project models the computational core of a small Streamlit app that simulates
how toluene is hydrogenated to methylcyclohexane (MCH). The app supplies run
parameters: target MCH yield, toluene increment per step, temperature, pressure,
selectivity, conversion rate, recycling and hydrogen-to-toluene ratio. It then
repeats one accumulation step until the cumulative MCH yield reaches the target.

The model has three modules:

- `Rates` (`rates.dfy`) holds the rate helpers.
  - The Arrhenius temperature factor `A * exp(-Ea / (R * T_k))`, with `A = 1e5`,
    `Ea = 70000`, `R = 8.314` and `T_k = T + 273.15`.
  - The pressure factor: `P / 1` when `P > 0`, otherwise 1.
  - The hydrogen step multiplier: 8.0 for a ratio in `[3, 5]`, otherwise 0.8.
  - The per-step yield function `a * toluene * temp * pressure * hydrogen + b`.
- `Simulation` (`simulation.dfy`) holds the run parameters, the yield factor
  `a = ratio * maxYieldRatio * selectivity * conversion` and the offset `b = 0`.
  It also holds functions giving the loop's state after `n` steps (total toluene,
  step yield, cumulative yield, remaining toluene, efficiency, the four recorded
  series). The lemmas about those functions give closed forms, monotonicity and a
  termination bound.
- `YieldLoop` (`yield_loop.dfy`) holds the loop itself: method `Simulate`, with a
  `while` loop that grows four sequences. `RecordsRun` is the predicate its result
  satisfies. The lemmas beside it state what every recorded run satisfies.

All quantities are exact `real`s. Python's `math.exp` becomes a parameter
`exp: real -> real`. Where a proof needs the exponential to be positive or strictly
increasing, that is a precondition (`PositiveExp`, `IncreasingExp`). The recycling
radio button is the boolean `recyclingEnabled`. `max_yield_ratio` is a parameter
field defaulting to 1.0. The input widgets' bounds are the predicate
`InputsInRange`. It also requires `maxYieldRatio > 0`, which always holds in the
source, where the value is 1.0.

The source loop has no iteration cap. `Simulate` takes `cap: Option<nat>`:

- `cap == None` is the source's unbounded loop. It requires every step to
  contribute a positive yield (selectivity and conversion above 0, a positive
  exponential). Termination is proved from the bound `StepBound`.
- `cap == Some(c)` stops after `c` steps and reports `NonConvergence`.

With recycling, the remaining toluene after `n` steps counts `n + 1` increments of
`flow * (1 - rate)`: the script starts with one (line 53), then adds one per step
(line 90). The script validates nothing itself; its widgets enforce the bounds, so
the model states them as the precondition `InputsInRange`.

## Model

| member | source | states |
|---|---|---|
| `Rates.ToKelvin` | Streamlithydrogenation4.py:11 | definition: T + 273.15; the result is above absolute zero exactly when T > -273.15 |
| `Rates.ArrheniusExponent` | Streamlithydrogenation4.py:8-12 | the exponent -Ea/(R*T_k) is negative for every temperature above 0 K |
| `Rates.TemperatureFactor` | Streamlithydrogenation4.py:6-12 | the Arrhenius factor is strictly positive given a positive exponential |
| `Rates.ArrheniusExponentIncreasing` | Streamlithydrogenation4.py:11-12 | the Arrhenius exponent strictly increases with temperature above 0 K |
| `Rates.TemperatureFactorIncreasing` | Streamlithydrogenation4.py:6-12 | given an increasing exponential, the temperature factor strictly increases with temperature |
| `Rates.PressureFactor` | Streamlithydrogenation4.py:15-18 | the pressure factor is the pressure itself when positive and 1 otherwise, so it is always strictly positive |
| `Rates.HydrogenEffect` | Streamlithydrogenation4.py:68 | the multiplier is one of 8.0 and 0.8, and it is 8.0 exactly when 3.0 <= ratio <= 5.0 (both ends inclusive) |
| `Rates.HydrogenBoundaryJump` | Streamlithydrogenation4.py:68-69 | ratio 3.0 gets the bonus and 2.999 the penalty; with b = 0 the yield at 3.0 is exactly ten times the yield at 2.999 |
| `Rates.SimulateYieldWithHydrogen` | Streamlithydrogenation4.py:63-70 | with a >= 0, toluene >= 0, b >= 0 and a positive exponential the yield is at least b; strictly above b when a and toluene are positive |
| `Rates.YieldScalesWithToluene` | Streamlithydrogenation4.py:69 | with b = 0 the yield is linear in the toluene amount: scaling toluene by c scales the yield by c |
| `Simulation.InputsInRange` | Streamlithydrogenation4.py:24-44 | definition: the bounds of every input widget (target and flow at least 1, 10 <= T <= 900, P >= 0.1, selectivity and conversion in [0, 1], recycling rate in [0, 1], hydrogen ratio in [3, 5]), plus max_yield_ratio > 0 |
| `Simulation.DefaultParams` | Streamlithydrogenation4.py:24-44 | the widgets' default values satisfy every widget bound, with max_yield_ratio 1.0 |
| `Simulation.RecyclingRate` | Streamlithydrogenation4.py:41 | the rate in effect is 0 without recycling, and in [0, 1] for in-range inputs |
| `Simulation.YieldFactor` | Streamlithydrogenation4.py:47 | for in-range inputs a >= 0, and a == 0 exactly when selectivity or conversion is 0 |
| `Simulation.EffectiveConversionRate` | Streamlithydrogenation4.py:83 | for in-range inputs selectivity * conversion lies in [0, 1] |
| `Simulation.RecyclingRemainder` | Streamlithydrogenation4.py:90 | the per-step remainder flow * (1 - rate) lies between 0 and the flow for in-range inputs, and is the whole flow without recycling |
| `Simulation.TolueneAfter` | Streamlithydrogenation4.py:74-77 | definition: the running total after n steps, one flow increment per step; with a positive flow it is positive exactly when at least one step was made |
| `Simulation.StepYield` | Streamlithydrogenation4.py:80-84 | definition: step k's yield at the running total, times selectivity * conversion; it is 0 whenever the yield factor a is 0 |
| `Simulation.CumulativeYield` | Streamlithydrogenation4.py:87 | definition: the sum of the first n step yields; never negative for in-range inputs and a positive exponential |
| `Simulation.RemainingAfter` | Streamlithydrogenation4.py:53-90 | definition: the initial remainder of line 53 plus one per step (line 90) with recycling, 0 without; never negative for in-range inputs |
| `Simulation.Efficiency` | Streamlithydrogenation4.py:93 | with a positive flow, efficiency times (flow * max_yield_ratio) gives back the step's yield; with a non-positive flow it is 0, never a division |
| `Simulation.EfficiencyAt` | Streamlithydrogenation4.py:93 | step k's efficiency times (flow * max_yield_ratio) gives back step k's yield |
| `Simulation.TolueneAfterClosedForm` | Streamlithydrogenation4.py:74-77 | after n steps the total toluene used is n * flow rate |
| `Simulation.RemainingAfterClosedForm` | Streamlithydrogenation4.py:89-90 | with recycling the remaining toluene after n steps is (n+1) * flow * (1 - rate), counting the initial offset of line 53; without recycling it stays 0 |
| `Simulation.StepYieldLinear` | Streamlithydrogenation4.py:80-84 | the adjusted yield of step k is k times that of step 1 |
| `Simulation.CumulativeYieldClosedForm` | Streamlithydrogenation4.py:80-87 | twice the cumulative yield after n steps is n(n+1) times the first step's yield (quadratic growth) |
| `Simulation.StepYieldNonNegative` | Streamlithydrogenation4.py:83-84 | for in-range inputs every step's adjusted yield is >= 0 |
| `Simulation.StepYieldPositive` | Streamlithydrogenation4.py:83-84 | with selectivity and conversion above 0 every step's adjusted yield is > 0 |
| `Simulation.CumulativeYieldMonotone` | Streamlithydrogenation4.py:87 | the cumulative yield never decreases from one step to a later one |
| `Simulation.CumulativeYieldIncreasing` | Streamlithydrogenation4.py:87 | with a positive contribution the cumulative yield strictly increases |
| `Simulation.ZeroFactorYieldsNothing` | Streamlithydrogenation4.py:47 | with a zero yield factor the cumulative yield is 0 after any number of steps |
| `Simulation.StepBound` | Streamlithydrogenation4.py:73 | the termination bound floor(target / first step yield) + 1 is at least one step |
| `Simulation.CumulativeYieldAtLeastLinear` | Streamlithydrogenation4.py:87 | the cumulative yield after n steps is at least n times the first step's yield |
| `Simulation.ReachesTarget` | Streamlithydrogenation4.py:73 | after StepBound steps the cumulative yield has reached the target |
| `Simulation.ReachesTargetAfter` | Streamlithydrogenation4.py:73 | from StepBound steps on, the cumulative yield stays at or above the target |
| `Simulation.BelowTargetBeforeBound` | Streamlithydrogenation4.py:73 | any step count whose cumulative yield is still below target is below StepBound |
| `Simulation.TolueneUsage` | Streamlithydrogenation4.py:96 | definition: the total toluene used after each of the first n steps, in step order |
| `Simulation.MchYields` | Streamlithydrogenation4.py:97 | definition: the cumulative MCH yield after each of the first n steps, in step order |
| `Simulation.RemainingTolueneList` | Streamlithydrogenation4.py:99-100 | definition: the remaining toluene after each of the first n steps with recycling; empty without recycling |
| `Simulation.EfficiencyList` | Streamlithydrogenation4.py:102 | definition: the efficiency of each of the first n steps, in step order |
| `Simulation.BelowTargetThroughMeans` | Streamlithydrogenation4.py:73 | the recursive "below target so far" predicate holds exactly when every earlier cumulative yield is below target (both directions) |
| `Simulation.SeriesLengths` | Streamlithydrogenation4.py:96-102 | the toluene, yield and efficiency series have one entry per step; the remaining-toluene series has one per step with recycling and none without |
| `Simulation.SeriesEntries` | Streamlithydrogenation4.py:96-102 | entry i of every series is the corresponding state after step i+1 |
| `Simulation.TolueneUsageClosedForm` | Streamlithydrogenation4.py:96 | entry i of the toluene series is (i+1) * flow rate |
| `Simulation.RemainingListClosedForm` | Streamlithydrogenation4.py:99-100 | with recycling, entry i of the remaining-toluene series is (i+2) * flow * (1 - rate) |
| `YieldLoop.RecordsRun` | Streamlithydrogenation4.py:73-102 | definition of a recorded run: stopped at the first reach of the target or when the cap ran out, every counter and series equal to the state after that many steps; a run that reached the target made at least one step |
| `YieldLoop.AdjustedYield` | Streamlithydrogenation4.py:80-84 | the step's computed yield is the adjusted yield of that step, and it is >= 0 given a positive exponential |
| `YieldLoop.Simulate` | Streamlithydrogenation4.py:73-102 | the loop returns a result satisfying RecordsRun: it stops at the first reach of the target or when the cap runs out, and every counter and series equals the state after that many steps |
| `YieldLoop.RunCounters` | Streamlithydrogenation4.py:74-90 | a run's final total toluene is iterations * flow; with recycling the remainder is (iterations+1) * flow * (1 - rate), without it 0 |
| `YieldLoop.RunSeries` | Streamlithydrogenation4.py:96-102 | toluene_usage, mch_yields and efficiency_list all have length iterations; entry i holds (i+1) * flow, the cumulative yield after step i+1 and that step's efficiency; no remaining-toluene entries without recycling |
| `YieldLoop.RunRemainingSeries` | Streamlithydrogenation4.py:99-100 | with recycling the remaining-toluene series has one entry per step, entry i being (i+2) * flow * (1 - rate) |
| `YieldLoop.RunStopsAtTarget` | Streamlithydrogenation4.py:73-97 | every recorded cumulative yield except the last is below target; the last reaches it unless the cap ran out |
| `YieldLoop.RunYieldsMonotone` | Streamlithydrogenation4.py:84-97 | the recorded cumulative yields are non-decreasing, and strictly increasing with a positive contribution |
| `YieldLoop.RunConverges` | Streamlithydrogenation4.py:73 | with a positive contribution a run that is uncapped, or has a cap of at least StepBound, reaches the target within StepBound steps |
| `YieldLoop.RunWithZeroFactor` | Streamlithydrogenation4.py:47-73 | with zero selectivity or conversion a run produces nothing and ends in NonConvergence after the whole cap |
| `YieldLoop.RunSingleStep` | Streamlithydrogenation4.py:73-87 | when the first step's yield already reaches the target, the run stops after exactly one step |

## Left out

- Input widgets (lines 21-44) and the "Yes"/"No" radio-button comparison: user interface. Recycling is a boolean and the widget bounds are the precondition `InputsInRange`.
- Plotting with Matplotlib and `st.pyplot` (lines 105-142): presentation in a foreign library. The model only exposes the series they plot.
- The `try/except NameError` probe for `max_yield_ratio` (lines 30-33): runtime probing of globals. It becomes a parameter field with default 1.0.
- The value of `math.exp`: Dafny has no exponential. It is a parameter, so no concrete numeric outcome that depends on it is proved. In particular the claim that the default inputs finish in one step is not proved. `YieldLoop.RunSingleStep` states the conditional form: one step whenever the first step's yield reaches the target.
- IEEE floating-point rounding: every quantity is an exact real. The model makes no accuracy claim. In particular `total_toluene_used` is exactly `n * flow` here, while repeated float addition may drift.
- `YieldLoop.Simulate`: the iteration cap is an addition. It is the hardening that replaces the source's hang. With `cap == None` the method is the source's loop, and it requires a positive per-step contribution, because otherwise the source never terminates.

## Findings

| source | as written | input that shows it | evidently intended | confidence | as-written member | corrected member |
|---|---|---|---|---|---|---|
| Streamlithydrogenation4.py:73 | the loop `while cumulative_mch_yield < target_mch_yield` has no exit other than reaching the target | selectivity 0.0 or conversion rate 0.0, both allowed by the widgets (lines 36-37): a is 0, every step adds 0, and the target of at least 1 is never reached | the simulation ends and reports that the target cannot be reached | not executed | `Simulation.ZeroFactorYieldsNothing` | `YieldLoop.RunWithZeroFactor` |
