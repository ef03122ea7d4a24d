# Five-year flow-shop capacity and cost simulation

The simulator plans five years for a four-stage car flow shop: body shop, paint
shop, engine assembly, final assembly. It runs when the planner presses the run
button. Each year it does the following:

- grows the monthly demand level by a random growth draw;
- draws an inflation rate;
- computes each stage's yearly capacity from its machine count, the available
  hours and a breakdown rate reduced by maintenance;
- picks the bottleneck, the stage with the least capacity;
- raises the bottleneck's capacity by 20 percent in the chosen investment year;
- takes throughput as the least capacity;
- costs the year: machine, labour and setup items, a flat shortage penalty, all
  inflated;
- divides the cost by the units produced, which is throughput capped by demand.

Over the run it accumulates the five-year cost and units, keeps one row per
year, and ends with the five-year average cost per unit.

The project has six modules:

- `Capacity` (`capacity.dfy`): the `Stage` datatype and the capacities
  dictionary. The dictionary is a record with one entry per stage; `Set`
  replaces one entry, as `capacities[bottleneck] *= 1.2` does. The module also
  holds effective breakdown, stage capacity, the bottleneck, the investment and
  throughput.
- `Demand` (`demand.dfy`): the yearly draws, compounding of the monthly demand
  level, and bounds on the growth factor.
- `Costing` (`costing.dfy`): the cost items, the penalty, units produced, and
  division, which fails on a zero denominator.
- `Simulation` (`simulation.dfy`): three layers over the same year step.
  - The pure per-year step `SimulateYear`.
  - The whole run `Simulate`, as a function of the settings and the draws.
  - The imperative loop `RunSimulation`. It keeps the running monthly demand,
    the two accumulators and the row log, and is proved equal to `Simulate`.
    It runs each year's body through `RunYear`, which updates the capacities
    dictionary in place and is proved equal to `SimulateYear`.
- `Arith` (`arith.dfy`): three lemmas about products of reals: `NonNegativeProduct`,
  `PositiveProduct` and `MulMonotone`.
- `Wrappers` (`wrappers.dfy`): the `Option` and `Result` datatypes.

The settings the loop reads but does not define (machine counts, available
hours per month, breakdown probability, maintenance efficiency, overtime, setup
time, investment year, base monthly demand) are a `Params` record. The random
draws are a parameter, one `Draw(growth, inflation)` per year.

Python raises `ZeroDivisionError` on `total_cost / units_produced` and on
`total_5yr_cost / total_5yr_units` when the denominator is zero. The model makes
these an `Err` result: `ZeroUnitsProduced(year)` stops the run at that year, and
`ZeroTotalUnits` covers the average. The division at app.py:67 is unguarded: it
does not floor the units at one, so a year that produces nothing is an error
rather than a cost per unit, and the model follows that. Two lemmas pin this down:

- `ZeroMachineStageFails`: with non-negative hours, a breakdown rate of at most
  one and non-negative demand, a stage without machines makes the year fail.
- `RunCompletes`: the run never fails when all of the following hold:
  - at least one machine per stage;
  - positive available hours;
  - a breakdown probability in [0, 1);
  - maintenance efficiency in [0, 1];
  - a positive base demand;
  - every draw in its sampler's range.

## Model

| member | source | states |
|---|---|---|
| Capacity.EffectiveBreakdownRange | app.py:7 | With breakdown probability and maintenance efficiency in [0,1], the effective breakdown lies in [0, breakdown probability]; full maintenance makes it 0, none leaves it unchanged |
| Capacity.EffectiveBreakdownAntitone | app.py:7 | With a non-negative breakdown probability, more maintenance efficiency never raises the effective breakdown rate |
| Capacity.StageCapacitySign | app.py:33-38 | A stage's capacity is non-negative for non-negative hours and a breakdown rate of at most 1, zero with zero machines, and positive with machines, positive hours and a rate below 1 |
| Capacity.CapacityMonotoneInMachines | app.py:35-38 | With non-negative hours and an effective breakdown rate of at most 1, adding machines to a stage never lowers its capacity |
| Capacity.CapacityMonotoneInMaintenance | app.py:33-38 | With non-negative hours and a non-negative breakdown probability, raising maintenance efficiency never lowers a stage's capacity |
| Capacity.StageCapacitiesPerStage | app.py:40-45 | Each dictionary entry is that stage's machine count at the common hours and breakdown rate; none is negative when hours are non-negative and the rate is at most 1 |
| Capacity.BottleneckIsFirstMinimum | app.py:47 | The bottleneck's capacity is at most every stage's, and every stage before it in Body, Paint, Engine, Final order has strictly more (ties go to the first stage) |
| Capacity.InvestOnlyScalesTarget | app.py:49-51 | Outside the investment year the capacities are unchanged; in it the target's capacity is multiplied by 1.2 and every other stage's is unchanged |
| Capacity.ThroughputIsMinimum | app.py:53 | Throughput is at most every stage's capacity and equals one of them |
| Capacity.ThroughputIsBottleneckCapacity | app.py:47-53 | Before investment, throughput equals the bottleneck's capacity |
| Capacity.ThroughputAfterInvestment | app.py:47-53 | With non-negative capacities, throughput after investing in the bottleneck lies between the old minimum and 1.2 times it; outside the investment year it equals the bottleneck's capacity |
| Capacity.BottleneckExample | app.py:40-53 | Capacities 480, 320, 576, 640 give Paint as the bottleneck and throughput 320 |
| Costing.PenaltyCost | app.py:62 | The penalty is either 0 or 20000, and it is positive exactly when throughput is below yearly demand |
| Costing.PenaltyIsFlat | app.py:59-64 | Any two shortfalls give the same total cost; a shortfall costs exactly 20000 × (1 + inflation) more than meeting demand |
| Costing.TotalCostNonNegative | app.py:59-64 | With non-negative capacities, overtime and setup time, the capacity sum is at least the throughput, and the inflated total cost is non-negative for inflation above -100% |
| Costing.UnitsProduced | app.py:66 | Units produced are at most throughput and at most yearly demand, and equal one of them |
| Costing.Divide | app.py:67 | Division fails exactly on a zero denominator; otherwise quotient × denominator = numerator |
| Demand.GrowthFactorBounds | app.py:18-20 | With every growth draw in [-0.10, 0.25], the compounded growth factor after n years lies between 0.9^n and 1.25^n and is positive |
| Demand.DemandStaysPositive | app.py:18-21 | With a positive base and in-range draws, monthly and yearly demand stay positive |
| Demand.CompoundStep | app.py:20 | Compounding the running level by year n's growth gives base × the product of (1 + g) over years 1 to n |
| Simulation.SimulateYear | app.py:18-81 | A year fails only with a zero-units error for that year; a row it produces carries that year's index |
| Simulation.YearFacts | app.py:21-81 | A year fails exactly when units produced are zero. Otherwise: the row's demand is 12 × monthly demand; its growth and inflation are the draws in percent; the bottleneck is picked before investment; throughput is taken after it; the total cost is the inflated sum of machine, labour, setup and penalty costs on the invested capacities; cost per unit × units = total cost |
| Simulation.RunYear | app.py:33-81 | The year body, with the in-place update of the bottleneck's capacity, computes exactly the per-year result |
| Simulation.ZeroMachineStageFails | app.py:35-67 | With non-negative hours, an effective breakdown rate of at most 1 and non-negative monthly demand, a stage with zero machines makes the year fail on the cost-per-unit division, investment or not |
| Simulation.YearSucceeds | app.py:33-67 | With at least one machine per stage, positive hours, a breakdown probability in [0, 1), maintenance efficiency in [0, 1] and positive monthly demand, a year succeeds with positive units |
| Simulation.YearResults | app.py:12-81 | The per-year outcomes of the first n years number exactly n |
| Simulation.Collect | app.py:12-81 | The run's rows exist exactly when every year succeeds, one per year in order; otherwise the error is that of the first failing year, and all earlier years succeeded |
| Simulation.CollectErrorIsFinal | app.py:67 | Once a year has failed, later years do not change the outcome |
| Simulation.SumUnitsPositive | app.py:70 | Rows that each produced units add up to a positive five-year total |
| Simulation.Conclude | app.py:69-94 | A year's error passes through unchanged. After successful years the end fails exactly when the unit total is zero, with the zero-total error. Otherwise the report holds the collected rows, totals that are the sums of their costs and units, a non-zero unit total, and average × total units = total cost |
| Simulation.Simulate | app.py:69-94 | A completed run's totals are the sums of the rows' costs and units, the unit total is non-zero, and average × total units = total cost |
| Simulation.SimulateFailures | app.py:67-94 | A failing year makes the run fail with that year's error. After five successful years the run fails exactly when total units are zero, with the zero-total error. Otherwise the run reports the collected rows |
| Simulation.RunRows | app.py:3-81 | A completed run has exactly five rows; row y - 1 is year y's simulation and carries index y |
| Simulation.RowDemandCompounds | app.py:6-21 | In a completed run, row y - 1's demand is 12 × the base monthly demand compounded by the growth draws of years 1 to y |
| Simulation.RunSimulation | app.py:3-94 | The loop, with its running demand, accumulators and row log, returns exactly the run's result, including the division errors |
| Simulation.RunCompletes | app.py:6-94 | With at least one machine per stage, positive hours, a breakdown probability in [0, 1), maintenance efficiency in [0, 1], positive base demand and in-range draws, the run completes without a division error |

## Left out

- The Streamlit user interface is not modelled: the button, table, metric cards, charts and the insight messages (app.py:1, app.py:96-128). They only present the results.
- The pandas table and the most frequent bottleneck are not modelled (app.py:83-92, app.py:128). The rows are a sequence of `YearRow` records.
- The random sampling is not modelled (app.py:18, app.py:27). The draws are a parameter, and their ranges are only hypotheses of `GrowthFactorBounds`, `DemandStaysPositive` and `RunCompletes`.
- The model computes in exact `real` arithmetic, so rounding of floating-point numbers is not captured.
- Currency and number formatting of the metrics is not modelled (app.py:105-107).
- Settings come in as typed values: machine counts are natural numbers and the investment year an integer. The input widgets that produce them are not part of this model.
- The stage labels ("Body Shop" and the others) are not modelled. Dictionary keys and the rows' bottleneck are `Stage` values, which keep the labels' order (app.py:40-45).
- Work-in-process buffers, a raw-material pipeline, a per-unit shortage cost and a reset operation are not part of this code (app.py:1-94), so they are not modelled.
