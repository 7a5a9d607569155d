# Battery storage plant simulation, modelled in Dafny

This project models the simulation engine of a battery energy-storage
planning tool (`lib/storageSimulation.ts`). The engine is a deterministic
yearly model of one plant:

- **Annual cycles.** `calculateAnnualCycles` folds a profile of average daily
  full cycles per month into one annual count. Each month is weighted by its
  day count: the non-leap calendar table `MONTH_DAYS` or a uniform 30.4167
  days.
- **Yearly loop.** `simulateStoragePlant` carries two values from year to
  year: the state of health (SOH) at the start of the year and the battery
  age. Each year it computes:
  - the year-end SOH by linear fade from the battery age, floored at 0;
  - the average SOH and the energy discharged;
  - a replacement flag when the year-end SOH is strictly below the
    threshold.
  It then appends the year's record. After a replacement the battery is new
  again; otherwise its age grows by one and its SOH carries over.
- **Summary.** After the loop the engine builds the total energy, the same
  total in billions of kWh, the yearly average and the list of replacement
  years.

Files:

- `types.dfy` (module `Types`): the records of `types.ts` as datatypes.
- `storage_simulation.dfy` (module `StorageSimulation`): the engine.
  - `CalculateAnnualCycles` is the source's `reduce`, written as a left fold
    (`CyclesFold`). It is proved equal to the reference sum `WeightedSum`.
  - The loop body is the pure transition `Step` on a `BatteryState`.
    `StateAfter` and `Results` iterate it, and `Simulation` is the whole run
    as a function.
  - `SimulateStoragePlant` is the source's imperative loop over local
    variables. It is proved to return `Simulation(p)`. It bounds the loop by
    the source's identity helper `OperationYearsInternal`.
- `simulation_laws.dfy` (module `SimulationLaws`): the properties of the
  cycle count and of every run.

JavaScript `number` becomes `real` for physical quantities and `int` for
year numbers, ages and the horizon. Every operation is pure: the engine has
no I/O, clock or randomness.

`types.ts` declares a list of scheduled replacement years
(`forcedReplacementYears`) and a per-year `isForced` flag, but the engine
never reads the one and never sets the other. This model follows the code:
- `SimulationParams` keeps the field, but nothing reads it.
- `YearResult` has no `isForced` field.
- A year is replaced only by the threshold rule.

## Model

| member | source | states |
|---|---|---|
| `StorageSimulation.CalculateAnnualCycles` | lib/storageSimulation.ts:6-11 | The annual count is the sum over months of cycles per day times that month's day count (calendar table or 30.4167). |
| `StorageSimulation.CyclesFoldAddsRemainingMonths` | lib/storageSimulation.ts:7-10 | Folding the `reduce` from any index adds exactly the weighted months not yet summed to the accumulator. |
| `StorageSimulation.SimulateStoragePlant` | lib/storageSimulation.ts:13-82 | The imperative loop returns exactly the iterated transition and its summary: `operationYears` records (none for a negative horizon), params echoed. |
| `StorageSimulation.OperationYearsInternal` | lib/storageSimulation.ts:85-87 | The horizon helper returns the horizon unchanged, so the loop bounded by it runs `max(0, years)` times. |
| `StorageSimulation.Step` | lib/storageSimulation.ts:35-71 | One loop year: the record echoes the year, the battery age and the carried SOH. Year-end SOH is floored at 0, and the average lies between start and end SOH. The year is replaced exactly when year-end SOH is strictly below the threshold. A replaced year hands (1.0, age 1) to the next; otherwise the next gets the year-end SOH and age + 1. |
| `SimulationLaws.CalendarYearHas365Days` | lib/storageSimulation.ts:4 | The calendar table adds up to 365 days, with no leap day. |
| `SimulationLaws.DaysInAtLeast28` | lib/storageSimulation.ts:8 | Every month is weighted by at least 28 days, in both modes. |
| `SimulationLaws.UniformDaysIsScaledSum` | lib/storageSimulation.ts:6-10 | With uniform months the annual count is 30.4167 times the sum of the profile, for a profile of any length. |
| `SimulationLaws.UniformAllOnes` | lib/storageSimulation.ts:6-10 | Twelve months at 1.0 cycle per day with uniform months give 12 * 30.4167 = 365.0004 cycles. |
| `SimulationLaws.ConstantProfileSum` | lib/storageSimulation.ts:7-10 | A constant profile `c` sums to `c` times the total days of the months counted. |
| `SimulationLaws.ActualDaysConstantProfile` | lib/storageSimulation.ts:4-10 | A constant profile `c` with calendar months gives exactly 365 * c cycles. |
| `SimulationLaws.AnnualCyclesNonNegative` | lib/storageSimulation.ts:6-10 | A non-negative profile gives a non-negative annual count. |
| `SimulationLaws.ResultsShape` | lib/storageSimulation.ts:34-60 | After k years there are k records; record i is year i+1 computed from the state left by the first i years. |
| `SimulationLaws.StateAfterConsistent` | lib/storageSimulation.ts:64-71 | The carried state always has age at least 1 and at most years+1. Its SOH is 1.0 for a new battery, otherwise the year-end SOH of the previous age. |
| `SimulationLaws.YearEndSohBounds` | lib/storageSimulation.ts:39-40 | Year-end SOH is never negative, at most 1 for non-negative rates, and non-increasing in age for a non-negative annual rate. |
| `SimulationLaws.YearNumbering` | lib/storageSimulation.ts:34-60 | `yearlyResults` has exactly `operationYears` entries (zero for a negative horizon), and entry i has `year == i + 1`. |
| `SimulationLaws.AnnualCyclesConstant` | lib/storageSimulation.ts:32-57 | Every record carries the same annual cycle count, the weighted sum of the run's profile. |
| `SimulationLaws.SohEndClosedForm` | lib/storageSimulation.ts:39-40 | Every record's `sohEnd` is `max(0, 1 - (first + annual * max(0, age - 1)))`. It is >= 0, and <= 1 when both rates are non-negative. |
| `SimulationLaws.EnergyLaw` | lib/storageSimulation.ts:41-43 | Every record has `sohAvg == (sohStart + sohEnd) / 2` and energy equal to capacity * sohAvg * dod * efficiency * cycles. |
| `SimulationLaws.AccountedEnergyNonNegative` | lib/storageSimulation.ts:41-43 | Non-negative factors give a non-negative average SOH and a non-negative energy. |
| `SimulationLaws.EnergyNonNegative` | lib/storageSimulation.ts:41-79 | With non-negative capacity, dod, efficiency and profile, every year's energy is non-negative. So are the total, the scaled total and the average. |
| `SimulationLaws.TotalEnergyNonNegative` | lib/storageSimulation.ts:62 | A running total of non-negative yearly energies is non-negative. |
| `SimulationLaws.ReplacementRule` | lib/storageSimulation.ts:45-49 | A year is flagged replaced exactly when its `sohEnd` is strictly below `replaceThreshold`. |
| `SimulationLaws.TransitionLaw` | lib/storageSimulation.ts:27-71 | Year 1, when there is one, starts at SOH 1.0 and age 1. After a replaced year the next starts at 1.0 and age 1. Otherwise the next starts at the previous `sohEnd`, with age one higher. |
| `SimulationLaws.BatteryAgeLaw` | lib/storageSimulation.ts:64-71 | Each record's age is between 1 and its year number. Its start SOH is 1.0 at age 1, and otherwise the year-end SOH of the previous age. |
| `SimulationLaws.SohDecaysWithinYear` | lib/storageSimulation.ts:35-40 | With non-negative rates every year has 0 <= sohEnd <= sohStart <= 1. |
| `SimulationLaws.SohEndNonIncreasingUntilReplacement` | lib/storageSimulation.ts:64-71 | With a non-negative annual rate, year-end SOH does not rise from year i to year i+1 unless year i was replaced. |
| `SimulationLaws.ReplacementYearsOf` | lib/storageSimulation.ts:46-49 | For records numbered 1, 2, ...: the pushed years are exactly the flagged years, strictly increasing. |
| `SimulationLaws.ReplacementYearsLaw` | lib/storageSimulation.ts:46-78 | `summary.replacementYears` holds exactly the years with `isReplaced`, strictly increasing, so no year appears twice. |
| `SimulationLaws.ResetAfterReplacement` | lib/storageSimulation.ts:64-67 | For every replacement year Y inside the horizon, year Y+1 starts with age 1 and SOH 1.0. |
| `SimulationLaws.SummaryLaw` | lib/storageSimulation.ts:74-79 | The summary total is the running sum of the yearly energies. The total in billions of kWh is that total divided by 1e6, and the average is that total divided by `operationYears`. |
| `SimulationLaws.NegativeHorizonIsEmptyRun` | lib/storageSimulation.ts:34-79 | A negative `operationYears` runs the loop zero times: no records, total, scaled total and average all 0, no replacement years. |
| `SimulationLaws.AgeUntilYearEleven` | lib/storageSimulation.ts:64-71 | With no first-year fade, a 0.02 annual rate and threshold 0.80, the battery ages one year per year through year 11. |
| `SimulationLaws.FirstReplacementInYearTwelve` | lib/storageSimulation.ts:39-49 | With the same rates, year 11 ends at exactly 0.80 and is not replaced (strict `<`). Year 12 ends at 0.78 and is replaced, so 12 is the first replacement year. |

## Left out

- The user interface (`App.tsx`) is not part of this model. That covers React state, charts, icons, parsing of form input, display rounding and the display-only cycle estimate, which is not `calculateAnnualCycles`.
- Floating point: `real` replaces IEEE-754 `number`. Equalities such as year 11 ending at exactly 0.80 hold over the reals, not necessarily in double precision.
- Malformed input is excluded by `ValidParams`:
  - `operationYears` must not be 0. The source divides by it for the average, so 0 gives NaN. A negative horizon is allowed and gives an empty run with zero totals; the source's average there is `-0`, which the reals model as 0.
  - With calendar months the profile may have at most 12 entries. `MONTH_DAYS[index]` is undefined past December and gives NaN. With uniform months any length is allowed, as in the source.
  - NaN results are not modelled.
- A non-integer `operationYears` is not modelled. The horizon is an `int`.
- Scheduled (forced) replacements are not modelled, because the engine does not implement them (see above).
