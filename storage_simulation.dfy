/**
 * The simulation engine of lib/storageSimulation.ts: the annual cycle count
 * of a monthly profile, and the year-by-year capacity-fade, energy and
 * battery-replacement loop with its summary.
 *
 * The loop is specified by a pure one-year transition `Step` on a
 * `BatteryState` (state of health carried into the year, battery age),
 * iterated by `StateAfter` and `Results`; the method `SimulateStoragePlant`
 * runs the loop as the source writes it and is proved equal to `Simulation`.
 */
module StorageSimulation {
  import opened Types

  /** Calendar month lengths of a non-leap year, January first. */
  const MONTH_DAYS: seq<real> :=
    [31.0, 28.0, 31.0, 30.0, 31.0, 30.0, 31.0, 31.0, 30.0, 31.0, 30.0, 31.0]

  /** Uniform month length used when calendar lengths are not requested (about 365/12). */
  const UNIFORM_MONTH_DAYS: real := 30.4167

  /** MWh in one billion kWh, the divisor of `totalEnergyBillionKWh`. */
  const MWH_PER_BILLION_KWH: real := 1000000.0

  // ---------------------------------------------------------------------------
  // Annual cycles
  // ---------------------------------------------------------------------------

  /**
   * The day count of every month is defined: with calendar lengths only the
   * first twelve entries have one (a longer profile reads past MONTH_DAYS).
   */
  predicate CyclesDefined(monthlyCycles: seq<real>, useActualDays: bool)
  {
    useActualDays ==> |monthlyCycles| <= |MONTH_DAYS|
  }

  /** Number of days counted for the month at `index`. */
  function DaysIn(index: nat, useActualDays: bool): real
    requires useActualDays ==> index < |MONTH_DAYS|
  {
    if useActualDays then MONTH_DAYS[index] else UNIFORM_MONTH_DAYS
  }

  /** Reference definition: cycles per day times days, summed over the first `n` months. */
  function WeightedSum(monthlyCycles: seq<real>, useActualDays: bool, n: nat): real
    requires n <= |monthlyCycles| && CyclesDefined(monthlyCycles, useActualDays)
  {
    if n == 0 then 0.0
    else WeightedSum(monthlyCycles, useActualDays, n - 1)
         + monthlyCycles[n - 1] * DaysIn(n - 1, useActualDays)
  }

  /** The `reduce` of the source: a left fold from index 0 with accumulator `acc`. */
  function CyclesFold(monthlyCycles: seq<real>, useActualDays: bool, index: nat, acc: real): real
    requires index <= |monthlyCycles| && CyclesDefined(monthlyCycles, useActualDays)
    decreases |monthlyCycles| - index
  {
    if index == |monthlyCycles| then acc
    else CyclesFold(monthlyCycles, useActualDays, index + 1,
                    acc + monthlyCycles[index] * DaysIn(index, useActualDays))
  }

  /** Folding from `index` adds exactly the months not yet summed to the accumulator. */
  lemma {:induction false} CyclesFoldAddsRemainingMonths(
    monthlyCycles: seq<real>, useActualDays: bool, index: nat, acc: real)
    requires index <= |monthlyCycles| && CyclesDefined(monthlyCycles, useActualDays)
    ensures CyclesFold(monthlyCycles, useActualDays, index, acc)
            == acc + WeightedSum(monthlyCycles, useActualDays, |monthlyCycles|)
                   - WeightedSum(monthlyCycles, useActualDays, index)
    decreases |monthlyCycles| - index
  {
    if index < |monthlyCycles| {
      CyclesFoldAddsRemainingMonths(monthlyCycles, useActualDays, index + 1,
        acc + monthlyCycles[index] * DaysIn(index, useActualDays));
    }
  }

  /** Annual equivalent full cycles of a profile of daily cycles per month. */
  function CalculateAnnualCycles(monthlyCycles: seq<real>, useActualDays: bool): (r: real)
    requires CyclesDefined(monthlyCycles, useActualDays)
    ensures r == WeightedSum(monthlyCycles, useActualDays, |monthlyCycles|)
  {
    CyclesFoldAddsRemainingMonths(monthlyCycles, useActualDays, 0, 0.0);
    CyclesFold(monthlyCycles, useActualDays, 0, 0.0)
  }

  // ---------------------------------------------------------------------------
  // Yearly degradation and replacement
  // ---------------------------------------------------------------------------

  /**
   * What the source demands of a run: a defined cycle count and a non-zero
   * horizon (the average divides by it). A negative horizon is allowed: the
   * loop then runs zero times.
   */
  predicate ValidParams(p: SimulationParams)
  {
    p.operationYears != 0 && CyclesDefined(p.monthlyCycles, p.useActualMonthDays)
  }

  /** Number of iterations of `for (year = 1; year <= operationYears; year++)`. */
  function YearsRun(operationYears: int): nat
  {
    if operationYears > 0 then operationYears else 0
  }

  /** `Math.max` on reals and on integers. */
  function MaxReal(a: real, b: real): real { if a >= b then a else b }
  function MaxInt(a: int, b: int): int { if a >= b then a else b }

  /**
   * The horizon helper of the source: it hands the horizon back unchanged, so
   * a loop `for (year = 1; year <= r; year++)` runs `YearsRun(years)` times.
   */
  function OperationYearsInternal(years: int): (r: int)
    ensures r == years
    ensures r >= 1 ==> YearsRun(years) == r
    ensures r < 1 ==> YearsRun(years) == 0
  {
    years
  }

  /** The two values the loop carries from one year to the next. */
  datatype BatteryState = BatteryState(soh: real, age: int)

  /** State of a newly installed battery: full health, first year of life. */
  const NEW_BATTERY: BatteryState := BatteryState(1.0, 1)

  /** Year-end state of health of a battery in its `age`-th year: linear fade, floored at 0. */
  function YearEndSoh(p: SimulationParams, age: int): real
  {
    var cumulativeDeg := p.firstYearDegradation + p.annualDegradation * (MaxInt(0, age - 1) as real);
    MaxReal(0.0, 1.0 - cumulativeDeg)
  }

  /** Energy discharged in a year: capacity scaled by average health, depth of discharge, efficiency and cycles. */
  function AnnualEnergy(p: SimulationParams, sohAvg: real, annualCycles: real): real
  {
    p.nominalCapacity * sohAvg * p.dod * p.systemEfficiency * annualCycles
  }

  /**
   * One iteration of the yearly loop: the record of year `year` and the state
   * carried into the next. The record echoes the carried state, its year-end
   * health is floored at 0, its average lies between start and end health,
   * and a replaced year hands a new battery to the next.
   */
  function Step(p: SimulationParams, annualCycles: real, year: int, s: BatteryState): (r: (YearResult, BatteryState))
    ensures r.0.year == year && r.0.batteryAge == s.age && r.0.sohStart == s.soh && r.0.annualCycles == annualCycles
    ensures r.0.sohEnd >= 0.0
    ensures (r.0.sohStart <= r.0.sohAvg <= r.0.sohEnd) || (r.0.sohEnd <= r.0.sohAvg <= r.0.sohStart)
    ensures r.0.isReplaced <==> r.0.sohEnd < p.replaceThreshold
    ensures r.1 == (if r.0.isReplaced then NEW_BATTERY else BatteryState(r.0.sohEnd, s.age + 1))
  {
    var sohStart := s.soh;
    var sohEnd := YearEndSoh(p, s.age);
    var sohAvg := (sohStart + sohEnd) / 2.0;
    var annualEnergy := AnnualEnergy(p, sohAvg, annualCycles);
    var isReplaced := sohEnd < p.replaceThreshold;
    var record := YearResult(year, s.age, sohStart, sohEnd, sohAvg, annualCycles, annualEnergy, isReplaced);
    (record, if isReplaced then NEW_BATTERY else BatteryState(sohEnd, s.age + 1))
  }

  /** State carried into year `k + 1`, after `k` simulated years. */
  function StateAfter(p: SimulationParams, annualCycles: real, k: nat): BatteryState
  {
    if k == 0 then NEW_BATTERY
    else Step(p, annualCycles, k, StateAfter(p, annualCycles, k - 1)).1
  }

  /** Records of the first `k` simulated years, in year order. */
  function Results(p: SimulationParams, annualCycles: real, k: nat): (rs: seq<YearResult>)
    ensures |rs| == k
  {
    if k == 0 then []
    else Results(p, annualCycles, k - 1) + [Step(p, annualCycles, k, StateAfter(p, annualCycles, k - 1)).0]
  }

  /** Running total of `annualEnergy`, accumulated in year order. */
  function TotalEnergy(rs: seq<YearResult>): real
  {
    if rs == [] then 0.0 else TotalEnergy(rs[..|rs| - 1]) + rs[|rs| - 1].annualEnergy
  }

  /** Years pushed onto `replacementYears`, in year order. */
  function ReplacementYears(rs: seq<YearResult>): seq<int>
  {
    if rs == [] then []
    else ReplacementYears(rs[..|rs| - 1]) + (if rs[|rs| - 1].isReplaced then [rs[|rs| - 1].year] else [])
  }

  /** Summary built after the loop. */
  function Summarize(p: SimulationParams, rs: seq<YearResult>): SimulationSummary
    requires p.operationYears != 0
  {
    var total := TotalEnergy(rs);
    SimulationSummary(total, total / MWH_PER_BILLION_KWH, total / (p.operationYears as real), ReplacementYears(rs))
  }

  /** Whole-run specification: the transition iterated over the horizon, then summarised. */
  function Simulation(p: SimulationParams): SimulationOutput
    requires ValidParams(p)
  {
    var annualCycles := CalculateAnnualCycles(p.monthlyCycles, p.useActualMonthDays);
    var rs := Results(p, annualCycles, YearsRun(p.operationYears));
    SimulationOutput(p, rs, Summarize(p, rs))
  }

  /**
   * simulateStoragePlant: the loop of the source over local variables, with
   * the yearly records and the replacement years as growing sequences.
   */
  method SimulateStoragePlant(p: SimulationParams) returns (out: SimulationOutput)
    requires ValidParams(p)
    ensures out == Simulation(p)
    ensures |out.yearlyResults| == YearsRun(p.operationYears)
    ensures out.params == p
  {
    var yearlyResults: seq<YearResult> := [];
    var currentSohEnd := 1.0;
    var batteryAge := 1;
    var totalEnergyMWh := 0.0;
    var replacementYears: seq<int> := [];

    var annualCyclesCount := CalculateAnnualCycles(p.monthlyCycles, p.useActualMonthDays);

    var year := 1;
    while year <= OperationYearsInternal(p.operationYears)
      invariant 1 <= year <= YearsRun(p.operationYears) + 1
      invariant |yearlyResults| == year - 1
      invariant yearlyResults == Results(p, annualCyclesCount, year - 1)
      invariant BatteryState(currentSohEnd, batteryAge) == StateAfter(p, annualCyclesCount, year - 1)
      invariant totalEnergyMWh == TotalEnergy(yearlyResults)
      invariant replacementYears == ReplacementYears(yearlyResults)
    {
      var sohStart := currentSohEnd;
      var sohEnd := YearEndSoh(p, batteryAge);
      var sohAvg := (sohStart + sohEnd) / 2.0;

      var annualEnergy := AnnualEnergy(p, sohAvg, annualCyclesCount);

      var isReplaced := false;
      if sohEnd < p.replaceThreshold {
        isReplaced := true;
        replacementYears := replacementYears + [year];
      }

      var record := YearResult(year, batteryAge, sohStart, sohEnd, sohAvg, annualCyclesCount, annualEnergy, isReplaced);
      assert record == Step(p, annualCyclesCount, year, StateAfter(p, annualCyclesCount, year - 1)).0;
      assert (yearlyResults + [record])[..|yearlyResults|] == yearlyResults;
      yearlyResults := yearlyResults + [record];

      totalEnergyMWh := totalEnergyMWh + annualEnergy;

      if isReplaced {
        currentSohEnd := 1.0;
        batteryAge := 1;
      } else {
        currentSohEnd := sohEnd;
        batteryAge := batteryAge + 1;
      }
      year := year + 1;
    }

    var summary := SimulationSummary(
      totalEnergyMWh,
      totalEnergyMWh / MWH_PER_BILLION_KWH,
      totalEnergyMWh / (p.operationYears as real),
      replacementYears);
    out := SimulationOutput(p, yearlyResults, summary);
  }
}
