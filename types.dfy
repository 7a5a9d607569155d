/**
 * The records exchanged with the simulation engine (types.ts).
 *
 * JavaScript `number` becomes `real` for the physical quantities and `int`
 * for the counters (year numbers, battery age, horizon length).
 */
module Types {

  /** Input of one simulation run. */
  datatype SimulationParams = SimulationParams(
    nominalCapacity: real,         // MWh at SOH 1.0
    operationYears: int,           // horizon length in years
    dod: real,                     // depth of discharge, 0..1
    systemEfficiency: real,        // 0..1
    firstYearDegradation: real,    // capacity lost in a battery's first year
    annualDegradation: real,       // capacity lost per further year of age
    replaceThreshold: real,        // year-end SOH below this triggers a replacement
    useActualMonthDays: bool,      // calendar month lengths instead of 30.4167 days
    monthlyCycles: seq<real>,      // average full cycles per day, January first
    forcedReplacementYears: seq<int> // declared by the interface, never read by the engine
  )

  /**
   * One simulated year. The interface also declares an `isForced` flag, but
   * the engine never produces it, so the record here has no such field.
   */
  datatype YearResult = YearResult(
    year: int,
    batteryAge: int,
    sohStart: real,
    sohEnd: real,
    sohAvg: real,
    annualCycles: real,
    annualEnergy: real,            // MWh
    isReplaced: bool
  )

  datatype SimulationSummary = SimulationSummary(
    totalEnergyMWh: real,
    totalEnergyBillionKWh: real,
    avgAnnualEnergyMWh: real,
    replacementYears: seq<int>
  )

  datatype SimulationOutput = SimulationOutput(
    params: SimulationParams,
    yearlyResults: seq<YearResult>,
    summary: SimulationSummary
  )
}
