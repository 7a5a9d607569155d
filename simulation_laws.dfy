/**
 * Properties of the storage simulation: the annual cycle count as a
 * weighted sum of the monthly profile, and the laws every run obeys
 * (record count and numbering, closed-form year-end health, the strict
 * replacement rule, the reset-or-advance transition, the summary).
 */
module SimulationLaws {
  import opened Types
  import opened StorageSimulation

  // ---------------------------------------------------------------------------
  // Annual cycles
  // ---------------------------------------------------------------------------

  /** Plain sum of a sequence of reals, first element first. */
  function Sum(s: seq<real>): real
  {
    if s == [] then 0.0 else Sum(s[..|s| - 1]) + s[|s| - 1]
  }

  /** Total days of the first `n` months. */
  function DaysTotal(useActualDays: bool, n: nat): real
    requires useActualDays ==> n <= |MONTH_DAYS|
  {
    if n == 0 then 0.0 else DaysTotal(useActualDays, n - 1) + DaysIn(n - 1, useActualDays)
  }

  /** Every month counts at least 28 days. */
  lemma DaysInAtLeast28(index: nat, useActualDays: bool)
    requires useActualDays ==> index < |MONTH_DAYS|
    ensures DaysIn(index, useActualDays) >= 28.0
  {
    if useActualDays {
      assert MONTH_DAYS[index] in MONTH_DAYS;
    }
  }

  /** With uniform months the annual count is 30.4167 times the sum of the profile, whatever its length. */
  lemma {:induction false} UniformDaysIsScaledSum(monthlyCycles: seq<real>)
    ensures CalculateAnnualCycles(monthlyCycles, false) == UNIFORM_MONTH_DAYS * Sum(monthlyCycles)
  {
    UniformPrefix(monthlyCycles, |monthlyCycles|);
    assert monthlyCycles[..|monthlyCycles|] == monthlyCycles;
  }

  lemma {:induction false} UniformPrefix(monthlyCycles: seq<real>, n: nat)
    requires n <= |monthlyCycles|
    ensures WeightedSum(monthlyCycles, false, n) == UNIFORM_MONTH_DAYS * Sum(monthlyCycles[..n])
  {
    if n > 0 {
      UniformPrefix(monthlyCycles, n - 1);
      assert monthlyCycles[..n][..n - 1] == monthlyCycles[..n - 1];
    } else {
      assert monthlyCycles[..n] == [];
    }
  }

  /** A profile of twelve months at one cycle per day counts 12 * 30.4167 = 365.0004 cycles with uniform months. */
  lemma UniformAllOnes(monthlyCycles: seq<real>)
    requires |monthlyCycles| == 12
    requires forall i :: 0 <= i < 12 ==> monthlyCycles[i] == 1.0
    ensures CalculateAnnualCycles(monthlyCycles, false) == 365.0004
  {
    ConstantProfileSum(monthlyCycles, false, 1.0, 12);
    assert DaysTotal(false, 12) == 12.0 * UNIFORM_MONTH_DAYS;
  }

  /** A constant profile weights each month by its day count. */
  lemma {:induction false} ConstantProfileSum(monthlyCycles: seq<real>, useActualDays: bool, c: real, n: nat)
    requires n <= |monthlyCycles| && CyclesDefined(monthlyCycles, useActualDays)
    requires forall i :: 0 <= i < |monthlyCycles| ==> monthlyCycles[i] == c
    ensures WeightedSum(monthlyCycles, useActualDays, n) == c * DaysTotal(useActualDays, n)
  {
    if n > 0 {
      ConstantProfileSum(monthlyCycles, useActualDays, c, n - 1);
      assert c * DaysTotal(useActualDays, n)
          == c * DaysTotal(useActualDays, n - 1) + c * DaysIn(n - 1, useActualDays);
    }
  }

  /** A constant profile of `c` cycles per day with calendar months counts 365 * c cycles (no leap day). */
  lemma ActualDaysConstantProfile(monthlyCycles: seq<real>, c: real)
    requires |monthlyCycles| == 12
    requires forall i :: 0 <= i < 12 ==> monthlyCycles[i] == c
    ensures CalculateAnnualCycles(monthlyCycles, true) == 365.0 * c
  {
    ConstantProfileSum(monthlyCycles, true, c, 12);
    CalendarYearHas365Days();
  }

  /** The calendar table adds up to a non-leap year. */
  lemma CalendarYearHas365Days()
    ensures DaysTotal(true, 12) == 365.0
  {
    assert DaysTotal(true, 1) == 31.0;
    assert DaysTotal(true, 2) == 59.0;
    assert DaysTotal(true, 3) == 90.0;
    assert DaysTotal(true, 4) == 120.0;
    assert DaysTotal(true, 5) == 151.0;
    assert DaysTotal(true, 6) == 181.0;
    assert DaysTotal(true, 7) == 212.0;
    assert DaysTotal(true, 8) == 243.0;
    assert DaysTotal(true, 9) == 273.0;
    assert DaysTotal(true, 10) == 304.0;
    assert DaysTotal(true, 11) == 334.0;
  }

  /** A non-negative profile gives a non-negative annual count. */
  lemma AnnualCyclesNonNegative(monthlyCycles: seq<real>, useActualDays: bool)
    requires CyclesDefined(monthlyCycles, useActualDays)
    requires forall i :: 0 <= i < |monthlyCycles| ==> monthlyCycles[i] >= 0.0
    ensures CalculateAnnualCycles(monthlyCycles, useActualDays) >= 0.0
  {
    WeightedSumNonNegative(monthlyCycles, useActualDays, |monthlyCycles|);
  }

  lemma {:induction false} WeightedSumNonNegative(monthlyCycles: seq<real>, useActualDays: bool, n: nat)
    requires n <= |monthlyCycles| && CyclesDefined(monthlyCycles, useActualDays)
    requires forall i :: 0 <= i < |monthlyCycles| ==> monthlyCycles[i] >= 0.0
    ensures WeightedSum(monthlyCycles, useActualDays, n) >= 0.0
  {
    if n > 0 {
      WeightedSumNonNegative(monthlyCycles, useActualDays, n - 1);
      DaysInAtLeast28(n - 1, useActualDays);
      ProductNonNegative(monthlyCycles[n - 1], DaysIn(n - 1, useActualDays));
    }
  }

  // The two arithmetic facts below are solver aids only: calling them keeps
  // non-linear real arithmetic out of the larger proofs that use them.

  lemma ProductNonNegative(a: real, b: real)
    requires a >= 0.0 && b >= 0.0
    ensures a * b >= 0.0
  {
  }

  lemma QuotientNonNegative(a: real, b: real)
    requires a >= 0.0 && b > 0.0
    ensures a / b >= 0.0
  {
  }

  // ---------------------------------------------------------------------------
  // Structure of the iterated transition
  // ---------------------------------------------------------------------------

  /** `k` years give `k` records; record `i` is the transition of year `i + 1` from the state after `i` years. */
  lemma {:induction false} ResultsShape(p: SimulationParams, c: real, k: nat)
    ensures |Results(p, c, k)| == k
    ensures forall i :: 0 <= i < k ==> Results(p, c, k)[i] == Step(p, c, i + 1, StateAfter(p, c, i)).0
  {
    if k > 0 {
      ResultsShape(p, c, k - 1);
    }
  }

  // LinearFade and EnergyAccounting spell out the loop body's formulas a second
  // time on purpose: the whole-run laws state them in the source's own terms,
  // not through YearEndSoh and AnnualEnergy, and wrapping them in predicates
  // keeps the non-linear products out of the quantified run-level contexts.

  /** Year-end health of a record is the linear fade of its battery age, floored at 0. */
  ghost predicate LinearFade(p: SimulationParams, r: YearResult)
  {
    r.sohEnd == MaxReal(0.0, 1.0 - (p.firstYearDegradation
                                    + p.annualDegradation * (MaxInt(0, r.batteryAge - 1) as real)))
  }

  /**
   * Average health of a record is the mean of its start and end health, and
   * its energy the product of capacity, average health, depth of discharge,
   * efficiency and annual cycles.
   */
  ghost predicate EnergyAccounting(p: SimulationParams, r: YearResult)
  {
    && r.sohAvg == (r.sohStart + r.sohEnd) / 2.0
    && r.annualEnergy == p.nominalCapacity * r.sohAvg * p.dod * p.systemEfficiency * r.annualCycles
  }

  /** Proof helper: the record of one year, field by field, in the terms of the loop body. */
  lemma StepRecord(p: SimulationParams, c: real, year: int, s: BatteryState)
    ensures var r := Step(p, c, year, s).0;
            && r.year == year && r.batteryAge == s.age && r.sohStart == s.soh && r.annualCycles == c
            && r.sohEnd == YearEndSoh(p, s.age)
            && LinearFade(p, r) && EnergyAccounting(p, r)
            && (r.isReplaced <==> r.sohEnd < p.replaceThreshold)
  {
  }

  /** A record whose factors are all non-negative has non-negative average health and energy. */
  lemma AccountedEnergyNonNegative(p: SimulationParams, r: YearResult)
    requires EnergyAccounting(p, r)
    requires r.sohStart >= 0.0 && r.sohEnd >= 0.0 && r.annualCycles >= 0.0
    requires p.nominalCapacity >= 0.0 && p.dod >= 0.0 && p.systemEfficiency >= 0.0
    ensures r.sohAvg >= 0.0 && r.annualEnergy >= 0.0
  {
    ProductNonNegative(p.nominalCapacity, r.sohAvg);
    ProductNonNegative(p.nominalCapacity * r.sohAvg, p.dod);
    ProductNonNegative(p.nominalCapacity * r.sohAvg * p.dod, p.systemEfficiency);
    ProductNonNegative(p.nominalCapacity * r.sohAvg * p.dod * p.systemEfficiency, r.annualCycles);
  }

  /**
   * The state carried into a year is fixed by the battery's age: a new
   * battery has full health, an older one the year-end health of its
   * previous year; the age never exceeds the number of years simulated plus one.
   */
  lemma {:induction false} StateAfterConsistent(p: SimulationParams, c: real, k: nat)
    ensures 1 <= StateAfter(p, c, k).age <= k + 1
    ensures StateAfter(p, c, k).soh
            == if StateAfter(p, c, k).age == 1 then 1.0 else YearEndSoh(p, StateAfter(p, c, k).age - 1)
  {
    if k > 0 {
      StateAfterConsistent(p, c, k - 1);
    }
  }

  /** Year-end health is at least 0, at most 1 for non-negative rates, and does not grow with age when the annual rate is non-negative. */
  lemma YearEndSohBounds(p: SimulationParams, age: int)
    ensures YearEndSoh(p, age) >= 0.0
    ensures p.firstYearDegradation >= 0.0 && p.annualDegradation >= 0.0 ==> YearEndSoh(p, age) <= 1.0
    ensures p.annualDegradation >= 0.0 ==> YearEndSoh(p, age + 1) <= YearEndSoh(p, age)
  {
    var k := MaxInt(0, age - 1) as real;
    var k' := MaxInt(0, age) as real;
    if p.annualDegradation >= 0.0 {
      ProductNonNegative(p.annualDegradation, k);
      assert k' == k || k' == k + 1.0;
      assert p.annualDegradation * (k + 1.0) == p.annualDegradation * k + p.annualDegradation;
    }
  }

  // ---------------------------------------------------------------------------
  // Laws of a whole run
  // ---------------------------------------------------------------------------

  /** `yearlyResults` holds exactly `operationYears` records (none for a negative horizon), numbered 1, 2, ... in order. */
  lemma YearNumbering(p: SimulationParams)
    requires ValidParams(p)
    ensures var rs := Simulation(p).yearlyResults;
            && |rs| == (if p.operationYears > 0 then p.operationYears else 0)
            && forall i :: 0 <= i < |rs| ==> rs[i].year == i + 1
  {
    ResultsShape(p, CalculateAnnualCycles(p.monthlyCycles, p.useActualMonthDays), YearsRun(p.operationYears));
  }

  /** Every record carries the one annual cycle count of the run's monthly profile. */
  lemma AnnualCyclesConstant(p: SimulationParams)
    requires ValidParams(p)
    ensures var rs := Simulation(p).yearlyResults;
            forall i :: 0 <= i < |rs| ==>
              rs[i].annualCycles == WeightedSum(p.monthlyCycles, p.useActualMonthDays, |p.monthlyCycles|)
  {
    ResultsShape(p, CalculateAnnualCycles(p.monthlyCycles, p.useActualMonthDays), YearsRun(p.operationYears));
  }

  /**
   * Every record's year-end health is the linear fade of its battery age,
   * floored at 0; it is never negative and at most 1 for non-negative rates.
   */
  lemma SohEndClosedForm(p: SimulationParams)
    requires ValidParams(p)
    ensures var rs := Simulation(p).yearlyResults;
            forall i :: 0 <= i < |rs| ==>
              && LinearFade(p, rs[i])
              && rs[i].sohEnd >= 0.0
              && (p.firstYearDegradation >= 0.0 && p.annualDegradation >= 0.0 ==> rs[i].sohEnd <= 1.0)
  {
    var c := CalculateAnnualCycles(p.monthlyCycles, p.useActualMonthDays);
    ResultsShape(p, c, YearsRun(p.operationYears));
    var rs := Results(p, c, YearsRun(p.operationYears));
    assert Simulation(p).yearlyResults == rs;
    forall i | 0 <= i < |rs|
      ensures LinearFade(p, rs[i])
      ensures rs[i].sohEnd >= 0.0
      ensures p.firstYearDegradation >= 0.0 && p.annualDegradation >= 0.0 ==> rs[i].sohEnd <= 1.0
    {
      StepRecord(p, c, i + 1, StateAfter(p, c, i));
      YearEndSohBounds(p, StateAfter(p, c, i).age);
    }
  }

  /** Every record's average health and energy follow the loop body's formulas. */
  lemma EnergyLaw(p: SimulationParams)
    requires ValidParams(p)
    ensures var rs := Simulation(p).yearlyResults;
            forall i :: 0 <= i < |rs| ==> EnergyAccounting(p, rs[i])
  {
    var c := CalculateAnnualCycles(p.monthlyCycles, p.useActualMonthDays);
    ResultsShape(p, c, YearsRun(p.operationYears));
    var rs := Results(p, c, YearsRun(p.operationYears));
    assert Simulation(p).yearlyResults == rs;
    forall i | 0 <= i < |rs|
      ensures EnergyAccounting(p, rs[i])
    {
      StepRecord(p, c, i + 1, StateAfter(p, c, i));
    }
  }

  /** With non-negative capacity, depth of discharge, efficiency and profile, every year and every total is non-negative. */
  lemma EnergyNonNegative(p: SimulationParams)
    requires ValidParams(p)
    requires p.nominalCapacity >= 0.0 && p.dod >= 0.0 && p.systemEfficiency >= 0.0
    requires forall i :: 0 <= i < |p.monthlyCycles| ==> p.monthlyCycles[i] >= 0.0
    ensures var out := Simulation(p);
            && (forall i :: 0 <= i < |out.yearlyResults| ==> out.yearlyResults[i].annualEnergy >= 0.0)
            && out.summary.totalEnergyMWh >= 0.0
            && out.summary.totalEnergyBillionKWh >= 0.0
            && out.summary.avgAnnualEnergyMWh >= 0.0
  {
    var c := CalculateAnnualCycles(p.monthlyCycles, p.useActualMonthDays);
    AnnualCyclesNonNegative(p.monthlyCycles, p.useActualMonthDays);
    ResultsShape(p, c, YearsRun(p.operationYears));
    var rs := Results(p, c, YearsRun(p.operationYears));
    assert Simulation(p).yearlyResults == rs;
    forall i | 0 <= i < |rs|
      ensures rs[i].annualEnergy >= 0.0
    {
      var s := StateAfter(p, c, i);
      StepRecord(p, c, i + 1, s);
      StateAfterConsistent(p, c, i);
      YearEndSohBounds(p, s.age);
      YearEndSohBounds(p, s.age - 1);
      AccountedEnergyNonNegative(p, rs[i]);
    }
    TotalEnergyNonNegative(rs);
    if p.operationYears > 0 {
      QuotientNonNegative(TotalEnergy(rs), p.operationYears as real);
    } else {
      assert rs == [];
    }
  }

  lemma {:induction false} TotalEnergyNonNegative(rs: seq<YearResult>)
    requires forall i :: 0 <= i < |rs| ==> rs[i].annualEnergy >= 0.0
    ensures TotalEnergy(rs) >= 0.0
  {
    if rs != [] {
      TotalEnergyNonNegative(rs[..|rs| - 1]);
    }
  }

  /** A year is flagged exactly when its year-end health is strictly below the threshold (equality does not replace). */
  lemma ReplacementRule(p: SimulationParams)
    requires ValidParams(p)
    ensures var rs := Simulation(p).yearlyResults;
            forall i :: 0 <= i < |rs| ==> (rs[i].isReplaced <==> rs[i].sohEnd < p.replaceThreshold)
  {
    ResultsShape(p, CalculateAnnualCycles(p.monthlyCycles, p.useActualMonthDays), YearsRun(p.operationYears));
  }

  /**
   * Year 1 starts with a new battery; after a replaced year the next starts
   * with a new battery, otherwise it starts from the previous year-end
   * health with the age one higher.
   */
  lemma TransitionLaw(p: SimulationParams)
    requires ValidParams(p)
    ensures var rs := Simulation(p).yearlyResults;
            && (|rs| > 0 ==> rs[0].sohStart == 1.0 && rs[0].batteryAge == 1)
            && forall i :: 0 <= i < |rs| - 1 ==>
                 if rs[i].isReplaced then rs[i + 1].sohStart == 1.0 && rs[i + 1].batteryAge == 1
                 else rs[i + 1].sohStart == rs[i].sohEnd && rs[i + 1].batteryAge == rs[i].batteryAge + 1
  {
    ResultsShape(p, CalculateAnnualCycles(p.monthlyCycles, p.useActualMonthDays), YearsRun(p.operationYears));
  }

  /** A battery's age is at least 1 and at most the year number, and its starting health is fixed by its age. */
  lemma BatteryAgeLaw(p: SimulationParams)
    requires ValidParams(p)
    ensures var rs := Simulation(p).yearlyResults;
            forall i :: 0 <= i < |rs| ==>
              && 1 <= rs[i].batteryAge <= rs[i].year
              && rs[i].sohStart == if rs[i].batteryAge == 1 then 1.0 else YearEndSoh(p, rs[i].batteryAge - 1)
  {
    var c := CalculateAnnualCycles(p.monthlyCycles, p.useActualMonthDays);
    ResultsShape(p, c, YearsRun(p.operationYears));
    forall i | 0 <= i < YearsRun(p.operationYears)
      ensures 1 <= StateAfter(p, c, i).age <= i + 1
      ensures StateAfter(p, c, i).soh
              == if StateAfter(p, c, i).age == 1 then 1.0 else YearEndSoh(p, StateAfter(p, c, i).age - 1)
    {
      StateAfterConsistent(p, c, i);
    }
  }

  /** With non-negative rates health only decays within a year: 0 <= sohEnd <= sohStart <= 1. */
  lemma SohDecaysWithinYear(p: SimulationParams)
    requires ValidParams(p)
    requires p.firstYearDegradation >= 0.0 && p.annualDegradation >= 0.0
    ensures var rs := Simulation(p).yearlyResults;
            forall i :: 0 <= i < |rs| ==> 0.0 <= rs[i].sohEnd <= rs[i].sohStart <= 1.0
  {
    var c := CalculateAnnualCycles(p.monthlyCycles, p.useActualMonthDays);
    ResultsShape(p, c, YearsRun(p.operationYears));
    forall i | 0 <= i < YearsRun(p.operationYears)
      ensures 0.0 <= YearEndSoh(p, StateAfter(p, c, i).age) <= StateAfter(p, c, i).soh <= 1.0
    {
      var s := StateAfter(p, c, i);
      StateAfterConsistent(p, c, i);
      YearEndSohBounds(p, s.age);
      YearEndSohBounds(p, s.age - 1);
    }
  }

  /** With a non-negative annual rate, year-end health does not rise from a year to the next unless the battery was replaced. */
  lemma SohEndNonIncreasingUntilReplacement(p: SimulationParams)
    requires ValidParams(p)
    requires p.annualDegradation >= 0.0
    ensures var rs := Simulation(p).yearlyResults;
            forall i :: 0 <= i < |rs| - 1 && !rs[i].isReplaced ==> rs[i + 1].sohEnd <= rs[i].sohEnd
  {
    var c := CalculateAnnualCycles(p.monthlyCycles, p.useActualMonthDays);
    ResultsShape(p, c, YearsRun(p.operationYears));
    forall i | 0 <= i < YearsRun(p.operationYears)
      ensures YearEndSoh(p, StateAfter(p, c, i).age + 1) <= YearEndSoh(p, StateAfter(p, c, i).age)
    {
      YearEndSohBounds(p, StateAfter(p, c, i).age);
    }
  }

  /** For records numbered 1, 2, ...: the replacement list holds exactly the flagged years, strictly increasing. */
  lemma {:induction false} ReplacementYearsOf(rs: seq<YearResult>)
    requires forall i :: 0 <= i < |rs| ==> rs[i].year == i + 1
    ensures forall y :: y in ReplacementYears(rs) <==> 1 <= y <= |rs| && rs[y - 1].isReplaced
    ensures forall j, k :: 0 <= j < k < |ReplacementYears(rs)| ==> ReplacementYears(rs)[j] < ReplacementYears(rs)[k]
  {
    if rs != [] {
      var init := rs[..|rs| - 1];
      ReplacementYearsOf(init);
      assert forall i :: 0 <= i < |init| ==> init[i] == rs[i];
      var before, ry := ReplacementYears(init), ReplacementYears(rs);
      assert ry == before + (if rs[|rs| - 1].isReplaced then [|rs|] else []);
      forall j, k | 0 <= j < k < |ry|
        ensures ry[j] < ry[k]
      {
        if k >= |before| {
          assert ry[j] == before[j] && before[j] in before;
        }
      }
    }
  }

  /** `replacementYears` lists exactly the years flagged as replaced, strictly increasing and so without duplicates. */
  lemma ReplacementYearsLaw(p: SimulationParams)
    requires ValidParams(p)
    ensures var out := Simulation(p);
            var rs, ry := out.yearlyResults, out.summary.replacementYears;
            && (forall y :: y in ry <==> 1 <= y <= |rs| && rs[y - 1].isReplaced)
            && (forall j, k :: 0 <= j < k < |ry| ==> ry[j] < ry[k])
  {
    YearNumbering(p);
    ReplacementYearsOf(Simulation(p).yearlyResults);
  }

  /** The year after any replacement year starts with a new battery. */
  lemma ResetAfterReplacement(p: SimulationParams)
    requires ValidParams(p)
    ensures var out := Simulation(p);
            var rs, ry := out.yearlyResults, out.summary.replacementYears;
            forall y :: y in ry && 0 <= y < |rs| ==> rs[y].batteryAge == 1 && rs[y].sohStart == 1.0
  {
    ReplacementYearsLaw(p);
    TransitionLaw(p);
  }

  /** The summary scales the total to billions of kWh and averages it over the horizon. */
  lemma SummaryLaw(p: SimulationParams)
    requires ValidParams(p)
    ensures var out := Simulation(p);
            && out.summary.totalEnergyMWh == TotalEnergy(out.yearlyResults)
            && out.summary.totalEnergyBillionKWh == out.summary.totalEnergyMWh / 1000000.0
            && out.summary.avgAnnualEnergyMWh == out.summary.totalEnergyMWh / (p.operationYears as real)
  {
  }

  /** A negative horizon runs the loop zero times: no records, zero totals and no replacement years. */
  lemma NegativeHorizonIsEmptyRun(p: SimulationParams)
    requires ValidParams(p) && p.operationYears < 0
    ensures var out := Simulation(p);
            && out.yearlyResults == []
            && out.summary.totalEnergyMWh == 0.0
            && out.summary.totalEnergyBillionKWh == 0.0
            && out.summary.avgAnnualEnergyMWh == 0.0
            && out.summary.replacementYears == []
  {
  }

  /** Battery age grows one per year as long as year-end health stays at or above 0.80 under a 0.02 annual fade. */
  lemma {:induction false} AgeUntilYearEleven(p: SimulationParams, c: real, k: nat)
    requires p.firstYearDegradation == 0.0 && p.annualDegradation == 0.02 && p.replaceThreshold == 0.80
    requires k <= 11
    ensures StateAfter(p, c, k).age == k + 1
  {
    if k > 0 {
      AgeUntilYearEleven(p, c, k - 1);
    }
  }

  /**
   * No first-year fade, 2% a year, threshold 0.80: year 11 ends at exactly
   * 0.80 and is not replaced; the first replacement is in year 12.
   */
  lemma FirstReplacementInYearTwelve(p: SimulationParams)
    requires ValidParams(p) && p.operationYears >= 12
    requires p.firstYearDegradation == 0.0 && p.annualDegradation == 0.02 && p.replaceThreshold == 0.80
    ensures var out := Simulation(p);
            var rs, ry := out.yearlyResults, out.summary.replacementYears;
            && (forall i :: 0 <= i < 11 ==> !rs[i].isReplaced)
            && rs[10].sohEnd == 0.80 && !rs[10].isReplaced
            && rs[11].sohEnd == 0.78 && rs[11].isReplaced
            && |ry| > 0 && ry[0] == 12
  {
    var c := CalculateAnnualCycles(p.monthlyCycles, p.useActualMonthDays);
    var rs := Simulation(p).yearlyResults;
    assert rs == Results(p, c, YearsRun(p.operationYears));
    ResultsShape(p, c, YearsRun(p.operationYears));
    forall i | 0 <= i <= 11
      ensures rs[i].batteryAge == i + 1
    {
      AgeUntilYearEleven(p, c, i);
    }
    ReplacementYearsLaw(p);
    var ry := Simulation(p).summary.replacementYears;
    assert 12 in ry;
    var j :| 0 <= j < |ry| && ry[j] == 12;
    assert ry[0] in ry;
  }
}
