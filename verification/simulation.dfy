/**
 * The five-year run: each year compounds demand, computes capacities, picks
 * the bottleneck, applies the investment, and costs the year; the run keeps
 * the running totals and one result row per year.
 */
module Simulation {
  import opened Wrappers
  import opened Capacity
  import opened Demand
  import opened Costing

  /** Length of the planning horizon in years. */
  const Years: nat := 5

  /** The planner's settings, fixed for the whole run. */
  datatype Params = Params(
    fleet: Fleet,
    availableHoursMonth: real,
    breakdownProb: real,
    maintenanceEff: real,
    overtime: real,
    setupTime: real,
    investmentYear: int,
    baseMonthlyDemand: real)

  /** One row of the results table. */
  datatype YearRow = YearRow(
    year: int,
    growthPct: real,
    demand: real,
    inflationPct: real,
    throughput: real,
    bottleneck: Stage,
    totalCost: real,
    costPerUnit: real)

  /** The divisions by zero that abort the run. */
  datatype Error =
    | ZeroUnitsProduced(year: int)  // cost per unit in a year that produced nothing
    | ZeroTotalUnits                // five-year average over a zero unit total

  /** What a completed run reports. */
  datatype Report = Report(rows: seq<YearRow>, totalCost: real, totalUnits: real, averageCost: real)

  /** Units produced in a row's year: throughput capped by demand. */
  function RowUnits(row: YearRow): real
  {
    UnitsProduced(row.throughput, row.demand)
  }

  /** The four stage capacities of any year, before investment. */
  function YearCapacities(p: Params, effBreakdown: real): Capacities
  {
    StageCapacities(p.fleet, p.availableHoursMonth * MonthsPerYear, effBreakdown)
  }

  /** One year, given the monthly demand after this year's growth. */
  function SimulateYear(p: Params, effBreakdown: real, year: int, monthlyDemand: real, d: Draw): (r: Result<YearRow, Error>)
    ensures r.Err? ==> r.error == ZeroUnitsProduced(year)
    ensures r.Ok? ==> r.value.year == year
  {
    var yearlyDemand := YearlyDemand(monthlyDemand);
    var caps := YearCapacities(p, effBreakdown);
    var bottleneck := Bottleneck(caps);
    var invested := Invest(caps, bottleneck, year, p.investmentYear);
    var throughput := Throughput(invested);
    var totalCost := TotalCost(invested, p.overtime, p.setupTime, throughput, yearlyDemand, d.inflation);
    var units := UnitsProduced(throughput, yearlyDemand);
    match Divide(totalCost, units)
    case None => Err(ZeroUnitsProduced(year))
    case Some(costPerUnit) =>
      Ok(YearRow(year, d.growth * 100.0, yearlyDemand, d.inflation * 100.0,
                 throughput, bottleneck, totalCost, costPerUnit))
  }

  /**
   * One year, given the monthly demand after this year's growth. It fails
   * exactly when the year produces nothing; otherwise the bottleneck is picked
   * on the capacities before investment, throughput is taken after it, and
   * cost per unit times units produced is the year's total cost.
   */
  lemma YearFacts(p: Params, effBreakdown: real, year: int, monthlyDemand: real, d: Draw)
    ensures var r := SimulateYear(p, effBreakdown, year, monthlyDemand, d);
            var caps := YearCapacities(p, effBreakdown);
            var throughput := Throughput(Invest(caps, Bottleneck(caps), year, p.investmentYear));
            r.Err? <==> UnitsProduced(throughput, YearlyDemand(monthlyDemand)) == 0.0
    ensures var r := SimulateYear(p, effBreakdown, year, monthlyDemand, d);
      r.Ok? ==>
      var caps := YearCapacities(p, effBreakdown);
      && r.value.demand == YearlyDemand(monthlyDemand)
      && r.value.growthPct == d.growth * 100.0
      && r.value.inflationPct == d.inflation * 100.0
      && r.value.bottleneck == Bottleneck(caps)
      && r.value.throughput == Throughput(Invest(caps, r.value.bottleneck, year, p.investmentYear))
      && r.value.totalCost == TotalCost(Invest(caps, r.value.bottleneck, year, p.investmentYear),
                                        p.overtime, p.setupTime, r.value.throughput, r.value.demand, d.inflation)
      && RowUnits(r.value) != 0.0
      && r.value.costPerUnit * RowUnits(r.value) == r.value.totalCost
  {
  }

  /** Year y (1-based) of a run, with demand compounded over the draws of years 1 to y. */
  function YearAt(p: Params, draws: seq<Draw>, year: nat): Result<YearRow, Error>
    requires 1 <= year <= |draws|
  {
    SimulateYear(p, EffectiveBreakdown(p.breakdownProb, p.maintenanceEff), year,
                 MonthlyDemand(p.baseMonthlyDemand, draws[..year]), draws[year - 1])
  }

  /** The per-year outcomes of the first n years, oldest first. */
  function YearResults(p: Params, draws: seq<Draw>, n: nat): (rs: seq<Result<YearRow, Error>>)
    requires n <= |draws|
    ensures |rs| == n
  {
    seq(n, i requires 0 <= i < n => YearAt(p, draws, i + 1))
  }

  /** Entry y - 1 of the per-year outcomes is year y of the run. */
  lemma YearResultsAt(p: Params, draws: seq<Draw>, n: nat, year: nat)
    requires 1 <= year <= n <= |draws|
    ensures YearResults(p, draws, n)[year - 1] == YearAt(p, draws, year)
  {
  }

  /**
   * The rows of a sequence of year outcomes, or the error of the first year
   * that failed: a failing year aborts the run, so no later year is looked at.
   */
  function Collect(rs: seq<Result<YearRow, Error>>): (r: Result<seq<YearRow>, Error>)
    ensures r.Ok? <==> forall i :: 0 <= i < |rs| ==> rs[i].Ok?
    ensures r.Ok? ==> |r.value| == |rs| && forall i :: 0 <= i < |rs| ==> r.value[i] == rs[i].value
    ensures r.Err? ==> exists i :: 0 <= i < |rs| && rs[i] == Err(r.error) && forall k :: 0 <= k < i ==> rs[k].Ok?
  {
    if rs == [] then Ok([])
    else
      var n := |rs| - 1;
      var prefix := rs[..n];
      assert forall i :: 0 <= i < n ==> prefix[i] == rs[i];
      match Collect(prefix)
      case Err(e) => Err(e)
      case Ok(rows) =>
        match rs[n]
        case Err(e) => Err(e)
        case Ok(row) => Ok(rows + [row])
  }

  /** Collecting one more outcome after a successful prefix. */
  lemma CollectStep(rs: seq<Result<YearRow, Error>>, r: Result<YearRow, Error>, rows: seq<YearRow>)
    requires Collect(rs) == Ok(rows)
    ensures Collect(rs + [r]) == if r.Err? then Err(r.error) else Ok(rows + [r.value])
  {
    assert (rs + [r])[..|rs|] == rs;
  }

  /** Once a prefix has failed, the outcomes after it do not change the result. */
  lemma {:induction false} CollectErrorIsFinal(rs: seq<Result<YearRow, Error>>, n: nat)
    requires n <= |rs|
    requires Collect(rs[..n]).Err?
    ensures Collect(rs) == Collect(rs[..n])
  {
    if n < |rs| {
      var shorter := rs[..|rs| - 1];
      assert shorter[..n] == rs[..n];
      CollectErrorIsFinal(shorter, n);
    }
  }

  /**
   * Collecting one more outcome onto a successful prefix: a failure there is
   * the result of the whole sequence, a success extends the rows.
   */
  lemma CollectNext(rs: seq<Result<YearRow, Error>>, n: nat, rows: seq<YearRow>)
    requires 1 <= n <= |rs|
    requires Collect(rs[..n - 1]) == Ok(rows)
    ensures rs[n - 1].Err? ==> Collect(rs) == Err(rs[n - 1].error)
    ensures rs[n - 1].Ok? ==> Collect(rs[..n]) == Ok(rows + [rs[n - 1].value])
  {
    PrefixExtends(rs, n);
    CollectStep(rs[..n - 1], rs[n - 1], rows);
    if rs[n - 1].Err? {
      CollectErrorIsFinal(rs, n);
    }
  }

  /**
   * One pass of the loop, demand side: compounding the running level by this
   * year's growth reaches year y's closed-form level, so simulating with it is year y.
   */
  lemma YearDemandStep(p: Params, draws: seq<Draw>, year: nat, monthlyDemand: real)
    requires 1 <= year <= |draws|
    requires monthlyDemand == MonthlyDemand(p.baseMonthlyDemand, draws[..year - 1])
    ensures Compound(monthlyDemand, draws[year - 1]) == MonthlyDemand(p.baseMonthlyDemand, draws[..year])
    ensures YearAt(p, draws, year)
         == SimulateYear(p, EffectiveBreakdown(p.breakdownProb, p.maintenanceEff), year,
                         Compound(monthlyDemand, draws[year - 1]), draws[year - 1])
  {
    CompoundStep(p.baseMonthlyDemand, draws, year);
  }

  /**
   * One pass of the loop, row side: year y either fails the whole run with its
   * error or extends the rows collected so far.
   */
  lemma YearCollectStep(p: Params, draws: seq<Draw>, year: nat, rows: seq<YearRow>)
    requires 1 <= year <= |draws|
    requires Collect(YearResults(p, draws, |draws|)[..year - 1]) == Ok(rows)
    ensures YearAt(p, draws, year).Err? ==> Collect(YearResults(p, draws, |draws|)) == Err(YearAt(p, draws, year).error)
    ensures YearAt(p, draws, year).Ok? ==> Collect(YearResults(p, draws, |draws|)[..year]) == Ok(rows + [YearAt(p, draws, year).value])
  {
    YearResultsAt(p, draws, |draws|, year);
    CollectNext(YearResults(p, draws, |draws|), year, rows);
  }

  /** A prefix one longer is the shorter prefix plus the next element. */
  lemma PrefixExtends<T>(s: seq<T>, n: nat)
    requires 0 < n <= |s|
    ensures s[..n] == s[..n - 1] + [s[n - 1]]
  {
  }

  /** Sum of the rows' total costs. */
  function SumCost(rows: seq<YearRow>): real
  {
    if rows == [] then 0.0 else SumCost(rows[..|rows| - 1]) + rows[|rows| - 1].totalCost
  }

  /** Sum of the rows' units produced. */
  function SumUnits(rows: seq<YearRow>): real
  {
    if rows == [] then 0.0 else SumUnits(rows[..|rows| - 1]) + RowUnits(rows[|rows| - 1])
  }

  lemma SumsStep(rows: seq<YearRow>, row: YearRow)
    ensures SumCost(rows + [row]) == SumCost(rows) + row.totalCost
    ensures SumUnits(rows + [row]) == SumUnits(rows) + RowUnits(row)
  {
    assert (rows + [row])[..|rows|] == rows;
  }

  /** Rows that each produced something add up to a positive total. */
  lemma {:induction false} SumUnitsPositive(rows: seq<YearRow>)
    requires rows != []
    requires forall i :: 0 <= i < |rows| ==> RowUnits(rows[i]) > 0.0
    ensures SumUnits(rows) > 0.0
  {
    var prefix := rows[..|rows| - 1];
    if prefix != [] {
      assert forall i :: 0 <= i < |prefix| ==> prefix[i] == rows[i];
      SumUnitsPositive(prefix);
    }
  }

  /**
   * The end of a run: a year's error passes through; otherwise the report
   * holds the totals and the average cost per unit, which fails on a zero
   * unit total.
   */
  function Conclude(collected: Result<seq<YearRow>, Error>): (r: Result<Report, Error>)
    ensures collected.Err? ==> r == Err(collected.error)
    ensures collected.Ok? ==> (r.Err? <==> SumUnits(collected.value) == 0.0)
    ensures collected.Ok? && r.Err? ==> r.error == ZeroTotalUnits
    ensures r.Ok? ==>
      && collected == Ok(r.value.rows)
      && r.value.totalCost == SumCost(r.value.rows)
      && r.value.totalUnits == SumUnits(r.value.rows)
      && r.value.totalUnits != 0.0
      && r.value.averageCost * r.value.totalUnits == r.value.totalCost
  {
    match collected
    case Err(e) => Err(e)
    case Ok(rows) =>
      match Divide(SumCost(rows), SumUnits(rows))
      case None => Err(ZeroTotalUnits)
      case Some(average) => Ok(Report(rows, SumCost(rows), SumUnits(rows), average))
  }

  /** The whole run as a function of the settings and the draws. */
  function Simulate(p: Params, draws: seq<Draw>): (r: Result<Report, Error>)
    requires |draws| == Years
    ensures r.Ok? ==>
      && r.value.totalCost == SumCost(r.value.rows)
      && r.value.totalUnits == SumUnits(r.value.rows)
      && r.value.totalUnits != 0.0
      && r.value.averageCost * r.value.totalUnits == r.value.totalCost
  {
    Conclude(Collect(YearResults(p, draws, |draws|)))
  }

  /**
   * How a run fails: a failing year ends it with that year's error; after five
   * successful years it fails exactly when the unit total is zero, with the
   * zero-total error; otherwise it reports the collected rows.
   */
  lemma SimulateFailures(p: Params, draws: seq<Draw>)
    requires |draws| == Years
    ensures var c := Collect(YearResults(p, draws, |draws|));
      c.Err? ==> Simulate(p, draws) == Err(c.error)
    ensures var c := Collect(YearResults(p, draws, |draws|));
      c.Ok? ==> (Simulate(p, draws).Err? <==> SumUnits(c.value) == 0.0)
    ensures var c := Collect(YearResults(p, draws, |draws|));
      c.Ok? && SumUnits(c.value) == 0.0 ==> Simulate(p, draws) == Err(ZeroTotalUnits)
    ensures var c := Collect(YearResults(p, draws, |draws|));
      c.Ok? && Simulate(p, draws).Ok? ==> Simulate(p, draws).value.rows == c.value
  {
  }

  /**
   * A completed run has one row per year, years 1 to 5 in order, each the
   * simulation of that year with demand compounded over the draws so far.
   */
  lemma RunRows(p: Params, draws: seq<Draw>)
    requires |draws| == Years
    ensures var r := Simulate(p, draws);
      r.Ok? ==>
      && |r.value.rows| == Years
      && (forall year :: 1 <= year <= Years ==>
            && YearAt(p, draws, year).Ok?
            && r.value.rows[year - 1] == YearAt(p, draws, year).value
            && r.value.rows[year - 1].year == year)
  {
    var r := Simulate(p, draws);
    if r.Ok? {
      var rs := YearResults(p, draws, |draws|);
      SimulateFailures(p, draws);
      var rows := r.value.rows;
      assert Collect(rs).Ok? && rows == Collect(rs).value;
      forall year | 1 <= year <= Years
        ensures && YearAt(p, draws, year).Ok?
                && rows[year - 1] == YearAt(p, draws, year).value
                && rows[year - 1].year == year
      {
        YearResultsAt(p, draws, |draws|, year);
        assert rs[year - 1].Ok? && rows[year - 1] == rs[year - 1].value;
      }
    }
  }

  /**
   * The body of one year: capacities are built, the bottleneck picked, the
   * bottleneck's entry scaled in place in the investment year, and the year
   * costed; a year that produces nothing fails on the cost-per-unit division.
   */
  method RunYear(p: Params, effBreakdown: real, year: int, monthlyDemand: real, d: Draw)
    returns (r: Result<YearRow, Error>)
    ensures r == SimulateYear(p, effBreakdown, year, monthlyDemand, d)
  {
    var yearlyDemand := YearlyDemand(monthlyDemand);
    var yearlyHours := p.availableHoursMonth * MonthsPerYear;
    var capacities := StageCapacities(p.fleet, yearlyHours, effBreakdown);
    var bottleneck := Bottleneck(capacities);
    if p.investmentYear == year {
      capacities := capacities.Set(bottleneck, capacities.Get(bottleneck) * InvestmentFactor);
    }
    var throughput := Throughput(capacities);
    var totalCost := TotalCost(capacities, p.overtime, p.setupTime, throughput, yearlyDemand, d.inflation);
    var units := UnitsProduced(throughput, yearlyDemand);
    if units == 0.0 {
      return Err(ZeroUnitsProduced(year));
    }
    r := Ok(YearRow(year, d.growth * 100.0, yearlyDemand, d.inflation * 100.0,
                    throughput, bottleneck, totalCost, totalCost / units));
  }

  /** Year y's demand is twelve months of the base demand compounded over draws 1 to y. */
  lemma YearDemand(p: Params, draws: seq<Draw>, year: nat)
    requires 1 <= year <= |draws|
    ensures YearAt(p, draws, year).Ok? ==>
      YearAt(p, draws, year).value.demand == YearlyDemand(MonthlyDemand(p.baseMonthlyDemand, draws[..year]))
  {
    YearFacts(p, EffectiveBreakdown(p.breakdownProb, p.maintenanceEff), year,
              MonthlyDemand(p.baseMonthlyDemand, draws[..year]), draws[year - 1]);
  }

  /**
   * The demand in row y of a completed run is twelve months of the base
   * demand compounded by the growth draws of years 1 to y.
   */
  lemma RowDemandCompounds(p: Params, draws: seq<Draw>)
    requires |draws| == Years
    ensures var r := Simulate(p, draws);
      r.Ok? ==> forall year :: 1 <= year <= Years ==>
        r.value.rows[year - 1].demand == YearlyDemand(MonthlyDemand(p.baseMonthlyDemand, draws[..year]))
  {
    var r := Simulate(p, draws);
    if r.Ok? {
      RunRows(p, draws);
      forall year | 1 <= year <= Years
        ensures r.value.rows[year - 1].demand == YearlyDemand(MonthlyDemand(p.baseMonthlyDemand, draws[..year]))
      {
        YearDemand(p, draws, year);
      }
    }
  }

  /**
   * The five-year loop. Effective breakdown is computed once before the loop;
   * each year compounds the monthly demand, simulates the year, adds to the
   * running totals and appends the year's row. A year that produces nothing,
   * or a zero five-year unit total, ends the run with a division error.
   */
  method RunSimulation(p: Params, draws: seq<Draw>) returns (outcome: Result<Report, Error>)
    requires |draws| == Years
    ensures outcome == Simulate(p, draws)
  {
    var effBreakdown := EffectiveBreakdown(p.breakdownProb, p.maintenanceEff);
    var monthlyDemand := p.baseMonthlyDemand;
    var totalCost := 0.0;
    var totalUnits := 0.0;
    var rows: seq<YearRow> := [];
    assert draws[..0] == [];
    assert YearResults(p, draws, |draws|)[..0] == [];
    for year := 1 to Years + 1
      invariant monthlyDemand == MonthlyDemand(p.baseMonthlyDemand, draws[..year - 1])
      invariant Collect(YearResults(p, draws, |draws|)[..year - 1]) == Ok(rows)
      invariant totalCost == SumCost(rows)
      invariant totalUnits == SumUnits(rows)
    {
      var d := draws[year - 1];
      YearDemandStep(p, draws, year, monthlyDemand);
      YearCollectStep(p, draws, year, rows);
      monthlyDemand := Compound(monthlyDemand, d);
      var step := RunYear(p, effBreakdown, year, monthlyDemand, d);
      if step.Err? {
        return Err(step.error);
      }
      var row := step.value;
      totalCost := totalCost + row.totalCost;
      totalUnits := totalUnits + RowUnits(row);
      SumsStep(rows, row);
      rows := rows + [row];
    }
    assert YearResults(p, draws, |draws|)[..Years] == YearResults(p, draws, |draws|);
    match Divide(totalCost, totalUnits)
    case None =>
      outcome := Err(ZeroTotalUnits);
    case Some(average) =>
      outcome := Ok(Report(rows, totalCost, totalUnits, average));
  }

  /**
   * Settings under which every stage has capacity: at least one machine per
   * stage, positive hours, a breakdown probability in [0, 1) and maintenance
   * efficiency in [0, 1].
   */
  predicate Staffed(p: Params)
  {
    && p.fleet.body >= 1 && p.fleet.paint >= 1 && p.fleet.engine >= 1 && p.fleet.final >= 1
    && p.availableHoursMonth > 0.0
    && 0.0 <= p.breakdownProb < 1.0
    && 0.0 <= p.maintenanceEff <= 1.0
  }

  /** Staffed settings with a positive base demand. */
  predicate Workable(p: Params)
  {
    Staffed(p) && p.baseMonthlyDemand > 0.0
  }

  /** With staffed settings and positive demand a year always produces something. */
  lemma YearSucceeds(p: Params, year: int, monthlyDemand: real, d: Draw)
    requires Staffed(p)
    requires monthlyDemand > 0.0
    ensures var r := SimulateYear(p, EffectiveBreakdown(p.breakdownProb, p.maintenanceEff), year, monthlyDemand, d);
      r.Ok? && RowUnits(r.value) > 0.0
  {
    var eb := EffectiveBreakdown(p.breakdownProb, p.maintenanceEff);
    var caps := YearCapacities(p, eb);
    EffectiveBreakdownRange(p.breakdownProb, p.maintenanceEff);
    assert eb < 1.0;
    var yearlyHours := p.availableHoursMonth * MonthsPerYear;
    assert yearlyHours > 0.0;
    StageCapacitiesPerStage(p.fleet, yearlyHours, eb);
    forall s ensures caps.Get(s) > 0.0 {
      StageCapacitySign(p.fleet.Machines(s), yearlyHours, eb);
    }
    ThroughputIsBottleneckCapacity(caps);
    ThroughputAfterInvestment(caps, year, p.investmentYear);
    var throughput := Throughput(Invest(caps, Bottleneck(caps), year, p.investmentYear));
    assert throughput > 0.0;
    assert YearlyDemand(monthlyDemand) > 0.0;
    YearFacts(p, eb, year, monthlyDemand, d);
  }

  /**
   * A stage without machines has no capacity, even after investment, so the
   * year produces nothing and the cost-per-unit division fails: the code has
   * no guard against a zero denominator.
   */
  lemma ZeroMachineStageFails(p: Params, effBreakdown: real, year: int, monthlyDemand: real, d: Draw, s: Stage)
    requires p.fleet.Machines(s) == 0
    requires p.availableHoursMonth >= 0.0 && effBreakdown <= 1.0
    requires monthlyDemand >= 0.0
    ensures SimulateYear(p, effBreakdown, year, monthlyDemand, d) == Err(ZeroUnitsProduced(year))
  {
    var yearlyHours := p.availableHoursMonth * MonthsPerYear;
    var caps := YearCapacities(p, effBreakdown);
    StageCapacitiesPerStage(p.fleet, yearlyHours, effBreakdown);
    StageCapacitySign(0, yearlyHours, effBreakdown);
    assert caps.Get(s) == 0.0;
    var b := Bottleneck(caps);
    var after := Invest(caps, b, year, p.investmentYear);
    InvestOnlyScalesTarget(caps, b, year, p.investmentYear);
    assert after.Get(s) == 0.0;
    ThroughputIsMinimum(after);
    ThroughputAfterInvestment(caps, year, p.investmentYear);
    ThroughputIsMinimum(caps);
    assert Throughput(after) == 0.0;
    YearFacts(p, effBreakdown, year, monthlyDemand, d);
  }

  /**
   * With workable settings and every draw in its sampler's range, the run
   * completes: no year divides by zero and neither does the five-year average.
   */
  lemma RunCompletes(p: Params, draws: seq<Draw>)
    requires |draws| == Years
    requires Workable(p)
    requires forall i :: 0 <= i < |draws| ==> InRange(draws[i])
    ensures Simulate(p, draws).Ok?
  {
    var rs := YearResults(p, draws, |draws|);
    forall i | 0 <= i < |rs|
      ensures rs[i].Ok? && RowUnits(rs[i].value) > 0.0
    {
      var year := i + 1;
      var prefix := draws[..year];
      assert forall k :: 0 <= k < |prefix| ==> prefix[k] == draws[k];
      DemandStaysPositive(p.baseMonthlyDemand, prefix);
      YearSucceeds(p, year, MonthlyDemand(p.baseMonthlyDemand, prefix), draws[year - 1]);
      YearResultsAt(p, draws, |draws|, year);
    }
    var rows := Collect(rs).value;
    SumUnitsPositive(rows);
  }
}
