/**
 * The year's cost items, units produced and the per-unit division.
 */
module Costing {
  import opened Wrappers
  import opened Capacity
  import opened Arith

  /** Cost per unit of capacity, per overtime hour, per setup hour, and the shortage penalty. */
  const MachineRate: real := 400.0
  const LaborRate: real := 50.0
  const SetupRate: real := 10.0
  const ShortagePenalty: real := 20000.0
  const MonthsPerYear: real := 12.0

  /** Sum of the four capacities. */
  function CapacitySum(c: Capacities): real
  {
    c.body + c.paint + c.engine + c.final
  }

  /** Machine cost: a rate on the summed capacities. */
  function MachineCost(c: Capacities): real
  {
    MachineRate * CapacitySum(c)
  }

  /** Labour cost: overtime hours per month, paid every month of the year. */
  function LaborCost(overtime: real): real
  {
    LaborRate * overtime * MonthsPerYear
  }

  /** Setup cost: monthly setup time, every month, at the setup rate. */
  function SetupCost(setupTime: real): real
  {
    setupTime * MonthsPerYear * SetupRate
  }

  /**
   * The shortage penalty is a flat amount, charged exactly when throughput
   * falls short of yearly demand, and never scaled by the size of the shortfall.
   */
  function PenaltyCost(throughput: real, yearlyDemand: real): (r: real)
    ensures r == 0.0 || r == ShortagePenalty
    ensures r > 0.0 <==> throughput < yearlyDemand
  {
    if throughput < yearlyDemand then ShortagePenalty else 0.0
  }

  /** The year's total cost: the four items, inflated by the year's inflation draw. */
  function TotalCost(c: Capacities, overtime: real, setupTime: real, throughput: real,
                     yearlyDemand: real, inflation: real): real
  {
    (MachineCost(c) + LaborCost(overtime) + SetupCost(setupTime) + PenaltyCost(throughput, yearlyDemand))
      * (1.0 + inflation)
  }

  /**
   * With non-negative capacities, overtime and setup time, the items are
   * non-negative, and so is the total under any inflation above -100%.
   */
  lemma TotalCostNonNegative(c: Capacities, overtime: real, setupTime: real, throughput: real,
                             yearlyDemand: real, inflation: real)
    requires NonNegative(c) && overtime >= 0.0 && setupTime >= 0.0 && inflation >= -1.0
    ensures CapacitySum(c) >= Throughput(c) >= 0.0
    ensures TotalCost(c, overtime, setupTime, throughput, yearlyDemand, inflation) >= 0.0
  {
    ThroughputIsMinimum(c);
    assert c.body >= 0.0 && c.paint >= 0.0 && c.engine >= 0.0 && c.final >= 0.0 by {
      assert c.Get(Body) >= 0.0 && c.Get(Paint) >= 0.0 && c.Get(Engine) >= 0.0 && c.Get(Final) >= 0.0;
    }
    assert Throughput(c) <= c.body;
    NonNegativeProduct(MachineRate, CapacitySum(c));
    NonNegativeProduct(LaborRate * overtime, MonthsPerYear);
    NonNegativeProduct(setupTime * MonthsPerYear, SetupRate);
    var nominal := MachineCost(c) + LaborCost(overtime) + SetupCost(setupTime) + PenaltyCost(throughput, yearlyDemand);
    assert nominal >= 0.0;
    NonNegativeProduct(nominal, 1.0 + inflation);
  }

  /**
   * The penalty is flat: any two shortfalls cost the same, and a shortfall costs
   * exactly the inflated penalty more than meeting demand.
   */
  lemma PenaltyIsFlat(c: Capacities, overtime: real, setupTime: real, throughput: real,
                      demand1: real, demand2: real, inflation: real)
    ensures throughput < demand1 && throughput < demand2 ==>
      TotalCost(c, overtime, setupTime, throughput, demand1, inflation)
        == TotalCost(c, overtime, setupTime, throughput, demand2, inflation)
    ensures throughput < demand1 && demand2 <= throughput ==>
      TotalCost(c, overtime, setupTime, throughput, demand1, inflation)
        == TotalCost(c, overtime, setupTime, throughput, demand2, inflation) + ShortagePenalty * (1.0 + inflation)
  {
    var base := MachineCost(c) + LaborCost(overtime) + SetupCost(setupTime);
    assert (base + ShortagePenalty) * (1.0 + inflation) == base * (1.0 + inflation) + ShortagePenalty * (1.0 + inflation);
  }

  /** Units produced: throughput, capped by demand. */
  function UnitsProduced(throughput: real, yearlyDemand: real): (u: real)
    ensures u <= throughput && u <= yearlyDemand
    ensures u == throughput || u == yearlyDemand
  {
    Min(throughput, yearlyDemand)
  }

  /** True division; None where Python raises ZeroDivisionError. */
  function Divide(numerator: real, denominator: real): (r: Option<real>)
    ensures r.None? <==> denominator == 0.0
    ensures r.Some? ==> r.value * denominator == numerator
  {
    if denominator == 0.0 then None else Some(numerator / denominator)
  }
}
