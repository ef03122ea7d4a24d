/**
 * The yearly random draws and the compounding of monthly demand.
 */
module Demand {
  import opened Arith

  /** Lower and upper bounds of the yearly demand-growth draw. */
  const MinGrowth: real := -0.10
  const MaxGrowth: real := 0.25

  /** Lower and upper bounds of the yearly inflation draw. */
  const MinInflation: real := 0.06
  const MaxInflation: real := 0.12

  /** One year's two draws, in the order they are taken: demand growth first, then inflation. */
  datatype Draw = Draw(growth: real, inflation: real)

  /** The draw lies in the sampler's ranges. */
  predicate InRange(d: Draw)
  {
    MinGrowth <= d.growth <= MaxGrowth && MinInflation <= d.inflation <= MaxInflation
  }

  /** Product of (1 + g) over the growth draws taken so far. */
  function GrowthFactor(draws: seq<Draw>): real
  {
    if draws == [] then 1.0
    else GrowthFactor(draws[..|draws| - 1]) * (1.0 + draws[|draws| - 1].growth)
  }

  /** x to the n-th power. */
  function Pow(x: real, n: nat): real
  {
    if n == 0 then 1.0 else Pow(x, n - 1) * x
  }

  /** Powers of a positive base are positive. */
  lemma {:induction false} PowPositive(x: real, n: nat)
    requires x > 0.0
    ensures Pow(x, n) > 0.0
  {
    if n > 0 {
      PowPositive(x, n - 1);
      PositiveProduct(Pow(x, n - 1), x);
    }
  }

  /**
   * With every growth draw in [-10%, +25%], after n years demand has grown
   * by a factor between 0.9^n and 1.25^n; in particular it stays positive.
   */
  lemma {:induction false} GrowthFactorBounds(draws: seq<Draw>)
    requires forall i :: 0 <= i < |draws| ==> InRange(draws[i])
    ensures Pow(1.0 + MinGrowth, |draws|) <= GrowthFactor(draws) <= Pow(1.0 + MaxGrowth, |draws|)
    ensures GrowthFactor(draws) > 0.0
  {
    if draws != [] {
      var n := |draws| - 1;
      var prefix := draws[..n];
      assert forall i :: 0 <= i < |prefix| ==> prefix[i] == draws[i];
      GrowthFactorBounds(prefix);
      var f := GrowthFactor(prefix);
      var step := 1.0 + draws[n].growth;
      assert InRange(draws[n]);
      assert 1.0 + MinGrowth <= step <= 1.0 + MaxGrowth;
      PowPositive(1.0 + MinGrowth, n);
      MulMonotone(Pow(1.0 + MinGrowth, n), f, 1.0 + MinGrowth, step);
      MulMonotone(f, Pow(1.0 + MaxGrowth, n), step, 1.0 + MaxGrowth);
      PositiveProduct(f, step);
    }
  }

  /** Monthly demand after the given years' draws, from a base level. */
  function MonthlyDemand(base: real, draws: seq<Draw>): real
  {
    base * GrowthFactor(draws)
  }

  /** Yearly demand is twelve months of the monthly level. */
  function YearlyDemand(monthlyDemand: real): real
  {
    monthlyDemand * 12.0
  }

  /** A positive base keeps monthly and yearly demand positive under in-range draws. */
  lemma DemandStaysPositive(base: real, draws: seq<Draw>)
    requires base > 0.0
    requires forall i :: 0 <= i < |draws| ==> InRange(draws[i])
    ensures MonthlyDemand(base, draws) > 0.0
    ensures YearlyDemand(MonthlyDemand(base, draws)) > 0.0
  {
    GrowthFactorBounds(draws);
    PositiveProduct(base, GrowthFactor(draws));
  }

  /** One year's growth applied to the monthly demand level. */
  function Compound(monthlyDemand: real, d: Draw): real
  {
    monthlyDemand * (1.0 + d.growth)
  }

  /** Compounding year by year reaches the closed-form level: base times the growth product. */
  lemma CompoundStep(base: real, draws: seq<Draw>, n: nat)
    requires 0 < n <= |draws|
    ensures MonthlyDemand(base, draws[..n]) == Compound(MonthlyDemand(base, draws[..n - 1]), draws[n - 1])
  {
    var upto := draws[..n];
    assert upto[..n - 1] == draws[..n - 1];
    assert upto[n - 1] == draws[n - 1];
    assert GrowthFactor(upto) == GrowthFactor(draws[..n - 1]) * (1.0 + draws[n - 1].growth);
  }
}
