/**
 * Stage capacities of the four-stage flow shop, the bottleneck stage,
 * the one-off strategic investment and the resulting throughput.
 */
module Capacity {
  import opened Arith

  /** The four production stages, in the order the capacity dictionary lists them. */
  datatype Stage = Body | Paint | Engine | Final

  /** Position of a stage in the capacity dictionary, which Python iterates in insertion order. */
  function Rank(s: Stage): nat
  {
    match s
    case Body => 0
    case Paint => 1
    case Engine => 2
    case Final => 3
  }

  /** Machine counts per stage. */
  datatype Fleet = Fleet(body: nat, paint: nat, engine: nat, final: nat)
  {
    function Machines(s: Stage): nat
    {
      match s
      case Body => body
      case Paint => paint
      case Engine => engine
      case Final => final
    }
  }

  /**
   * The capacities dictionary: yearly units per stage. Its keys are always
   * the four stages, so it is a record with one field per stage, read and
   * written by stage.
   */
  datatype Capacities = Capacities(body: real, paint: real, engine: real, final: real)
  {
    function Get(s: Stage): real
    {
      match s
      case Body => body
      case Paint => paint
      case Engine => engine
      case Final => final
    }

    /** The dictionary with one stage's entry replaced. */
    function Set(s: Stage, v: real): Capacities
    {
      match s
      case Body => this.(body := v)
      case Paint => this.(paint := v)
      case Engine => this.(engine := v)
      case Final => this.(final := v)
    }
  }

  predicate NonNegative(c: Capacities)
  {
    forall s :: c.Get(s) >= 0.0
  }

  /**
   * Breakdown probability reduced by maintenance. For probabilities in [0,1]
   * it lies between 0 and the raw breakdown probability.
   */
  function EffectiveBreakdown(breakdownProb: real, maintenanceEff: real): real
  {
    breakdownProb * (1.0 - maintenanceEff)
  }

  /**
   * For probabilities in [0,1] the effective breakdown lies between 0 and the
   * raw breakdown probability: full maintenance removes it, none leaves it as is.
   */
  lemma EffectiveBreakdownRange(breakdownProb: real, maintenanceEff: real)
    ensures var r := EffectiveBreakdown(breakdownProb, maintenanceEff);
      0.0 <= breakdownProb <= 1.0 && 0.0 <= maintenanceEff <= 1.0 ==> 0.0 <= r <= breakdownProb
    ensures maintenanceEff == 1.0 ==> EffectiveBreakdown(breakdownProb, maintenanceEff) == 0.0
    ensures maintenanceEff == 0.0 ==> EffectiveBreakdown(breakdownProb, maintenanceEff) == breakdownProb
  {
    ScaledWithin(breakdownProb, 1.0 - maintenanceEff);
  }

  /** Scaling a non-negative amount by a fraction in [0,1] keeps it within [0, amount]. */
  lemma ScaledWithin(x: real, f: real)
    ensures 0.0 <= x && 0.0 <= f <= 1.0 ==> 0.0 <= x * f <= x
  {
    if 0.0 <= x && 0.0 <= f <= 1.0 {
      assert x - x * f == x * (1.0 - f);
      assert x * (1.0 - f) >= 0.0;
    }
  }

  /** More maintenance never raises the effective breakdown. */
  lemma EffectiveBreakdownAntitone(breakdownProb: real, m1: real, m2: real)
    requires 0.0 <= breakdownProb
    requires m1 <= m2
    ensures EffectiveBreakdown(breakdownProb, m2) <= EffectiveBreakdown(breakdownProb, m1)
  {
    var e1, e2 := EffectiveBreakdown(breakdownProb, m1), EffectiveBreakdown(breakdownProb, m2);
    var gain := m2 - m1;
    NonNegativeProduct(breakdownProb, gain);
    assert e1 - e2 == breakdownProb * gain;
  }

  /** Yearly output of one stage: machines times yearly hours, derated by breakdowns. */
  function StageCapacity(machines: nat, yearlyHours: real, effBreakdown: real): real
  {
    machines as real * yearlyHours * (1.0 - effBreakdown)
  }

  /**
   * A stage's capacity is never negative for non-negative hours and a breakdown
   * rate of at most one, is zero without machines, and is positive with machines,
   * positive hours and a breakdown rate below one.
   */
  lemma StageCapacitySign(machines: nat, yearlyHours: real, effBreakdown: real)
    ensures yearlyHours >= 0.0 && effBreakdown <= 1.0 ==> StageCapacity(machines, yearlyHours, effBreakdown) >= 0.0
    ensures machines == 0 ==> StageCapacity(machines, yearlyHours, effBreakdown) == 0.0
    ensures machines > 0 && yearlyHours > 0.0 && effBreakdown < 1.0 ==> StageCapacity(machines, yearlyHours, effBreakdown) > 0.0
  {
    ProductSign(machines as real, yearlyHours, 1.0 - effBreakdown);
  }

  /** Sign of a product of three reals. */
  lemma ProductSign(x: real, y: real, z: real)
    ensures x >= 0.0 && y >= 0.0 && z >= 0.0 ==> x * y * z >= 0.0
    ensures x > 0.0 && y > 0.0 && z > 0.0 ==> x * y * z > 0.0
  {
    if x >= 0.0 && y >= 0.0 {
      assert x * y >= 0.0;
    }
    if x > 0.0 && y > 0.0 {
      assert x * y > 0.0;
    }
  }

  /** Adding machines to a stage never lowers its capacity. */
  lemma CapacityMonotoneInMachines(m1: nat, m2: nat, yearlyHours: real, effBreakdown: real)
    requires m1 <= m2
    requires yearlyHours >= 0.0 && effBreakdown <= 1.0
    ensures StageCapacity(m1, yearlyHours, effBreakdown) <= StageCapacity(m2, yearlyHours, effBreakdown)
  {
    var k := yearlyHours * (1.0 - effBreakdown);
    assert k >= 0.0;
    assert m2 as real * k - m1 as real * k == (m2 - m1) as real * k;
    assert (m2 - m1) as real * k >= 0.0;
    assert StageCapacity(m1, yearlyHours, effBreakdown) == m1 as real * k;
    assert StageCapacity(m2, yearlyHours, effBreakdown) == m2 as real * k;
  }

  /** Better maintenance never lowers a stage's capacity. */
  lemma CapacityMonotoneInMaintenance(machines: nat, yearlyHours: real, breakdownProb: real, m1: real, m2: real)
    requires yearlyHours >= 0.0 && 0.0 <= breakdownProb
    requires m1 <= m2
    ensures StageCapacity(machines, yearlyHours, EffectiveBreakdown(breakdownProb, m1))
         <= StageCapacity(machines, yearlyHours, EffectiveBreakdown(breakdownProb, m2))
  {
    var e1 := EffectiveBreakdown(breakdownProb, m1);
    var e2 := EffectiveBreakdown(breakdownProb, m2);
    EffectiveBreakdownAntitone(breakdownProb, m1, m2);
    var k := machines as real * yearlyHours;
    assert k >= 0.0;
    assert k * (1.0 - e2) - k * (1.0 - e1) == k * (e1 - e2);
    assert k * (e1 - e2) >= 0.0;
  }

  /** The capacities dictionary built from the fleet, in stage order. */
  function StageCapacities(fleet: Fleet, yearlyHours: real, effBreakdown: real): Capacities
  {
    Capacities(StageCapacity(fleet.body, yearlyHours, effBreakdown),
               StageCapacity(fleet.paint, yearlyHours, effBreakdown),
               StageCapacity(fleet.engine, yearlyHours, effBreakdown),
               StageCapacity(fleet.final, yearlyHours, effBreakdown))
  }

  /**
   * Each stage's entry is that stage's machines at the common yearly hours and
   * breakdown rate; with non-negative hours and a rate of at most one, none is negative.
   */
  lemma StageCapacitiesPerStage(fleet: Fleet, yearlyHours: real, effBreakdown: real)
    ensures var c := StageCapacities(fleet, yearlyHours, effBreakdown);
      forall s :: c.Get(s) == StageCapacity(fleet.Machines(s), yearlyHours, effBreakdown)
    ensures yearlyHours >= 0.0 && effBreakdown <= 1.0 ==> NonNegative(StageCapacities(fleet, yearlyHours, effBreakdown))
  {
    var c := StageCapacities(fleet, yearlyHours, effBreakdown);
    forall s ensures c.Get(s) == StageCapacity(fleet.Machines(s), yearlyHours, effBreakdown) {
      StageCapacitySign(fleet.Machines(s), yearlyHours, effBreakdown);
      match s
      case Body =>
      case Paint =>
      case Engine =>
      case Final =>
    }
  }

  /**
   * The bottleneck stage, as Python's min(d, key=d.get) finds it: the keys are
   * visited in dictionary order and the running best is replaced only by a
   * strictly smaller capacity.
   */
  function Bottleneck(c: Capacities): Stage
  {
    var best := Body;
    var best := if c.paint < c.Get(best) then Paint else best;
    var best := if c.engine < c.Get(best) then Engine else best;
    if c.final < c.Get(best) then Final else best
  }

  /**
   * The bottleneck is a first minimum: no stage has less capacity, and every
   * stage before it in Body, Paint, Engine, Final order has strictly more.
   */
  lemma BottleneckIsFirstMinimum(c: Capacities)
    ensures forall s :: c.Get(Bottleneck(c)) <= c.Get(s)
    ensures forall s :: Rank(s) < Rank(Bottleneck(c)) ==> c.Get(s) > c.Get(Bottleneck(c))
  {
    var b := Bottleneck(c);
    forall s ensures c.Get(b) <= c.Get(s) && (Rank(s) < Rank(b) ==> c.Get(s) > c.Get(b)) {
      match s
      case Body =>
      case Paint =>
      case Engine =>
      case Final =>
    }
  }

  /** Factor applied to the bottleneck's capacity in the investment year. */
  const InvestmentFactor: real := 1.2

  /** Strategic investment: in the investment year the given stage's capacity grows by 20 percent. */
  function Invest(c: Capacities, target: Stage, year: int, investmentYear: int): Capacities
  {
    if investmentYear == year then c.Set(target, c.Get(target) * InvestmentFactor) else c
  }

  /** Investment touches only the target stage, and only in the investment year. */
  lemma InvestOnlyScalesTarget(c: Capacities, target: Stage, year: int, investmentYear: int)
    ensures investmentYear != year ==> Invest(c, target, year, investmentYear) == c
    ensures investmentYear == year ==> Invest(c, target, year, investmentYear).Get(target) == InvestmentFactor * c.Get(target)
    ensures forall s :: s != target ==> Invest(c, target, year, investmentYear).Get(s) == c.Get(s)
  {
    var r := Invest(c, target, year, investmentYear);
    forall s | s != target ensures r.Get(s) == c.Get(s) {
      match target
      case Body =>
      case Paint =>
      case Engine =>
      case Final =>
    }
    if investmentYear == year {
      match target
      case Body =>
      case Paint =>
      case Engine =>
      case Final =>
    }
  }

  function Min(x: real, y: real): real
  {
    if x <= y then x else y
  }

  /** Throughput: the smallest of the four capacities. */
  function Throughput(c: Capacities): real
  {
    Min(Min(Min(c.body, c.paint), c.engine), c.final)
  }

  /** Throughput is a lower bound of the four capacities and one of them. */
  lemma ThroughputIsMinimum(c: Capacities)
    ensures forall s :: Throughput(c) <= c.Get(s)
    ensures exists s :: Throughput(c) == c.Get(s)
  {
    var t := Throughput(c);
    forall s ensures t <= c.Get(s) {
      match s
      case Body =>
      case Paint =>
      case Engine =>
      case Final =>
    }
    if t == c.body { assert t == c.Get(Body); }
    else if t == c.paint { assert t == c.Get(Paint); }
    else if t == c.engine { assert t == c.Get(Engine); }
    else { assert t == c.Get(Final); }
  }

  /** Before any investment the throughput is the bottleneck's capacity. */
  lemma ThroughputIsBottleneckCapacity(c: Capacities)
    ensures Throughput(c) == c.Get(Bottleneck(c))
  {
    BottleneckIsFirstMinimum(c);
    ThroughputIsMinimum(c);
    var s :| Throughput(c) == c.Get(s);
  }

  /**
   * Investing in the bottleneck raises throughput by at most 20 percent and
   * never lowers it; outside the investment year it is the bottleneck's capacity.
   */
  lemma ThroughputAfterInvestment(c: Capacities, year: int, investmentYear: int)
    requires NonNegative(c)
    ensures var after := Invest(c, Bottleneck(c), year, investmentYear);
      Throughput(c) <= Throughput(after) <= InvestmentFactor * Throughput(c)
    ensures investmentYear != year ==> Throughput(Invest(c, Bottleneck(c), year, investmentYear)) == c.Get(Bottleneck(c))
  {
    var b := Bottleneck(c);
    var after := Invest(c, b, year, investmentYear);
    ThroughputIsBottleneckCapacity(c);
    BottleneckIsFirstMinimum(c);
    InvestOnlyScalesTarget(c, b, year, investmentYear);
    ThroughputIsMinimum(after);
    var s :| Throughput(after) == after.Get(s);
    // lower bound: every capacity after investment is at least the old minimum
    if s == b {
      assert after.Get(s) >= c.Get(b);
    } else {
      assert after.Get(s) == c.Get(s) >= c.Get(b);
    }
    // upper bound: the bottleneck itself is at most 1.2 times the old minimum
    assert Throughput(after) <= after.Get(b);
    assert after.Get(b) <= InvestmentFactor * c.Get(b);
  }

  /** A concrete instance: capacities 480, 320, 576 and 640 make paint the bottleneck at 320. */
  lemma BottleneckExample()
    ensures var c := Capacities(480.0, 320.0, 576.0, 640.0);
      Bottleneck(c) == Paint && Throughput(c) == 320.0
  {
  }
}
