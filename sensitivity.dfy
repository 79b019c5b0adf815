/**
 * The parameter sensitivity validation: replicate runs along a transect of shortfall
 * frequency and magnitude for several values of the conflict-reduction coefficient r,
 * each run seeded by a fixed formula, summarized by the dominance of signaling over
 * reproduction, and the first point along the transect where that dominance changes
 * sign, located by linear interpolation.
 */
module SensitivityValidation {
  import opened Config
  import opened Grid
  import opened Statistics
  import Simulation
  import Exploration
  import RealFacts
  import Shortfall
  import Sharing

  const BaseSeed: int := 20260112
  const NReplicates: nat := 5
  const NTransectPoints: nat := 12

  /** The conflict-reduction values compared. */
  const RValues: seq<real> := [0.50, 0.75, 0.90]

  /** Python's list.index: the position of the first occurrence, None where the list
      would raise ValueError. */
  function IndexOf(xs: seq<real>, x: real): (r: Option<nat>)
    ensures r.None? <==> x !in xs
    ensures r.Some? ==> r.value < |xs| && xs[r.value] == x && forall j :: 0 <= j < r.value ==> xs[j] != x
  {
    if |xs| == 0 then None
    else if xs[0] == x then Some(0)
    else
      match IndexOf(xs[1..], x)
      case None => None
      case Some(k) => Some(k + 1)
  }

  /** The seed of replicate rep at transect point `point` for the value r: the base seed
      plus rep * 1000 + point * 100 + 10000 times the position of r; None where r is
      not one of the compared values (the source raises). */
  function ComputeSeed(r: real, point: int, rep: int): (seed: Option<int>)
    ensures seed.None? <==> r !in RValues
  {
    match IndexOf(RValues, r)
    case None => None
    case Some(idx) => Some(BaseSeed + rep * 1000 + point * 100 + idx * 10000)
  }

  /** Within the configured transect and replicates, the ten-thousands of a seed's
      offset from the base seed name the r value, and the rest is rep * 1000 + point * 100. */
  lemma SeedEncodesRValue(r: real, point: int, rep: int)
    requires r in RValues && 0 <= point < NTransectPoints && 0 <= rep < NReplicates
    ensures var seed := ComputeSeed(r, point, rep);
      && seed.Some?
      && 0 <= (seed.value - BaseSeed) / 10000 < |RValues|
      && RValues[(seed.value - BaseSeed) / 10000] == r
      && (seed.value - BaseSeed) % 10000 == rep * 1000 + point * 100
  {
    var idx := IndexOf(RValues, r).value;
    var low := rep * 1000 + point * 100;
    assert 0 <= low < 10000;
    var offset := ComputeSeed(r, point, rep).value - BaseSeed;
    assert offset == idx * 10000 + low;
    Shortfall.ModUnique(offset, idx, low, 10000);
  }

  /** Runs for different r values never share a seed. */
  lemma SeedsSeparateRValues(r1: real, point1: int, rep1: int, r2: real, point2: int, rep2: int)
    requires r1 in RValues && 0 <= point1 < NTransectPoints && 0 <= rep1 < NReplicates
    requires r2 in RValues && 0 <= point2 < NTransectPoints && 0 <= rep2 < NReplicates
    requires r1 != r2
    ensures ComputeSeed(r1, point1, rep1) != ComputeSeed(r2, point2, rep2)
  {
    SeedEncodesRValue(r1, point1, rep1);
    SeedEncodesRValue(r2, point2, rep2);
  }

  /** On the first ten points every (point, replicate) pair has its own seed. */
  lemma SeedsDistinctBelowTenPoints(r: real, point1: int, rep1: int, point2: int, rep2: int)
    requires r in RValues && 0 <= point1 < 10 && 0 <= rep1 < NReplicates && 0 <= point2 < 10 && 0 <= rep2 < NReplicates
    requires (point1, rep1) != (point2, rep2)
    ensures ComputeSeed(r, point1, rep1) != ComputeSeed(r, point2, rep2)
  {
    var low1, low2 := rep1 * 1000 + point1 * 100, rep2 * 1000 + point2 * 100;
    if low1 == low2 {
      Shortfall.ModUnique(low1 / 100, rep1, point1, 10);
      Shortfall.ModUnique(low1 / 100, rep2, point2, 10);
    }
  }

  /** The transect has twelve points, so the formula is not one-to-one on it: point 10
      of replicate 0 gets the seed of point 0 of replicate 1. */
  lemma SeedCollision(r: real)
    requires r in RValues
    ensures ComputeSeed(r, 10, 0).Some? && ComputeSeed(r, 10, 0) == ComputeSeed(r, 0, 1)
  {
  }

  /** The i-th transect frequency: numpy's linspace from 18 down to 6 in twelve points. */
  function TransectFreq(i: int): (freq: real)
    ensures i == 0 ==> freq == 18.0
    ensures i == NTransectPoints - 1 ==> freq == 6.0
    ensures 0 <= i < NTransectPoints ==> 6.0 <= freq <= 18.0
  {
    18.0 + i as real * (6.0 - 18.0) / 11.0
  }

  /** The i-th transect magnitude: linspace from 0.3 up to 0.7 in twelve points. */
  function TransectMag(i: int): (mag: real)
    ensures i == 0 ==> mag == 0.3
    ensures i == NTransectPoints - 1 ==> mag == 0.7
    ensures 0 <= i < NTransectPoints ==> 0.3 <= mag <= 0.7
  {
    0.3 + i as real * (0.7 - 0.3) / 11.0
  }

  /** The simulation parameters of one run: a 40 x 40 grid with 16 groups, the
      truncated frequency, the magnitude, r, and monument cost 0.35; every other
      parameter keeps the constructor's default. */
  function TransectParams(freq: real, mag: real, r: real): (p: Params)
    ensures p.width == 40 && p.height == 40 && p.nGroups == 16 && p.monumentCost == 0.35
    ensures p.shortfallFrequency == Shortfall.Trunc(freq) && p.shortfallMagnitude == mag && p.signalingConflictReduction == r
    ensures freq >= 1.0 && 0.0 <= mag <= 1.0 && r >= 0.0 ==> WellDefined(p)
  {
    DefaultParams().(width := 40, height := 40, nGroups := 16, shortfallFrequency := Shortfall.Trunc(freq),
                     shortfallMagnitude := mag, signalingConflictReduction := r, monumentCost := 0.35)
  }

  /** Every transect point gives well-defined parameters, a frequency between 6 and 18
      years, and shortfalls of one or two years that end before the next one starts. */
  lemma TransectPointsWellDefined(i: int, r: real)
    requires 0 <= i < NTransectPoints && r >= 0.0
    ensures var p := TransectParams(TransectFreq(i), TransectMag(i), r);
      && WellDefined(p)
      && 6 <= p.shortfallFrequency <= 18
      && 1 <= Shortfall.ShortfallDuration(p.shortfallMagnitude) <= 2 < p.shortfallFrequency
  {
    var f, m := TransectFreq(i), TransectMag(i);
    assert 6.0 <= f <= 18.0;
    assert 0.3 <= m <= 0.7;
    Shortfall.DurationByMagnitude(m);
  }

  /** What run_simulation reports of one run. */
  datatype TransectResult = TransectResult(signalingPop: real, reproductionPop: real, totalPop: real, dominance: real)

  /** The live groups of a valid simulation each hold more than one person. */
  lemma RecordsPopulated(sim: Simulation.SpatialSimulation)
    requires sim.Valid()
    ensures forall r :: r in sim.Records() ==> r.population > 1.0
  {
    var rs := sim.Records();
    forall r | r in rs
      ensures r.population > 1.0
    {
      var i :| 0 <= i < |rs| && rs[i] == r;
      assert sim.order[i] in sim.groups;
    }
  }

  /** One strategy's population over records that each hold more than one person is
      not negative. */
  lemma StrategyPopulationNonNegative(rs: seq<GroupRecord>, s: Strategy)
    requires forall r :: r in rs ==> r.population > 1.0
    ensures StrategyPopulation(rs, s) >= 0.0
  {
    var of := OfStrategy(rs, s);
    assert forall i :: 0 <= i < |of| ==> of[i] in rs;
    TotalExceedsCount(of);
  }

  /** One run of the validation: a simulation with the transect parameters, the
      default proportions, `years` steps, and then the final population of each
      strategy, their sum and the dominance of signaling. The seed is modelled by its
      draws, as in Exploration.RunSingleSimulation. */
  method RunTransectSimulation(freq: real, mag: real, r: real, years: nat, random: nat -> real, cells: nat -> Cell,
                               pick: nat -> nat, shuffle: seq<Strategy> -> seq<Strategy>, pops: nat -> real)
    returns (ok: bool, result: TransectResult, sim: Simulation.SpatialSimulation, ghost started: bool,
             ghost centers: seq<Cell>, ghost initial: map<int, Simulation.GroupState>,
             ghost trace: seq<Simulation.YearTrace>)
    requires freq >= 1.0 && 0.0 <= mag <= 1.0 && r >= 0.0
    requires forall k :: pick(k) < 2
    requires forall l :: multiset(shuffle(l)) == multiset(l)
    requires forall k :: 50.0 <= pops(k) < 100.0
    ensures fresh(sim) && sim.params == TransectParams(freq, mag, r) && sim.random == random
    ensures var settings := Exploration.Settings(TransectParams(freq, mag, r), None);
      && (started <==> Exploration.Started(settings))
      && (started ==> Exploration.InitializedFrom(settings, pick, shuffle, pops, centers, initial))
    ensures started ==> sim.Traced(0, initial, Exploration.Range(|centers|), 0, trace)
    ensures started && !ok ==> |trace| < years && sim.year == |trace| + 1
    ensures started && !ok ==> !sim.SafeYear(sim.year, Simulation.LastStates(initial, trace),
                                             Simulation.LastIds(Exploration.Range(|centers|), trace))
    ensures ok ==> started && |trace| == years && sim.States() == Simulation.LastStates(initial, trace)
    ensures ok ==> sim.order == Simulation.LastIds(Exploration.Range(|centers|), trace)
    ensures ok && years > 0 ==> sim.YearDone(trace[years - 1])
    ensures ok && years > 0 ==> result.totalPop == Simulation.StatsOf(trace[years - 1]).total
    ensures ok ==> sim.Valid() && sim.year == years
    ensures ok ==> result.signalingPop == StrategyPopulation(sim.Records(), CostlySignaling)
    ensures ok ==> result.reproductionPop == StrategyPopulation(sim.Records(), HighReproduction)
    ensures ok ==> result.totalPop == TotalPopulation(sim.Records())
    ensures ok ==> result.dominance == Exploration.Dominance(result.signalingPop, result.reproductionPop)
    ensures ok ==> -1.0 <= result.dominance <= 1.0
  {
    var settings := Exploration.Settings(TransectParams(freq, mag, r), None);
    var stats;
    ok, stats, sim, started, centers, initial, trace :=
      Exploration.RunSingleSimulation(settings, years, random, cells, pick, shuffle, pops);
    result := TransectResult(0.0, 0.0, 0.0, 0.0);
    if !ok {
      return;
    }
    var sig, rep := stats.signalingPopulation, stats.reproductionPopulation;
    TotalSplitsByStrategy(sim.Records());
    RecordsPopulated(sim);
    StrategyPopulationNonNegative(sim.Records(), CostlySignaling);
    StrategyPopulationNonNegative(sim.Records(), HighReproduction);
    result := TransectResult(sig, rep, sig + rep, Exploration.Dominance(sig, rep));
    if years > 0 {
      sim.SnapshotOfStates();
      assert sim.Records() == Sharing.InOrder(Simulation.RecordsOf(trace[years - 1].end), trace[years - 1].endIds);
    }
  }

  /** Dominance strictly changes sign from a to b; a zero on either side is no change. */
  predicate SignChange(a: real, b: real)
  {
    (a < 0.0 && b > 0.0) || (a > 0.0 && b < 0.0)
  }

  /** The first i at or after `from` where dom[i] and dom[i + 1] change sign. */
  function FirstSignChange(dom: seq<real>, from: nat): (i: Option<nat>)
    ensures i.None? <==> forall j :: from <= j < |dom| - 1 ==> !SignChange(dom[j], dom[j + 1])
    ensures i.Some? ==> (from <= i.value < |dom| - 1 && SignChange(dom[i.value], dom[i.value + 1]) &&
                         forall j :: from <= j < i.value ==> !SignChange(dom[j], dom[j + 1]))
    decreases |dom| - from
  {
    if from + 1 >= |dom| then None
    else if SignChange(dom[from], dom[from + 1]) then Some(from)
    else FirstSignChange(dom, from + 1)
  }

  /** An approximate crossover: its frequency, magnitude and fractional transect index. */
  datatype Crossover = Crossover(freq: real, mag: real, index: real)

  /** x lies between a and b, in either order. */
  predicate Between(x: real, a: real, b: real)
  {
    (a <= x <= b) || (b <= x <= a)
  }

  /** The fraction t = -a / (b - a) of the way from a to b where the line through
      them crosses zero. */
  function ZeroFraction(a: real, b: real): (t: real)
    requires SignChange(a, b)
    ensures 0.0 < t < 1.0
  {
    ZeroFractionInside(a, b);
    -a / (b - a)
  }

  /** On a strict sign change the zero of the line lies strictly between the points. */
  lemma ZeroFractionInside(a: real, b: real)
    requires SignChange(a, b)
    ensures 0.0 < -a / (b - a) < 1.0
  {
    if a < 0.0 {
      RealFacts.CompareRatio(-a, b - a, 0.0);
      RealFacts.CompareRatio(-a, b - a, 1.0);
    } else {
      assert -a / (b - a) == a / (a - b);
      RealFacts.CompareRatio(a, a - b, 0.0);
      RealFacts.CompareRatio(a, a - b, 1.0);
    }
  }

  /** The crossover interpolated between transect points i and i + 1. */
  function CrossoverAt(dom: seq<real>, freqs: seq<real>, mags: seq<real>, i: nat): Crossover
    requires i + 1 < |dom| && i + 1 < |freqs| && i + 1 < |mags|
    requires SignChange(dom[i], dom[i + 1])
  {
    var t := ZeroFraction(dom[i], dom[i + 1]);
    Crossover(Lerp(freqs[i], freqs[i + 1], t), Lerp(mags[i], mags[i + 1], t), i as real + t)
  }

  /** The point a fraction t of the way from x0 to x1. */
  function Lerp(x0: real, x1: real, t: real): real
  {
    x0 + t * (x1 - x0)
  }

  /** A point a fraction t in [0, 1] of the way from x0 to x1 lies between them. */
  lemma LerpBetween(x0: real, x1: real, t: real)
    requires 0.0 <= t <= 1.0
    ensures Between(Lerp(x0, x1, t), x0, x1)
  {
    var d := x1 - x0;
    var p := t * d;
    if d >= 0.0 {
      RealFacts.ScaleMonotone(0.0, t, d);
      RealFacts.ScaleMonotone(t, 1.0, d);
      assert 0.0 <= p <= d;
    } else {
      RealFacts.ScaleMonotone(0.0, t, -d);
      RealFacts.ScaleMonotone(t, 1.0, -d);
      assert p == -(t * -d);
      assert d <= p <= 0.0;
    }
  }

  /** The interpolated crossover lies strictly between indices i and i + 1, and its
      frequency and magnitude lie between those of the two transect points. */
  lemma CrossoverInside(dom: seq<real>, freqs: seq<real>, mags: seq<real>, i: nat)
    requires i + 1 < |dom| && i + 1 < |freqs| && i + 1 < |mags|
    requires SignChange(dom[i], dom[i + 1])
    ensures var c := CrossoverAt(dom, freqs, mags, i);
      && i as real < c.index < i as real + 1.0
      && Between(c.freq, freqs[i], freqs[i + 1])
      && Between(c.mag, mags[i], mags[i + 1])
  {
    var t := ZeroFraction(dom[i], dom[i + 1]);
    LerpBetween(freqs[i], freqs[i + 1], t);
    LerpBetween(mags[i], mags[i + 1], t);
  }

  /** The scan of find_crossover: the crossover at the first sign change along the
      transect, or None when the dominance never strictly changes sign. */
  method FindCrossover(dom: seq<real>, freqs: seq<real>, mags: seq<real>) returns (c: Option<Crossover>)
    requires |freqs| >= |dom| && |mags| >= |dom|
    ensures c.None? <==> forall i :: 0 <= i < |dom| - 1 ==> !SignChange(dom[i], dom[i + 1])
    ensures c == match FirstSignChange(dom, 0)
                 case None => None
                 case Some(i) => Some(CrossoverAt(dom, freqs, mags, i))
  {
    var n := if |dom| > 0 then |dom| - 1 else 0;
    for i := 0 to n
      invariant FirstSignChange(dom, 0) == FirstSignChange(dom, i)
    {
      if SignChange(dom[i], dom[i + 1]) {
        assert FirstSignChange(dom, i) == Some(i);
        return Some(CrossoverAt(dom, freqs, mags, i));
      }
    }
    assert FirstSignChange(dom, n) == None;
    return None;
  }
}
