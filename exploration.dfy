/**
 * Parameter exploration around the simulation: one run from its settings to its
 * summary, which settings and seeds the replicate runs of an experiment get, the
 * dominance of signaling over reproduction, the dominance grid over shortfall
 * frequency and magnitude, and the search for settings at which the two strategies
 * come out roughly equal.
 */
module Exploration {
  import opened Config
  import opened Grid
  import Placement
  import Simulation
  import RealFacts
  import Shortfall

  function Abs(x: real): real
  {
    if x < 0.0 then -x else x
  }

  /** (sig - rep) / (sig + rep) when the total is positive and 0 otherwise: +1 when
      only signaling population remains, -1 when only reproduction population does. */
  function Dominance(sig: real, rep: real): (d: real)
    ensures sig + rep > 0.0 ==> (d > 0.0 <==> sig > rep) && (d < 0.0 <==> sig < rep)
    ensures sig + rep > 0.0 && rep == 0.0 ==> d == 1.0
    ensures sig + rep > 0.0 && sig == 0.0 ==> d == -1.0
    ensures sig + rep <= 0.0 ==> d == 0.0
    ensures sig >= 0.0 && rep >= 0.0 ==> -1.0 <= d <= 1.0
  {
    var total := sig + rep;
    if total > 0.0 then
      RatioFacts(sig - rep, total);
      (sig - rep) / total
    else 0.0
  }

  /** Sign and range of x / total for a positive total. */
  lemma RatioFacts(x: real, total: real)
    requires total > 0.0
    ensures x / total > 0.0 <==> x > 0.0
    ensures x / total < 0.0 <==> x < 0.0
    ensures x == total ==> x / total == 1.0
    ensures x == -total ==> x / total == -1.0
    ensures -total <= x <= total ==> -1.0 <= x / total <= 1.0
  {
    RealFacts.CompareRatio(x, total, 0.0);
    assert (-total) / total == -1.0;
    if -total <= x <= total {
      RealFacts.DivideMonotone(x, total, total);
      RealFacts.DivideMonotone(-total, x, total);
    }
  }

  /** The parameters of one run, as the dictionary handed to run_single_simulation:
      the simulation's keyword parameters and, under the key 'strategy_proportions'
      when present, the proportions for the initialization. */
  datatype Settings = Settings(params: Params, proportions: Option<seq<(Strategy, real)>>)

  /** One replicate run: its settings and its seed. */
  datatype Run = Run(settings: Settings, seed: int)

  /** One run: a simulation built from the settings' parameters, initialized with the
      settings' proportions (the even split when absent), run for `years` years and
      summarized. The seed's random number generator is modelled by its draws: the
      stream `random` of the years and the initialization's candidate cells, fill
      choices, shuffle and initial populations. The run starts (`started`) exactly when
      the initialization succeeds, from the groups `initial` built at the `centers` with
      the strategies drawn from the proportions; `trace` holds the years simulated from
      them, and a started run fails only at a year that is not safe. */
  method RunSingleSimulation(settings: Settings, years: nat, random: nat -> real, cells: nat -> Cell,
                             pick: nat -> nat, shuffle: seq<Strategy> -> seq<Strategy>, pops: nat -> real)
    returns (ok: bool, stats: Simulation.Summary, sim: Simulation.SpatialSimulation, ghost started: bool,
             ghost centers: seq<Cell>, ghost initial: map<int, Simulation.GroupState>,
             ghost trace: seq<Simulation.YearTrace>)
    requires settings.params.width >= 0 && settings.params.height >= 0 && WellDefined(settings.params)
    requires |Placement.Proportions(settings.proportions)| > 0 ==>
      forall k :: pick(k) < |Placement.Proportions(settings.proportions)|
    requires forall l :: multiset(shuffle(l)) == multiset(l)
    requires forall k :: 50.0 <= pops(k) < 100.0
    ensures fresh(sim) && sim.params == settings.params && sim.random == random
    ensures started <==> Started(settings)
    ensures ok ==> started
    ensures started ==> InitializedFrom(settings, pick, shuffle, pops, centers, initial)
    ensures started ==> sim.Traced(0, initial, Range(|centers|), 0, trace)
    ensures started && !ok ==> |trace| < years && sim.year == |trace| + 1
    ensures started && !ok ==> !sim.SafeYear(sim.year, Simulation.LastStates(initial, trace),
                                             Simulation.LastIds(Range(|centers|), trace))
    ensures ok ==> |trace| == years && sim.Valid() && sim.States() == Simulation.LastStates(initial, trace)
    ensures ok ==> sim.order == Simulation.LastIds(Range(|centers|), trace)
    ensures ok ==> sim.draws == Simulation.LastDraws(0, trace)
    ensures ok ==> |sim.totalPopulationHistory| == years
    ensures ok ==> Simulation.Recorded(sim.totalPopulationHistory, sim.signalingPopulationHistory,
                                       sim.reproductionPopulationHistory, sim.conflictsPerYear,
                                       sim.avgMonumentHistory, 0, trace)
    ensures ok ==> stats == sim.SummaryStatistics()
    ensures ok ==> stats.finalYear == years
    ensures ok && years > 0 ==> stats.totalPopulation == Simulation.StatsOf(trace[years - 1]).total
    ensures ok ==> stats.signalingGroups + stats.reproductionGroups == stats.groupsRemaining
    ensures ok ==> stats.groupsRemaining <= if settings.params.nGroups > 0 then settings.params.nGroups else 0
  {
    ok, sim, centers, initial := StartSimulation(settings, random, cells, pick, shuffle, pops);
    started := ok;
    trace := [];
    stats := Simulation.Summary(0, 0.0, 0, 0, 0, 0.0, 0.0, 0, 0.0, 0.0);
    if !ok {
      return;
    }
    ok, stats, trace := RunStarted(sim, years, |centers|, settings.params.nGroups, initial);
  }

  /** The years and the summary of a run whose groups, numbered below m, start as
      `initial` at year 0 with empty histories. */
  method RunStarted(sim: Simulation.SpatialSimulation, years: nat, ghost m: nat, ghost nGroups: int,
                    ghost initial: map<int, Simulation.GroupState>)
    returns (ok: bool, stats: Simulation.Summary, ghost trace: seq<Simulation.YearTrace>)
    requires sim.Valid() && WellDefined(sim.params) && sim.year == 0 && sim.States() == initial
    requires sim.totalPopulationHistory == [] && sim.signalingPopulationHistory == []
    requires sim.reproductionPopulationHistory == [] && sim.conflictsPerYear == [] && sim.avgMonumentHistory == []
    requires forall id :: id in initial ==> 0 <= id < m
    requires m == if nGroups > 0 then nGroups else 0
    modifies sim, sim.groups.Values
    ensures sim.Traced(0, initial, old(sim.order), old(sim.draws), trace)
    ensures !ok ==> |trace| < years && sim.year == |trace| + 1
    ensures !ok ==> !sim.SafeYear(sim.year, Simulation.LastStates(initial, trace), Simulation.LastIds(old(sim.order), trace))
    ensures ok ==> |trace| == years && sim.Valid() && sim.States() == Simulation.LastStates(initial, trace)
    ensures ok ==> sim.order == Simulation.LastIds(old(sim.order), trace)
    ensures ok ==> sim.draws == Simulation.LastDraws(old(sim.draws), trace)
    ensures ok ==> |sim.totalPopulationHistory| == years
    ensures ok ==> Simulation.Recorded(sim.totalPopulationHistory, sim.signalingPopulationHistory,
                                       sim.reproductionPopulationHistory, sim.conflictsPerYear,
                                       sim.avgMonumentHistory, 0, trace)
    ensures ok ==> stats == sim.SummaryStatistics()
    ensures ok ==> stats.finalYear == years
    ensures ok && years > 0 ==> stats.totalPopulation == Simulation.StatsOf(trace[years - 1]).total
    ensures ok ==> stats.signalingGroups + stats.reproductionGroups == stats.groupsRemaining
    ensures ok ==> stats.groupsRemaining <= if nGroups > 0 then nGroups else 0
  {
    stats := Simulation.Summary(0, 0.0, 0, 0, 0, 0.0, 0.0, 0, 0.0, 0.0);
    ghost var live := sim.groups;
    assert forall id :: id in live ==> id in initial;
    ok, trace := sim.Run(years);
    if !ok {
      return;
    }
    assert forall id :: id in sim.groups ==> id in live;
    if years > 0 {
      assert sim.totalPopulationHistory[years - 1] == Simulation.StatsOf(trace[years - 1]).total;
    }
    SummaryOfRun(sim, years, m, nGroups);
    stats := sim.SummaryStatistics();
  }

  /** The summary of a finished run of `years` years over groups numbered below m, where
      m is the requested number of groups when positive and 0 otherwise. */
  lemma SummaryOfRun(sim: Simulation.SpatialSimulation, years: nat, m: nat, nGroups: int)
    requires sim.Valid() && sim.year == years && |sim.totalPopulationHistory| == years
    requires forall id :: id in sim.groups ==> 0 <= id < m
    requires m == if nGroups > 0 then nGroups else 0
    ensures var stats := sim.SummaryStatistics();
      && stats.finalYear == years
      && (years > 0 ==> stats.totalPopulation == sim.totalPopulationHistory[years - 1])
      && stats.signalingGroups + stats.reproductionGroups == stats.groupsRemaining
      && stats.groupsRemaining <= if nGroups > 0 then nGroups else 0
  {
    sim.SummaryCountsSplit();
    KeysBelow(sim.groups.Keys, m);
  }

  /** A simulation built from the settings' parameters and initialized with their
      proportions: it starts exactly when the initialization succeeds, at year 0 with
      empty histories, with the groups `initial` numbered 0 .. |centers| - 1 in order,
      each built at its center with the strategy drawn for it. */
  method StartSimulation(settings: Settings, random: nat -> real, cells: nat -> Cell, pick: nat -> nat,
                         shuffle: seq<Strategy> -> seq<Strategy>, pops: nat -> real)
    returns (ok: bool, sim: Simulation.SpatialSimulation, ghost centers: seq<Cell>,
             ghost initial: map<int, Simulation.GroupState>)
    requires settings.params.width >= 0 && settings.params.height >= 0 && WellDefined(settings.params)
    requires |Placement.Proportions(settings.proportions)| > 0 ==>
      forall k :: pick(k) < |Placement.Proportions(settings.proportions)|
    requires forall l :: multiset(shuffle(l)) == multiset(l)
    requires forall k :: 50.0 <= pops(k) < 100.0
    ensures fresh(sim) && sim.params == settings.params && sim.random == random && sim.draws == 0
    ensures ok <==> Started(settings)
    ensures ok ==> sim.Valid() && sim.year == 0 && sim.States() == initial && sim.order == Range(|centers|)
    ensures ok ==> forall g :: g in sim.groups.Values ==> fresh(g)
    ensures ok ==> sim.totalPopulationHistory == [] && sim.signalingPopulationHistory == []
    ensures ok ==> sim.reproductionPopulationHistory == [] && sim.conflictsPerYear == [] && sim.avgMonumentHistory == []
    ensures ok ==> InitializedFrom(settings, pick, shuffle, pops, centers, initial)
    ensures ok && settings.params.nGroups > 0 ==> |centers| == settings.params.nGroups
    ensures settings.params.nGroups <= 0 ==> |centers| == 0
  {
    sim := new Simulation.SpatialSimulation(settings.params, random);
    ok, centers := sim.InitializeGroups(settings.proportions, cells, pick, shuffle, pops);
    initial := sim.States();
    if ok {
      assert sim.order == Range(|centers|);
    }
  }

  /** The initialization succeeds: groups, a grid and proportions to draw from, or no
      groups and no grid. */
  predicate Started(settings: Settings)
  {
    var p := settings.params;
    || (p.nGroups > 0 && p.width > 0 && p.height > 0 && |Placement.Proportions(settings.proportions)| > 0)
    || (p.nGroups <= 0 && (p.width == 0 || p.height == 0))
  }

  /** The groups at the start of a run: numbered 0 .. |centers| - 1, each built at its
      center with the strategy drawn for it from the proportions and its initial
      population. */
  ghost predicate InitializedFrom(settings: Settings, pick: nat -> nat, shuffle: seq<Strategy> -> seq<Strategy>,
                                  pops: nat -> real, centers: seq<Cell>, initial: map<int, Simulation.GroupState>)
    requires Started(settings) && settings.params.width >= 0 && settings.params.height >= 0
    requires |Placement.Proportions(settings.proportions)| > 0 ==>
      forall k :: pick(k) < |Placement.Proportions(settings.proportions)|
  {
    && (forall id :: id in initial <==> 0 <= id < |centers|)
    && |centers| <= |InitialStrategies(settings, pick, shuffle)|
    && forall i :: 0 <= i < |centers| ==>
      initial[i] == Simulation.InitialState(settings.params, i, InitialStrategies(settings, pick, shuffle)[i], pops(i),
                                            centers, settings.params.width, settings.params.height)
  }

  /** The strategies of the groups in order: the list drawn from the proportions, shuffled. */
  function InitialStrategies(settings: Settings, pick: nat -> nat, shuffle: seq<Strategy> -> seq<Strategy>): seq<Strategy>
    requires Started(settings)
    requires |Placement.Proportions(settings.proportions)| > 0 ==>
      forall k :: pick(k) < |Placement.Proportions(settings.proportions)|
  {
    shuffle(Placement.StrategySpec(Placement.Proportions(settings.proportions), settings.params.nGroups, pick))
  }

  /** A set of ids below m has at most m members: it lies within the ids 0 .. m - 1. */
  lemma KeysBelow(ids: set<int>, m: nat)
    requires forall id :: id in ids ==> 0 <= id < m
    ensures |ids| <= m
  {
    var range := Range(m);
    var all := set x | x in range;
    forall id | id in ids
      ensures id in all
    {
      assert range[id] == id;
    }
    RangeCard(m);
    var rest := all - ids;
    assert all == ids + rest;
    assert ids * rest == {};
  }

  /** The ids 0 .. m - 1 in order. */
  function Range(m: nat): (r: seq<int>)
    ensures |r| == m && forall i :: 0 <= i < m ==> r[i] == i
  {
    seq(m, i => i)
  }

  /** The ids 0 .. m - 1 are m distinct ids. */
  lemma {:induction false} RangeCard(m: nat)
    ensures |set x | x in Range(m)| == m
  {
    if m > 0 {
      RangeCard(m - 1);
      var range, prev := Range(m), Range(m - 1);
      assert range == prev + [m - 1];
      assert (set x | x in range) == (set x | x in prev) + {m - 1};
    }
  }

  /** The parameters explore_resource_uncertainty starts from when none are given: a
      40 x 40 grid with 16 groups and the constructor's defaults otherwise. */
  function ExplorationBase(): (p: Params)
    ensures p.width == 40 && p.height == 40 && p.nGroups == 16
    ensures WellDefined(p)
  {
    DefaultParams().(width := 40, height := 40, nGroups := 16)
  }

  /** The replicate runs of one (frequency, magnitude) cell: the base parameters with
      that shortfall frequency and magnitude, the even split of strategies, and seed
      seedOffset + rep for replicate rep. */
  function CellRuns(base: Params, freq: int, mag: real, replicates: nat, seedOffset: int): seq<Run>
  {
    seq(replicates, rep => Run(Settings(base.(shortfallFrequency := freq, shortfallMagnitude := mag),
                                        Some([(CostlySignaling, 0.5), (HighReproduction, 0.5)])),
                               seedOffset + rep))
  }

  /** One cell of an experiment: its key and its replicate runs. */
  datatype CellPlan<K> = CellPlan(key: K, runs: seq<Run>)

  /** The runs of explore_resource_uncertainty, cell by cell in loop order: for each
      frequency, for each magnitude. */
  function ExplorationPlan(base: Params, freqs: seq<int>, mags: seq<real>, replicates: nat, seedOffset: int)
    : (plan: seq<CellPlan<(int, real)>>)
    ensures |plan| == |freqs| * |mags|
  {
    if |freqs| == 0 then []
    else
      var init := freqs[..|freqs| - 1];
      var f := freqs[|freqs| - 1];
      NextRow(|init|, |mags|);
      ExplorationPlan(base, init, mags, replicates, seedOffset) + PlanRow(base, f, mags, replicates, seedOffset)
  }

  /** The cells of one frequency, one per magnitude in order. */
  function PlanRow(base: Params, f: int, mags: seq<real>, replicates: nat, seedOffset: int)
    : (row: seq<CellPlan<(int, real)>>)
    ensures |row| == |mags|
    ensures forall mi :: 0 <= mi < |mags| ==> row[mi] == CellPlan((f, mags[mi]), CellRuns(base, f, mags[mi], replicates, seedOffset))
  {
    seq(|mags|, mi requires 0 <= mi < |mags| => CellPlan((f, mags[mi]), CellRuns(base, f, mags[mi], replicates, seedOffset)))
  }

  /** Cell (fi, mi) of the plan sits at index fi * |mags| + mi and holds the runs of
      frequency freqs[fi] and magnitude mags[mi]. */
  lemma {:induction false} PlanCell(base: Params, freqs: seq<int>, mags: seq<real>, replicates: nat, seedOffset: int,
                                    fi: nat, mi: nat)
    requires fi < |freqs| && mi < |mags|
    ensures var plan := ExplorationPlan(base, freqs, mags, replicates, seedOffset);
      fi * |mags| + mi < |plan| &&
      plan[fi * |mags| + mi] == CellPlan((freqs[fi], mags[mi]), CellRuns(base, freqs[fi], mags[mi], replicates, seedOffset))
  {
    var init := freqs[..|freqs| - 1];
    var prev := ExplorationPlan(base, init, mags, replicates, seedOffset);
    var row := PlanRow(base, freqs[|freqs| - 1], mags, replicates, seedOffset);
    var plan := ExplorationPlan(base, freqs, mags, replicates, seedOffset);
    assert plan == prev + row;
    RowOffset(fi, |init|, |mags|, mi);
    if fi < |init| {
      PlanCell(base, init, mags, replicates, seedOffset, fi, mi);
      assert plan[fi * |mags| + mi] == prev[fi * |mags| + mi];
    } else {
      assert plan[fi * |mags| + mi] == row[mi];
    }
  }

  /** One row more is width entries more. */
  lemma NextRow(rows: nat, width: nat)
    ensures (rows + 1) * width == rows * width + width
  {
  }

  /** Entry (fi, mi) of an earlier row lies before row r; of row r itself, mi past its start. */
  lemma RowOffset(fi: nat, r: nat, width: nat, mi: nat)
    requires fi <= r && mi < width
    ensures fi < r ==> fi * width + mi < r * width
    ensures fi == r ==> fi * width + mi == r * width + mi
  {
    if fi < r {
      assert r * width - fi * width == (r - fi) * width;
      Shortfall.MultipleBound(r - fi, width);
    }
  }

  /** Replicate rep gets seed seedOffset + rep in every cell: the seeds depend on the
      replicate alone, so every cell sees the same sequence of seeds. */
  lemma ExplorationSeedsByReplicate(base: Params, freqs: seq<int>, mags: seq<real>, replicates: nat, seedOffset: int,
                                    a: nat, b: nat, rep: nat)
    requires a < |freqs| * |mags| && b < |freqs| * |mags| && rep < replicates
    ensures var plan := ExplorationPlan(base, freqs, mags, replicates, seedOffset);
      |plan[a].runs| == |plan[b].runs| == replicates &&
      plan[a].runs[rep].seed == plan[b].runs[rep].seed == seedOffset + rep
  {
    var plan := ExplorationPlan(base, freqs, mags, replicates, seedOffset);
    CellOfIndex(base, freqs, mags, replicates, seedOffset, a);
    CellOfIndex(base, freqs, mags, replicates, seedOffset, b);
  }

  /** Every cell of the plan is the runs of some (frequency, magnitude) pair. */
  lemma CellOfIndex(base: Params, freqs: seq<int>, mags: seq<real>, replicates: nat, seedOffset: int, a: nat)
    requires a < |freqs| * |mags|
    ensures var plan := ExplorationPlan(base, freqs, mags, replicates, seedOffset);
      exists fi, mi :: 0 <= fi < |freqs| && 0 <= mi < |mags| && plan[a] ==
        CellPlan((freqs[fi], mags[mi]), CellRuns(base, freqs[fi], mags[mi], replicates, seedOffset))
  {
    var m := |mags|;
    IndexSplits(a, |freqs|, m);
    var fi, mi := a / m, a % m;
    PlanCell(base, freqs, mags, replicates, seedOffset, fi, mi);
  }

  /** An index below rows * width splits into a row below rows and a column below width. */
  lemma IndexSplits(a: nat, rows: nat, width: nat)
    requires a < rows * width
    ensures width > 0 && 0 <= a / width < rows && 0 <= a % width < width && a == a / width * width + a % width
  {
    assert width != 0 by {
      assert rows * 0 == 0;
    }
    RowOffsetAtLeast(rows, a / width, width);
  }

  /** Rows are laid out in order: row fi starts at or after row r when fi >= r. */
  lemma RowOffsetAtLeast(r: nat, fi: nat, width: nat)
    ensures r <= fi ==> r * width <= fi * width
  {
    if r < fi {
      assert fi * width - r * width == (fi - r) * width;
    }
  }

  /** The runs of compare_strategy_proportions, one cell per signaling proportion p:
      the base parameters with the given shortfall, proportions p for signaling and
      1 - p for reproduction, and seed rep for replicate rep. */
  function ComparisonPlan(base: Params, freq: int, mag: real, proportions: seq<real>, replicates: nat)
    : (plan: seq<CellPlan<real>>)
    ensures |plan| == |proportions|
    ensures forall k, rep :: 0 <= k < |plan| && 0 <= rep < replicates ==>
      (|plan[k].runs| == replicates && plan[k].key == proportions[k] &&
       plan[k].runs[rep].seed == rep &&
       plan[k].runs[rep].settings.params == base.(shortfallFrequency := freq, shortfallMagnitude := mag) &&
       plan[k].runs[rep].settings.proportions == Some([(CostlySignaling, proportions[k]), (HighReproduction, 1.0 - proportions[k])]))
  {
    seq(|proportions|, k requires 0 <= k < |proportions| =>
      CellPlan(proportions[k], ComparisonRuns(base.(shortfallFrequency := freq, shortfallMagnitude := mag), proportions[k], replicates)))
  }

  /** The replicate runs of one compared proportion p: seed rep for replicate rep. */
  function ComparisonRuns(params: Params, p: real, replicates: nat): seq<Run>
  {
    seq(replicates, rep => Run(Settings(params, Some([(CostlySignaling, p), (HighReproduction, 1.0 - p)])), rep))
  }

  /** A compared proportion p in [0, 1] yields proportions that sum to one, so every
      run of the comparison starts with exactly n_groups strategies. */
  lemma ComparedSplitIsComplete(p: real, n: int, pick: nat -> nat)
    requires 0.0 <= p <= 1.0 && n >= 0
    requires forall k :: pick(k) < 2
    ensures var props := [(CostlySignaling, p), (HighReproduction, 1.0 - p)];
      Placement.TotalProportion(props) == 1.0 && |Placement.StrategySpec(props, n, pick)| == n
  {
    var props := [(CostlySignaling, p), (HighReproduction, 1.0 - p)];
    assert props[..1] == [(CostlySignaling, p)];
    assert props[..1][..0] == [];
    assert Placement.TotalProportion(props[..1]) == p;
    assert Placement.TotalProportion(props) == p + (1.0 - p) == 1.0;
    Placement.StrategyListShape(props, n, pick);
  }

  /** One entry of an experiment's results: its frequency and magnitude and the mean
      final populations of the two strategies over its replicates. */
  datatype Entry = Entry(freq: int, mag: real, signalingPopMean: real, reproductionPopMean: real)

  /** The entry stored under (freq, mag), if any. */
  function Find(results: seq<Entry>, freq: int, mag: real): (e: Option<Entry>)
    ensures e.None? <==> forall i :: 0 <= i < |results| ==> !(results[i].freq == freq && results[i].mag == mag)
    ensures e.Some? ==> e.value in results && e.value.freq == freq && e.value.mag == mag
  {
    if |results| == 0 then None
    else if results[0].freq == freq && results[0].mag == mag then Some(results[0])
    else
      var rest := Find(results[1..], freq, mag);
      assert forall i :: 1 <= i < |results| ==> results[i] == results[1..][i - 1];
      rest
  }

  /** The dominance shown for (freq, mag): the entry's dominance, or 0 without an entry. */
  function CellDominance(results: seq<Entry>, freq: int, mag: real): (d: real)
    ensures Find(results, freq, mag).None? ==> d == 0.0
    ensures (forall i :: 0 <= i < |results| ==> results[i].signalingPopMean >= 0.0 && results[i].reproductionPopMean >= 0.0)
      ==> -1.0 <= d <= 1.0
  {
    match Find(results, freq, mag)
    case None => 0.0
    case Some(e) => Dominance(e.signalingPopMean, e.reproductionPopMean)
  }

  /** The dominance grid: row i is magnitude mags[i], column j is frequency freqs[j],
      and each cell holds that setting's dominance (0 where the results have none). */
  method DominanceGrid(results: seq<Entry>, freqs: seq<int>, mags: seq<real>) returns (z: array2<real>)
    ensures fresh(z) && z.Length0 == |mags| && z.Length1 == |freqs|
    ensures forall i, j :: 0 <= i < |mags| && 0 <= j < |freqs| ==> z[i, j] == CellDominance(results, freqs[j], mags[i])
  {
    z := new real[|mags|, |freqs|]((_, _) => 0.0);
    for i := 0 to |mags|
      invariant forall i', j :: 0 <= i' < i && 0 <= j < |freqs| ==> z[i', j] == CellDominance(results, freqs[j], mags[i'])
      invariant forall i', j :: i <= i' < |mags| && 0 <= j < |freqs| ==> z[i', j] == 0.0
    {
      for j := 0 to |freqs|
        invariant forall i', j' :: 0 <= i' < i && 0 <= j' < |freqs| ==> z[i', j'] == CellDominance(results, freqs[j'], mags[i'])
        invariant forall j' :: 0 <= j' < j ==> z[i, j'] == CellDominance(results, freqs[j'], mags[i])
        invariant forall i', j' :: i <= i' < |mags| && 0 <= j' < |freqs| && (i' > i || j' >= j) ==> z[i', j'] == 0.0
      {
        var e := Find(results, freqs[j], mags[i]);
        if e.Some? {
          z[i, j] := Dominance(e.value.signalingPopMean, e.value.reproductionPopMean);
        }
      }
    }
  }

  /** A setting at which the strategies are roughly equal, with its closeness. */
  datatype Transition = Transition(freq: int, mag: real, dominance: real)

  /** |sig - rep| / total for a positive total: how far apart the strategies are. */
  function Closeness(e: Entry): (c: real)
    requires e.signalingPopMean + e.reproductionPopMean > 0.0
    ensures c == Abs(Dominance(e.signalingPopMean, e.reproductionPopMean))
    ensures c >= 0.0
  {
    var total := e.signalingPopMean + e.reproductionPopMean;
    var d := e.signalingPopMean - e.reproductionPopMean;
    assert Abs(d) / total == Abs(d / total) by {
      if d < 0.0 {
        assert -d / total == -(d / total);
      }
    }
    Abs(d) / total
  }

  /** An entry is a transition when its total is positive and its closeness is below
      the threshold. */
  predicate IsTransition(e: Entry, threshold: real)
  {
    e.signalingPopMean + e.reproductionPopMean > 0.0 && Closeness(e) < threshold
  }

  /** The transitions among the results, in results order. */
  function Transitions(results: seq<Entry>, threshold: real): (ts: seq<Transition>)
    ensures |ts| <= |results|
  {
    if |results| == 0 then []
    else
      var e := results[|results| - 1];
      Transitions(results[..|results| - 1], threshold) +
        (if IsTransition(e, threshold) then [Transition(e.freq, e.mag, Closeness(e))] else [])
  }

  /** The transitions are exactly the transition entries with their closeness. */
  lemma {:induction false} TransitionsMembers(results: seq<Entry>, threshold: real)
    ensures forall t :: t in Transitions(results, threshold) <==>
      exists i :: (0 <= i < |results| && IsTransition(results[i], threshold) &&
        t == Transition(results[i].freq, results[i].mag, Closeness(results[i])))
  {
    if |results| > 0 {
      var init := results[..|results| - 1];
      TransitionsMembers(init, threshold);
      forall t | t in Transitions(results, threshold)
        ensures exists i :: (0 <= i < |results| && IsTransition(results[i], threshold) &&
          t == Transition(results[i].freq, results[i].mag, Closeness(results[i])))
      {
        if t in Transitions(init, threshold) {
          var i :| 0 <= i < |init| && IsTransition(init[i], threshold) &&
            t == Transition(init[i].freq, init[i].mag, Closeness(init[i]));
          assert results[i] == init[i];
        }
      }
      forall t | exists i :: (0 <= i < |results| && IsTransition(results[i], threshold) &&
          t == Transition(results[i].freq, results[i].mag, Closeness(results[i])))
        ensures t in Transitions(results, threshold)
      {
        var i :| 0 <= i < |results| && IsTransition(results[i], threshold) &&
          t == Transition(results[i].freq, results[i].mag, Closeness(results[i]));
        if i < |init| {
          assert results[i] == init[i];
        }
      }
    }
  }

  /** Ascending by closeness. */
  predicate SortedByDominance(ts: seq<Transition>)
  {
    forall i, j :: 0 <= i < j < |ts| ==> ts[i].dominance <= ts[j].dominance
  }

  /** t placed before the first entry whose closeness is not smaller. */
  function Insert(t: Transition, sorted: seq<Transition>): (r: seq<Transition>)
    requires SortedByDominance(sorted)
    ensures SortedByDominance(r)
    ensures multiset(r) == multiset(sorted) + multiset{t}
  {
    if |sorted| == 0 then [t]
    else if t.dominance <= sorted[0].dominance then [t] + sorted
    else
      var rest := Insert(t, sorted[1..]);
      InsertAfterHead(t, sorted, rest);
      [sorted[0]] + rest
  }

  /** Putting the head back in front of the insertion into the tail keeps the order
      and the contents. */
  lemma InsertAfterHead(t: Transition, sorted: seq<Transition>, rest: seq<Transition>)
    requires SortedByDominance(sorted) && |sorted| > 0 && sorted[0].dominance < t.dominance
    requires SortedByDominance(rest) && multiset(rest) == multiset(sorted[1..]) + multiset{t}
    ensures SortedByDominance([sorted[0]] + rest)
    ensures multiset([sorted[0]] + rest) == multiset(sorted) + multiset{t}
  {
    assert sorted == [sorted[0]] + sorted[1..];
    forall i | 0 <= i < |rest|
      ensures sorted[0].dominance <= rest[i].dominance
    {
      assert rest[i] in multiset(rest);
      if rest[i] != t {
        assert rest[i] in multiset(sorted[1..]);
        var j :| 0 <= j < |sorted[1..]| && sorted[1..][j] == rest[i];
        assert sorted[j + 1] == rest[i];
      }
    }
    var r := [sorted[0]] + rest;
    forall i, j | 0 <= i < j < |r|
      ensures r[i].dominance <= r[j].dominance
    {
      if i > 0 {
        assert r[i] == rest[i - 1] && r[j] == rest[j - 1];
      } else {
        assert r[j] == rest[j - 1];
      }
    }
  }

  /** The list sorted by closeness. */
  function SortByDominance(ts: seq<Transition>): (r: seq<Transition>)
    ensures SortedByDominance(r)
    ensures multiset(r) == multiset(ts)
  {
    if |ts| == 0 then []
    else
      assert ts == [ts[0]] + ts[1..];
      Insert(ts[0], SortByDominance(ts[1..]))
  }

  /** The settings at which the strategies come out within `threshold` of each other:
      every entry with a positive total whose closeness |sig - rep| / total is below
      the threshold, paired with that closeness, sorted ascending by it. */
  method IdentifyCriticalTransitions(results: seq<Entry>, threshold: real) returns (transitions: seq<Transition>)
    ensures SortedByDominance(transitions)
    ensures multiset(transitions) == multiset(Transitions(results, threshold))
    ensures forall t :: t in transitions <==>
      exists i :: (0 <= i < |results| && IsTransition(results[i], threshold) &&
        t == Transition(results[i].freq, results[i].mag, Closeness(results[i])))
    ensures forall t :: t in transitions ==> 0.0 <= t.dominance < threshold
    ensures |transitions| <= |results|
  {
    transitions := [];
    for k := 0 to |results|
      invariant transitions == Transitions(results[..k], threshold)
    {
      var e := results[k];
      var total := e.signalingPopMean + e.reproductionPopMean;
      if total > 0.0 {
        var dominance := Abs(e.signalingPopMean - e.reproductionPopMean) / total;
        if dominance < threshold {
          transitions := transitions + [Transition(e.freq, e.mag, dominance)];
        }
      }
      assert results[..k + 1][..k] == results[..k];
    }
    assert results[..|results|] == results;
    var found := transitions;
    transitions := SortByDominance(found);
    TransitionsMembers(results, threshold);
    assert forall t :: t in transitions <==> t in found by {
      forall t
        ensures t in transitions <==> t in found
      {
        assert t in transitions <==> t in multiset(transitions);
        assert t in found <==> t in multiset(found);
      }
    }
    assert |transitions| == |multiset(transitions)| == |multiset(found)| == |found|;
  }
}
