/**
 * Sums and counts over snapshots of the live groups, in the simulation's group order:
 * the quantities recorded in the simulation history and the summary statistics.
 */
module Statistics {
  import opened Config
  import opened RealFacts

  /** What the history and the summary read of one live group. */
  datatype GroupRecord = GroupRecord(id: int, strategy: Strategy, territorySize: nat, population: real, monument: real)

  /** Sum of all populations. */
  function TotalPopulation(rs: seq<GroupRecord>): real
  {
    if |rs| == 0 then 0.0 else TotalPopulation(rs[..|rs| - 1]) + rs[|rs| - 1].population
  }

  /** The records of one strategy, in order. */
  function OfStrategy(rs: seq<GroupRecord>, s: Strategy): (out: seq<GroupRecord>)
    ensures |out| <= |rs|
    ensures forall r :: r in out <==> r in rs && r.strategy == s
  {
    if |rs| == 0 then []
    else OfStrategy(rs[..|rs| - 1], s) + (if rs[|rs| - 1].strategy == s then [rs[|rs| - 1]] else [])
  }

  /** Sum of the populations of one strategy. */
  function StrategyPopulation(rs: seq<GroupRecord>, s: Strategy): real
  {
    TotalPopulation(OfStrategy(rs, s))
  }

  /** Number of groups of one strategy. */
  function StrategyCount(rs: seq<GroupRecord>, s: Strategy): (n: nat)
    ensures n <= |rs|
  {
    |OfStrategy(rs, s)|
  }

  function SumMonuments(rs: seq<GroupRecord>): real
  {
    if |rs| == 0 then 0.0 else SumMonuments(rs[..|rs| - 1]) + rs[|rs| - 1].monument
  }

  function SumTerritories(rs: seq<GroupRecord>): (total: real)
    ensures total >= 0.0
  {
    if |rs| == 0 then 0.0 else SumTerritories(rs[..|rs| - 1]) + rs[|rs| - 1].territorySize as real
  }

  /** Mean monument investment of the signaling groups, 0 when there are none. */
  function MeanSignalingMonument(rs: seq<GroupRecord>): (mean: real)
    ensures StrategyCount(rs, CostlySignaling) == 0 ==> mean == 0.0
  {
    var sig := OfStrategy(rs, CostlySignaling);
    if |sig| == 0 then 0.0 else SumMonuments(sig) / |sig| as real
  }

  /** Mean territory size of the groups of one strategy, 0 when there are none. */
  function MeanTerritory(rs: seq<GroupRecord>, s: Strategy): (mean: real)
    ensures StrategyCount(rs, s) == 0 ==> mean == 0.0
    ensures mean >= 0.0
  {
    var of, n := OfStrategy(rs, s), StrategyCount(rs, s);
    if n == 0 then 0.0
    else
      DivideCancels(SumTerritories(of) / n as real, SumTerritories(of), n as real);
      SumTerritories(of) / n as real
  }

  /** A total of non-negative populations is non-negative. */
  lemma {:induction false} TotalNonNegative(rs: seq<GroupRecord>)
    requires forall r :: r in rs ==> r.population >= 0.0
    ensures TotalPopulation(rs) >= 0.0
  {
    if |rs| > 0 {
      assert rs[|rs| - 1] in rs;
      assert forall r :: r in rs[..|rs| - 1] ==> r in rs;
      TotalNonNegative(rs[..|rs| - 1]);
    }
  }

  /** With non-negative populations, the population of one strategy lies between zero
      and the total. */
  lemma StrategyPopulationBounds(rs: seq<GroupRecord>, s: Strategy)
    requires forall r :: r in rs ==> r.population >= 0.0
    ensures 0.0 <= StrategyPopulation(rs, s) <= TotalPopulation(rs)
  {
    TotalNonNegative(OfStrategy(rs, CostlySignaling));
    TotalNonNegative(OfStrategy(rs, HighReproduction));
    TotalSplitsByStrategy(rs);
  }

  /** A strategy has no groups exactly when no record has that strategy, and then its
      population and mean territory are 0. */
  lemma StrategyAbsent(rs: seq<GroupRecord>, s: Strategy)
    ensures StrategyCount(rs, s) == 0 <==> forall r :: r in rs ==> r.strategy != s
    ensures StrategyCount(rs, s) == 0 ==> StrategyPopulation(rs, s) == 0.0 && MeanTerritory(rs, s) == 0.0
  {
    var of := OfStrategy(rs, s);
    if |of| > 0 {
      assert of[0] in of;
    }
  }

  /** The mean monument of the signaling groups times their number is their total
      monument. */
  lemma MeanSignalingMonumentTotal(rs: seq<GroupRecord>)
    ensures MeanSignalingMonument(rs) * StrategyCount(rs, CostlySignaling) as real ==
      SumMonuments(OfStrategy(rs, CostlySignaling))
  {
    if StrategyCount(rs, CostlySignaling) > 0 {
      SomeSignalingGroups(rs);
    } else {
      NoSignalingGroups(rs);
    }
  }

  lemma SomeSignalingGroups(rs: seq<GroupRecord>)
    requires StrategyCount(rs, CostlySignaling) > 0
    ensures MeanSignalingMonument(rs) * StrategyCount(rs, CostlySignaling) as real ==
      SumMonuments(OfStrategy(rs, CostlySignaling))
  {
    DivideCancels(MeanSignalingMonument(rs), SumMonuments(OfStrategy(rs, CostlySignaling)),
                  StrategyCount(rs, CostlySignaling) as real);
  }

  lemma NoSignalingGroups(rs: seq<GroupRecord>)
    requires StrategyCount(rs, CostlySignaling) == 0
    ensures MeanSignalingMonument(rs) * StrategyCount(rs, CostlySignaling) as real ==
      SumMonuments(OfStrategy(rs, CostlySignaling))
  {
    assert OfStrategy(rs, CostlySignaling) == [];
  }

  /** With no negative monument the mean monument is non-negative. */
  lemma MeanSignalingMonumentNonNegative(rs: seq<GroupRecord>)
    requires forall r :: r in rs ==> r.monument >= 0.0
    ensures MeanSignalingMonument(rs) >= 0.0
  {
    var sig := OfStrategy(rs, CostlySignaling);
    if |sig| > 0 {
      MonumentsNonNegative(sig);
      DivideCancels(MeanSignalingMonument(rs), SumMonuments(sig), |sig| as real);
    }
  }

  lemma {:induction false} MonumentsNonNegative(rs: seq<GroupRecord>)
    requires forall r :: r in rs ==> r.monument >= 0.0
    ensures SumMonuments(rs) >= 0.0
  {
    if |rs| > 0 {
      assert rs[|rs| - 1] in rs;
      assert forall r :: r in rs[..|rs| - 1] ==> r in rs;
      MonumentsNonNegative(rs[..|rs| - 1]);
    }
  }

  function SumInts(xs: seq<int>): (sum: int)
    ensures (forall x :: x in xs ==> x >= 0) ==> sum >= 0
  {
    if |xs| == 0 then 0
    else
      var init := xs[..|xs| - 1];
      assert forall x :: x in init ==> x in xs;
      assert xs[|xs| - 1] in xs;
      SumInts(xs[..|xs| - 1]) + xs[|xs| - 1]
  }

  lemma SumIntsAppend(xs: seq<int>, x: int)
    ensures SumInts(xs + [x]) == SumInts(xs) + x
  {
    assert (xs + [x])[..|xs|] == xs;
  }

  /** Splitting the records by strategy splits the total population. */
  lemma {:induction false} TotalSplitsByStrategy(rs: seq<GroupRecord>)
    ensures TotalPopulation(rs) == StrategyPopulation(rs, CostlySignaling) + StrategyPopulation(rs, HighReproduction)
  {
    if |rs| > 0 {
      var init, last := rs[..|rs| - 1], rs[|rs| - 1];
      TotalSplitsByStrategy(init);
      var sig, rep := OfStrategy(init, CostlySignaling), OfStrategy(init, HighReproduction);
      assert TotalPopulation(rs) == TotalPopulation(init) + last.population;
      if last.strategy == CostlySignaling {
        assert OfStrategy(rs, CostlySignaling) == sig + [last];
        assert OfStrategy(rs, HighReproduction) == rep;
        TotalAppend(sig, last);
      } else {
        assert OfStrategy(rs, CostlySignaling) == sig;
        assert OfStrategy(rs, HighReproduction) == rep + [last];
        TotalAppend(rep, last);
      }
    }
  }

  /** Every group has one of the two strategies. */
  lemma {:induction false} CountSplitsByStrategy(rs: seq<GroupRecord>)
    ensures StrategyCount(rs, CostlySignaling) + StrategyCount(rs, HighReproduction) == |rs|
  {
    if |rs| > 0 {
      CountSplitsByStrategy(rs[..|rs| - 1]);
    }
  }

  lemma TotalAppend(rs: seq<GroupRecord>, r: GroupRecord)
    ensures TotalPopulation(rs + [r]) == TotalPopulation(rs) + r.population
  {
    assert (rs + [r])[..|rs|] == rs;
  }

  /** A total over groups that each hold more than one person exceeds the group count. */
  lemma {:induction false} TotalExceedsCount(rs: seq<GroupRecord>)
    requires forall i :: 0 <= i < |rs| ==> rs[i].population > 1.0
    ensures TotalPopulation(rs) >= |rs| as real
    ensures |rs| > 0 ==> TotalPopulation(rs) > |rs| as real
  {
    if |rs| > 0 {
      TotalExceedsCount(rs[..|rs| - 1]);
    }
  }
}
