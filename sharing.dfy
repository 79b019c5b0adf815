/**
 * Resource sharing among signaling groups in shortfall years, as a function of the
 * groups' state at the start of the sharing phase: each signaling group is classified
 * by its fill of capacity, every group with a surplus gives to its adjacent needy
 * signaling groups, a receiver gains half of each per-neighbour share and the giver
 * pays a quarter of it.
 */
module Sharing {
  import opened Config
  import opened Statistics
  import opened RealFacts

  datatype Classification = Neutral | NeedsResources(deficit: real) | CanShare(surplus: real)

  /** Fill of capacity; a group without capacity counts as full. */
  function ResourceRatio(p: Params, population: real, territorySize: nat): real
  {
    var capacity := territorySize as real * p.carryingCapacityPerCell;
    if capacity > 0.0 then population / capacity else 1.0
  }

  /** Below 60% of capacity a group needs resources, above 70% it can share. */
  function Classify(p: Params, population: real, territorySize: nat): (c: Classification)
    ensures c.NeedsResources? ==> 0.0 < c.deficit
    ensures c.CanShare? ==> 0.0 < c.surplus
  {
    var ratio := ResourceRatio(p, population, territorySize);
    if ratio < 0.6 then NeedsResources(0.6 - ratio)
    else if ratio > 0.7 then CanShare(ratio - 0.7)
    else Neutral
  }

  /** The classification in terms of population and capacity. */
  lemma ClassifyByCapacity(p: Params, population: real, territorySize: nat)
    requires territorySize as real * p.carryingCapacityPerCell > 0.0
    ensures var capacity := territorySize as real * p.carryingCapacityPerCell;
      && (Classify(p, population, territorySize).NeedsResources? <==> population < 0.6 * capacity)
      && (Classify(p, population, territorySize).CanShare? <==> population > 0.7 * capacity)
      && (Classify(p, population, territorySize).CanShare? ==>
            Classify(p, population, territorySize).surplus * capacity == population - 0.7 * capacity)
  {
    var capacity := territorySize as real * p.carryingCapacityPerCell;
    var ratio := population / capacity;
    assert ResourceRatio(p, population, territorySize) == ratio;
    CompareRatio(population, capacity, 0.6);
    CompareRatio(population, capacity, 0.7);
    assert ratio * capacity == population;
    assert (ratio - 0.7) * capacity == population - 0.7 * capacity;
  }

  /** Sharing grows with the severity of the shortfall. */
  function ShareScale(p: Params): real
  {
    0.4 + p.shortfallMagnitude * 1.75
  }

  /** What a group with the given surplus shares out in total. */
  function ShareAmount(p: Params, population: real, surplus: real): real
  {
    population * p.cooperationSharingRate * surplus * ShareScale(p)
  }

  /** One giver's transfer: its amount is split evenly over its receivers. */
  datatype Gift = Gift(giver: int, receivers: set<int>, amount: real)

  /** The adjacent live signaling groups that need resources. */
  function Receivers(p: Params, groups: map<int, GroupRecord>, neighbours: set<int>): (r: set<int>)
    ensures r <= neighbours && r <= groups.Keys
  {
    set n | n in neighbours && n in groups && groups[n].strategy == CostlySignaling
            && Classify(p, groups[n].population, groups[n].territorySize).NeedsResources?
  }

  /** The gift of group id, if it can share and has a needy signaling neighbour. */
  function GiftOf(p: Params, groups: map<int, GroupRecord>, adjacency: map<int, set<int>>, id: int): (gs: seq<Gift>)
    requires id in groups && id in adjacency
    ensures |gs| <= 1
    ensures forall g :: g in gs ==> g.giver == id && g.receivers != {} && g.receivers <= groups.Keys
                                     && g.receivers <= adjacency[id]
  {
    var r := groups[id];
    match Classify(p, r.population, r.territorySize)
    case CanShare(surplus) =>
      var receivers := Receivers(p, groups, adjacency[id]);
      if receivers == {} then [] else [Gift(id, receivers, ShareAmount(p, r.population, surplus))]
    case _ => []
  }

  /** The gifts of the given signaling groups, in their order. */
  function Plan(p: Params, groups: map<int, GroupRecord>, adjacency: map<int, set<int>>, ids: seq<int>): (gifts: seq<Gift>)
    requires forall id :: id in ids ==> id in groups && id in adjacency
    ensures forall g :: g in gifts ==> g.giver in ids && g.receivers != {} && g.receivers <= groups.Keys
                                       && g.receivers <= adjacency[g.giver]
  {
    if |ids| == 0 then []
    else Plan(p, groups, adjacency, ids[..|ids| - 1]) + GiftOf(p, groups, adjacency, ids[|ids| - 1])
  }

  /** What each receiver of a gift gains: half of its per-receiver share. */
  function ReceiverGain(g: Gift): real
  {
    if g.receivers == {} then 0.0 else g.amount / |g.receivers| as real * 0.5
  }

  /** What group id receives from a single gift. */
  function ReceivedFrom(g: Gift, id: int): real
  {
    if id in g.receivers then ReceiverGain(g) else 0.0
  }

  /** What group id receives from all gifts. */
  function Received(gifts: seq<Gift>, id: int): real
  {
    if |gifts| == 0 then 0.0 else Received(gifts[..|gifts| - 1], id) + ReceivedFrom(gifts[|gifts| - 1], id)
  }

  /** What group id pays for its gifts: a quarter of each amount. */
  function Given(gifts: seq<Gift>, id: int): real
  {
    if |gifts| == 0 then 0.0
    else Given(gifts[..|gifts| - 1], id) + (if gifts[|gifts| - 1].giver == id then gifts[|gifts| - 1].amount * 0.25 else 0.0)
  }

  /** The total of all gift amounts. */
  function Shared(gifts: seq<Gift>): real
  {
    if |gifts| == 0 then 0.0 else Shared(gifts[..|gifts| - 1]) + gifts[|gifts| - 1].amount
  }

  /** The groups after all gifts: only populations change. */
  function Apply(groups: map<int, GroupRecord>, gifts: seq<Gift>): (after: map<int, GroupRecord>)
    ensures after.Keys == groups.Keys
  {
    map id | id in groups :: groups[id].(population := groups[id].population + Received(gifts, id) - Given(gifts, id))
  }

  /** The signaling groups among ids, in order. */
  function SignalingIds(groups: map<int, GroupRecord>, ids: seq<int>): (sig: seq<int>)
    requires forall id :: id in ids ==> id in groups
    ensures forall id :: id in sig <==> id in ids && groups[id].strategy == CostlySignaling
  {
    if |ids| == 0 then []
    else
      var last := ids[|ids| - 1];
      assert last in ids;
      SignalingIds(groups, ids[..|ids| - 1]) + (if groups[last].strategy == CostlySignaling then [last] else [])
  }

  /** The sharing phase: nothing happens outside shortfall years or with fewer than two
      live signaling groups. */
  function ShareStep(p: Params, shortfall: bool, groups: map<int, GroupRecord>, adjacency: map<int, set<int>>,
                     order: seq<int>): (after: map<int, GroupRecord>)
    requires forall id :: id in order ==> id in groups && id in adjacency
    ensures after.Keys == groups.Keys
  {
    var sig := SignalingIds(groups, order);
    if !shortfall || |sig| < 2 then groups else Apply(groups, Plan(p, groups, adjacency, sig))
  }

  // ----- sums over the groups -----

  /** Sum of the populations of the given groups, in order. */
  function PopulationOf(groups: map<int, GroupRecord>, ids: seq<int>): real
    requires forall id :: id in ids ==> id in groups
  {
    if |ids| == 0 then 0.0
    else
      var last := ids[|ids| - 1];
      assert last in ids;
      PopulationOf(groups, ids[..|ids| - 1]) + groups[last].population
  }

  /** The records of the given groups, in order. */
  function InOrder(groups: map<int, GroupRecord>, ids: seq<int>): (rs: seq<GroupRecord>)
    requires forall id :: id in ids ==> id in groups
    ensures |rs| == |ids| && forall i :: 0 <= i < |ids| ==> ids[i] in groups && rs[i] == groups[ids[i]]
  {
    if |ids| == 0 then []
    else
      var last := ids[|ids| - 1];
      assert last in ids;
      InOrder(groups, ids[..|ids| - 1]) + [groups[last]]
  }

  /** The population sum in order is the total population of the records in order. */
  lemma {:induction false} PopulationOfInOrder(groups: map<int, GroupRecord>, ids: seq<int>)
    requires forall id :: id in ids ==> id in groups
    ensures PopulationOf(groups, ids) == TotalPopulation(InOrder(groups, ids))
  {
    if |ids| > 0 {
      PopulationOfInOrder(groups, ids[..|ids| - 1]);
      var rs := InOrder(groups, ids);
      assert rs[..|rs| - 1] == InOrder(groups, ids[..|ids| - 1]);
    }
  }

  function SumReceived(gifts: seq<Gift>, ids: seq<int>): real
  {
    if |ids| == 0 then 0.0 else SumReceived(gifts, ids[..|ids| - 1]) + Received(gifts, ids[|ids| - 1])
  }

  function SumGiven(gifts: seq<Gift>, ids: seq<int>): real
  {
    if |ids| == 0 then 0.0 else SumGiven(gifts, ids[..|ids| - 1]) + Given(gifts, ids[|ids| - 1])
  }

  function SumReceivedFrom(g: Gift, ids: seq<int>): real
  {
    if |ids| == 0 then 0.0 else SumReceivedFrom(g, ids[..|ids| - 1]) + ReceivedFrom(g, ids[|ids| - 1])
  }

  function SumGivenBy(g: Gift, ids: seq<int>): real
  {
    if |ids| == 0 then 0.0
    else SumGivenBy(g, ids[..|ids| - 1]) + (if g.giver == ids[|ids| - 1] then g.amount * 0.25 else 0.0)
  }

  predicate Distinct(ids: seq<int>)
  {
    forall i, j :: 0 <= i < j < |ids| ==> ids[i] != ids[j]
  }

  /** Applying the gifts moves the population total by what was received minus what was given. */
  lemma {:induction false} ApplyTotal(groups: map<int, GroupRecord>, gifts: seq<Gift>, ids: seq<int>)
    requires forall id :: id in ids ==> id in groups
    ensures PopulationOf(Apply(groups, gifts), ids)
            == PopulationOf(groups, ids) + SumReceived(gifts, ids) - SumGiven(gifts, ids)
  {
    if |ids| > 0 {
      ApplyTotal(groups, gifts, ids[..|ids| - 1]);
    }
  }

  /** Received distributes over the gifts. */
  lemma {:induction false} SumReceivedSplits(gifts: seq<Gift>, g: Gift, ids: seq<int>)
    ensures SumReceived(gifts + [g], ids) == SumReceived(gifts, ids) + SumReceivedFrom(g, ids)
  {
    if |ids| > 0 {
      SumReceivedSplits(gifts, g, ids[..|ids| - 1]);
      assert (gifts + [g])[..|gifts|] == gifts;
    }
  }

  lemma {:induction false} SumGivenSplits(gifts: seq<Gift>, g: Gift, ids: seq<int>)
    ensures SumGiven(gifts + [g], ids) == SumGiven(gifts, ids) + SumGivenBy(g, ids)
  {
    if |ids| > 0 {
      SumGivenSplits(gifts, g, ids[..|ids| - 1]);
      assert (gifts + [g])[..|gifts|] == gifts;
    }
  }

  /** How many of ids lie in r. */
  function CountIn(r: set<int>, ids: seq<int>): nat
  {
    if |ids| == 0 then 0 else CountIn(r, ids[..|ids| - 1]) + (if ids[|ids| - 1] in r then 1 else 0)
  }

  /** A gift's receivers among ids, counted. */
  lemma {:induction false} CountReceivers(g: Gift, ids: seq<int>)
    ensures SumReceivedFrom(g, ids) == CountIn(g.receivers, ids) as real * ReceiverGain(g)
  {
    if |ids| > 0 {
      CountReceivers(g, ids[..|ids| - 1]);
      var k := CountIn(g.receivers, ids[..|ids| - 1]) as real;
      assert (k + 1.0) * ReceiverGain(g) == k * ReceiverGain(g) + ReceiverGain(g);
    }
  }

  /** An id that does not occur does not change the count. */
  lemma {:induction false} CountIgnores(r: set<int>, x: int, ids: seq<int>)
    requires x !in ids
    ensures CountIn(r - {x}, ids) == CountIn(r, ids)
  {
    if |ids| > 0 {
      CountIgnores(r, x, ids[..|ids| - 1]);
    }
  }

  /** Distinct ids that include every member of r count each member once. */
  lemma {:induction false} CountAll(r: set<int>, ids: seq<int>)
    requires Distinct(ids) && forall x :: x in r ==> x in ids
    ensures CountIn(r, ids) == |r|
  {
    if |ids| == 0 {
      assert ids == [];
      assert forall x :: x !in r;
    } else {
      var init, last := ids[..|ids| - 1], ids[|ids| - 1];
      DistinctInit(ids);
      var r' := r - {last};
      forall x | x in r' ensures x in init {
        assert x in ids && x != last;
      }
      CountAll(r', init);
      CountIgnores(r, last, init);
      if last in r {
        assert r == r' + {last};
      } else {
        assert r == r';
      }
    }
  }

  /** Dropping the last of distinct ids leaves distinct ids without it. */
  lemma DistinctInit(ids: seq<int>)
    requires Distinct(ids) && |ids| > 0
    ensures Distinct(ids[..|ids| - 1]) && ids[|ids| - 1] !in ids[..|ids| - 1]
  {
    var init := ids[..|ids| - 1];
    forall i | 0 <= i < |init| ensures init[i] != ids[|ids| - 1] {
      assert init[i] == ids[i];
    }
  }

  /** A giver among distinct ids pays a quarter of its amount exactly once. */
  lemma {:induction false} CountGiver(g: Gift, ids: seq<int>)
    requires Distinct(ids)
    ensures SumGivenBy(g, ids) == if g.giver in ids then g.amount * 0.25 else 0.0
  {
    if |ids| > 0 {
      var init := ids[..|ids| - 1];
      CountGiver(g, init);
      assert g.giver in ids <==> g.giver in init || g.giver == ids[|ids| - 1];
      assert g.giver == ids[|ids| - 1] ==> g.giver !in init;
    }
  }

  /** When every gift comes from and goes to the given distinct groups, they receive half
      of all amounts together and give a quarter of them. */
  lemma {:induction false} GiftTotals(gifts: seq<Gift>, ids: seq<int>)
    requires Distinct(ids)
    requires forall g :: g in gifts ==> g.giver in ids && g.receivers != {} && forall x :: x in g.receivers ==> x in ids
    ensures SumReceived(gifts, ids) == 0.5 * Shared(gifts)
    ensures SumGiven(gifts, ids) == 0.25 * Shared(gifts)
  {
    if |gifts| == 0 {
      NothingReceived(ids);
    } else {
      var init, g := gifts[..|gifts| - 1], gifts[|gifts| - 1];
      assert gifts == init + [g];
      GiftTotals(init, ids);
      SumReceivedSplits(init, g, ids);
      SumGivenSplits(init, g, ids);
      CountReceivers(g, ids);
      CountGiver(g, ids);
      CountAll(g.receivers, ids);
      HalfToReceivers(g);
      assert Shared(gifts) == Shared(init) + g.amount;
    }
  }

  /** The receivers of a gift together gain half of its amount. */
  lemma HalfToReceivers(g: Gift)
    requires g.receivers != {}
    ensures |g.receivers| as real * ReceiverGain(g) == 0.5 * g.amount
  {
    var n := |g.receivers| as real;
    assert n * (g.amount / n * 0.5) == 0.5 * g.amount;
  }

  lemma {:induction false} NothingReceived(ids: seq<int>)
    ensures SumReceived([], ids) == 0.0 && SumGiven([], ids) == 0.0
  {
    if |ids| > 0 {
      NothingReceived(ids[..|ids| - 1]);
    }
  }

  /** Every signaling id at most once, since ids are distinct. */
  lemma {:induction false} SignalingIdsDistinct(groups: map<int, GroupRecord>, ids: seq<int>)
    requires forall id :: id in ids ==> id in groups
    requires Distinct(ids)
    ensures Distinct(SignalingIds(groups, ids))
  {
    if |ids| > 0 {
      var init := ids[..|ids| - 1];
      SignalingIdsDistinct(groups, init);
      assert ids[|ids| - 1] !in init;
    }
  }

  /** Sharing raises the total population of the live groups by a quarter of everything
      shared: receivers gain half of each amount and givers pay a quarter of it. */
  lemma SharingRaisesTotal(p: Params, shortfall: bool, groups: map<int, GroupRecord>,
                           adjacency: map<int, set<int>>, order: seq<int>)
    requires forall id :: id in order ==> id in adjacency
    requires Distinct(order) && groups.Keys == set id | id in order
    ensures var sig := SignalingIds(groups, order);
      PopulationOf(ShareStep(p, shortfall, groups, adjacency, order), order)
      == PopulationOf(groups, order)
         + (if !shortfall || |sig| < 2 then 0.0 else 0.25 * Shared(Plan(p, groups, adjacency, sig)))
  {
    var sig := SignalingIds(groups, order);
    if shortfall && |sig| >= 2 {
      var gifts := Plan(p, groups, adjacency, sig);
      ApplyTotal(groups, gifts, order);
      GiftTotals(gifts, order);
    }
  }

  /** Givers are signaling groups that can share, receivers are signaling groups in need:
      a reproduction group, or a signaling group in neither class, keeps its population. */
  lemma OnlyClassifiedSignalingGroupsChange(p: Params, shortfall: bool, groups: map<int, GroupRecord>,
                                            adjacency: map<int, set<int>>, order: seq<int>, id: int)
    requires forall id :: id in order ==> id in groups && id in adjacency
    requires id in groups
    requires groups[id].strategy == HighReproduction
             || Classify(p, groups[id].population, groups[id].territorySize).Neutral?
    ensures ShareStep(p, shortfall, groups, adjacency, order)[id] == groups[id]
  {
    var sig := SignalingIds(groups, order);
    if shortfall && |sig| >= 2 {
      var gifts := Plan(p, groups, adjacency, sig);
      NotInvolved(p, groups, adjacency, sig, id);
    }
  }

  lemma {:induction false} NotInvolved(p: Params, groups: map<int, GroupRecord>, adjacency: map<int, set<int>>,
                                       ids: seq<int>, id: int)
    requires forall id :: id in ids ==> id in groups && id in adjacency && groups[id].strategy == CostlySignaling
    requires id in groups
    requires groups[id].strategy == HighReproduction
             || Classify(p, groups[id].population, groups[id].territorySize).Neutral?
    ensures Received(Plan(p, groups, adjacency, ids), id) == 0.0
    ensures Given(Plan(p, groups, adjacency, ids), id) == 0.0
  {
    if |ids| > 0 {
      var init, lastId := ids[..|ids| - 1], ids[|ids| - 1];
      assert lastId in ids;
      NotInvolved(p, groups, adjacency, init, id);
      var before, last := Plan(p, groups, adjacency, init), GiftOf(p, groups, adjacency, lastId);
      assert Plan(p, groups, adjacency, ids) == before + last;
      if |last| == 1 {
        var g := last[0];
        var r := groups[lastId];
        assert Classify(p, r.population, r.territorySize).CanShare?;
        assert g.giver == lastId && g.receivers == Receivers(p, groups, adjacency[lastId]);
        assert before + last == before + [g];
        assert (before + [g])[..|before|] == before;
        assert id !in g.receivers;
        assert g.giver != id;
      } else {
        assert last == [];
        assert before + last == before;
      }
    }
  }

  /** With a non-negative sharing rate and magnitude and non-negative populations every
      amount is non-negative, so a group that needs resources can only gain. */
  lemma {:induction false} NeedyOnlyGain(p: Params, groups: map<int, GroupRecord>, adjacency: map<int, set<int>>,
                                         ids: seq<int>, id: int)
    requires forall id :: id in ids ==> id in groups && id in adjacency
    requires p.cooperationSharingRate >= 0.0 && p.shortfallMagnitude >= 0.0
    requires forall id :: id in ids ==> groups[id].population >= 0.0
    requires id in groups && Classify(p, groups[id].population, groups[id].territorySize).NeedsResources?
    ensures Given(Plan(p, groups, adjacency, ids), id) == 0.0
    ensures Received(Plan(p, groups, adjacency, ids), id) >= 0.0
  {
    if |ids| > 0 {
      var init, lastId := ids[..|ids| - 1], ids[|ids| - 1];
      assert ids == init + [lastId];
      NeedyOnlyGain(p, groups, adjacency, init, id);
      PlanAppend(p, groups, adjacency, init, lastId);
      var before, last := Plan(p, groups, adjacency, init), GiftOf(p, groups, adjacency, lastId);
      if |last| == 1 {
        var g := last[0];
        assert last == [g];
        GiftNonNegative(p, groups, adjacency, lastId);
        assert g.giver != id;
        GiftAppend(before, g, id);
      } else {
        assert last == [];
        assert before + last == before;
      }
    }
  }

  /** A gift from a group with a non-negative population gives every receiver a
      non-negative gain. */
  lemma GiftNonNegative(p: Params, groups: map<int, GroupRecord>, adjacency: map<int, set<int>>, id: int)
    requires id in groups && id in adjacency
    requires p.cooperationSharingRate >= 0.0 && p.shortfallMagnitude >= 0.0 && groups[id].population >= 0.0
    ensures forall g :: g in GiftOf(p, groups, adjacency, id) ==> g.amount >= 0.0 && ReceiverGain(g) >= 0.0
    ensures GiftOf(p, groups, adjacency, id) != [] ==> Classify(p, groups[id].population, groups[id].territorySize).CanShare?
  {
    var r := groups[id];
    var c := Classify(p, r.population, r.territorySize);
    if c.CanShare? {
      ShareAmountNonNegative(p, r.population, c.surplus);
      var receivers := Receivers(p, groups, adjacency[id]);
      if receivers != {} {
        DivideMonotone(0.0, ShareAmount(p, r.population, c.surplus), |receivers| as real);
      }
    }
  }

  lemma ShareAmountNonNegative(p: Params, population: real, surplus: real)
    requires p.cooperationSharingRate >= 0.0 && p.shortfallMagnitude >= 0.0 && population >= 0.0 && surplus >= 0.0
    ensures ShareAmount(p, population, surplus) >= 0.0
  {
    ScaleMonotone(0.0, population, p.cooperationSharingRate);
    ScaleMonotone(0.0, population * p.cooperationSharingRate, surplus);
    ScaleMonotone(0.0, population * p.cooperationSharingRate * surplus, ShareScale(p));
  }

  /** Extending the ids by one extends the plan by that id's gift. */
  lemma PlanAppend(p: Params, groups: map<int, GroupRecord>, adjacency: map<int, set<int>>, ids: seq<int>, id: int)
    requires forall x :: x in ids ==> x in groups && x in adjacency
    requires id in groups && id in adjacency
    ensures Plan(p, groups, adjacency, ids + [id]) == Plan(p, groups, adjacency, ids) + GiftOf(p, groups, adjacency, id)
  {
    assert (ids + [id])[..|ids|] == ids;
  }

  /** One more gift adds what it gives and what it takes. */
  lemma GiftAppend(gifts: seq<Gift>, g: Gift, id: int)
    ensures Received(gifts + [g], id) == Received(gifts, id) + ReceivedFrom(g, id)
    ensures Given(gifts + [g], id) == Given(gifts, id) + (if g.giver == id then g.amount * 0.25 else 0.0)
  {
    assert (gifts + [g])[..|gifts|] == gifts;
  }

  /** A signaling group that can share neither receives nor pays anything in the gifts
      of the other groups. */
  lemma {:induction false} GiverUntouched(p: Params, groups: map<int, GroupRecord>, adjacency: map<int, set<int>>,
                                          ids: seq<int>, id: int)
    requires forall x :: x in ids ==> x in groups && x in adjacency
    requires id in groups && id !in ids
    requires Classify(p, groups[id].population, groups[id].territorySize).CanShare?
    ensures Received(Plan(p, groups, adjacency, ids), id) == 0.0
    ensures Given(Plan(p, groups, adjacency, ids), id) == 0.0
  {
    if |ids| > 0 {
      var init, lastId := ids[..|ids| - 1], ids[|ids| - 1];
      assert ids == init + [lastId];
      GiverUntouched(p, groups, adjacency, init, id);
      PlanAppend(p, groups, adjacency, init, lastId);
      var before, last := Plan(p, groups, adjacency, init), GiftOf(p, groups, adjacency, lastId);
      if |last| == 1 {
        var g := last[0];
        assert last == [g];
        assert g.receivers == Receivers(p, groups, adjacency[lastId]);
        assert id !in g.receivers;
        GiftAppend(before, g, id);
      } else {
        assert last == [];
        assert before + last == before;
      }
    }
  }

  /** Distinct ids are as many as the set they form. */
  lemma {:induction false} DistinctCard(ids: seq<int>)
    requires Distinct(ids)
    ensures |set x | x in ids| == |ids|
  {
    if |ids| > 0 {
      var init, last := ids[..|ids| - 1], ids[|ids| - 1];
      DistinctInit(ids);
      DistinctCard(init);
      assert ids == init + [last];
      assert (set x | x in ids) == (set x | x in init) + {last};
    }
  }

  /** What adding one group to the givers does to every group: a group that cannot share
      adds nothing; one that can adds its gift to its needy neighbours, if it has any. */
  lemma PlanStep(p: Params, groups: map<int, GroupRecord>, adjacency: map<int, set<int>>, ids: seq<int>, id: int, y: int)
    requires forall x :: x in ids ==> x in groups && x in adjacency
    requires id in groups && id in adjacency
    ensures var c := Classify(p, groups[id].population, groups[id].territorySize);
      var receivers := Receivers(p, groups, adjacency[id]);
      var before, after := Plan(p, groups, adjacency, ids), Plan(p, groups, adjacency, ids + [id]);
      && (!c.CanShare? || receivers == {} ==> after == before)
      && (c.CanShare? && receivers != {} ==>
            var g := Gift(id, receivers, ShareAmount(p, groups[id].population, c.surplus));
            && Received(after, y) == Received(before, y) + ReceivedFrom(g, y)
            && Given(after, y) == Given(before, y) + (if y == id then g.amount * 0.25 else 0.0))
  {
    PlanAppend(p, groups, adjacency, ids, id);
    var before := Plan(p, groups, adjacency, ids);
    var gs := GiftOf(p, groups, adjacency, id);
    if |gs| == 1 {
      GiftAppend(before, gs[0], y);
      assert gs == [gs[0]];
    } else {
      assert gs == [];
      assert before + gs == before;
    }
  }

  /** One more element of a prefix; among distinct ids it is new. */
  lemma PrefixStep(ids: seq<int>, i: nat)
    requires i < |ids|
    ensures ids[..i + 1] == ids[..i] + [ids[i]]
    ensures Distinct(ids) ==> ids[i] !in ids[..i]
  {
    assert ids[..i + 1] == ids[..i] + [ids[i]];
  }

  /** Without givers nobody receives or pays anything. */
  lemma NothingPlanned(p: Params, groups: map<int, GroupRecord>, adjacency: map<int, set<int>>, ids: seq<int>)
    requires ids == []
    ensures forall y :: Received(Plan(p, groups, adjacency, ids), y) == 0.0 && Given(Plan(p, groups, adjacency, ids), y) == 0.0
  {
  }

  /** A group's population after the sharing phase of a shortfall year with at least two
      signaling groups. */
  lemma SharedPopulation(p: Params, groups: map<int, GroupRecord>, adjacency: map<int, set<int>>, order: seq<int>,
                         sig: seq<int>, id: int)
    requires forall x :: x in order ==> x in groups && x in adjacency
    requires id in groups && sig == SignalingIds(groups, order) && |sig| >= 2
    ensures var gifts := Plan(p, groups, adjacency, sig);
      ShareStep(p, true, groups, adjacency, order)[id].population
      == groups[id].population + Received(gifts, id) - Given(gifts, id)
  {
  }
}
