/**
 * The spatial simulation engine: groups on a grid of territory cells, stepped one
 * year at a time through growth, resource sharing, border conflicts, extinction and
 * history recording.
 *
 * Randomness is an input: the numbers the conflict phase draws come from the stream
 * `random` handed to the constructor (consumed in order through the cursor `draws`),
 * and the draws of the initialization (candidate centers, fill choices, the shuffle
 * and the initial populations) are arguments of InitializeGroups.
 */
module Simulation {
  import opened Config
  import opened Shortfall
  import opened Growth
  import Conflict
  import opened Grid
  import opened Statistics
  import Sharing
  import opened RealFacts
  import Placement

  /** Everything a group holds, as a value. */
  datatype GroupState = GroupState(
    id: int,
    strategy: Strategy,
    territory: seq<Cell>,
    population: real,
    monument: real,
    won: nat,
    lost: nat,
    populationHistory: seq<real>,
    monumentHistory: seq<real>,
    conflictHistory: seq<int>)

  function RecordOf(s: GroupState): GroupRecord
  {
    GroupRecord(s.id, s.strategy, |s.territory|, s.population, s.monument)
  }

  /** A group after one year of growth: population and monument as Growth.Grow computes
      them, each recorded once more in the group's history. */
  function GrowState(p: Params, productivity: real, shortfall: bool, s: GroupState): (after: GroupState)
    requires s.population != 0.0 && Capacity(p, |s.territory|) != 0.0
    ensures after.population <= Capacity(p, |s.territory|)
    ensures |after.populationHistory| == |s.populationHistory| + 1
    ensures |after.monumentHistory| == |s.monumentHistory| + 1
  {
    var r := Grow(p, s.strategy, |s.territory|, s.population, s.monument, productivity, shortfall);
    s.(population := r.population, monument := r.monument,
       populationHistory := s.populationHistory + [r.population],
       monumentHistory := s.monumentHistory + [r.monument])
  }

  /** Whether a conflict between the two groups can be decided: the monument bonus
      divides by population + 1 and the win probability by the sum of the strengths. */
  predicate Decidable(p: Params, shortfall: bool, s1: GroupState, s2: GroupState)
  {
    && s1.population + 1.0 != 0.0 && s2.population + 1.0 != 0.0
    && Conflict.Strength(p, shortfall, s1.monument, s1.population)
       + Conflict.Strength(p, shortfall, s2.monument, s2.population) != 0.0
  }

  /** The probability that two neighbouring groups fight this year, from what they
      hold now. */
  function Chance(p: Params, shortfall: bool, s1: GroupState, s2: GroupState): (prob: real)
    requires WellDefined(p)
    ensures 0.0 < prob <= 0.5
  {
    Conflict.Probability(p, shortfall, s1.strategy, s1.population, s1.monument, s2.strategy, s2.population, s2.monument)
  }

  /** Whether the first group wins the conflict, given the random number u. */
  function FirstWins(p: Params, shortfall: bool, s1: GroupState, s2: GroupState, u: real): bool
    requires Decidable(p, shortfall, s1, s2)
  {
    u < Conflict.WinProbability(Conflict.Strength(p, shortfall, s1.monument, s1.population),
                                Conflict.Strength(p, shortfall, s2.monument, s2.population))
  }

  /** A group after a conflict it won or lost: its population shrinks by the winner's
      or the loser's survival factor, and the conflict is tallied once. */
  function Fought(p: Params, shortfall: bool, s: GroupState, won: bool): (after: GroupState)
    requires |s.conflictHistory| > 0
    ensures after.won + after.lost == s.won + s.lost + 1
  {
    var h := s.conflictHistory;
    s.(population := s.population * (if won then Conflict.WinnerSurvival(p, shortfall) else Conflict.LoserSurvival(p, shortfall)),
       won := if won then s.won + 1 else s.won,
       lost := if won then s.lost else s.lost + 1,
       conflictHistory := h[..|h| - 1] + [h[|h| - 1] + 1])
  }

  /** A group whose running conflict entry equals its tally keeps it so. */
  lemma FoughtTally(p: Params, shortfall: bool, s: GroupState, won: bool)
    requires s.conflictHistory == [s.won + s.lost]
    ensures var after := Fought(p, shortfall, s, won);
      after.conflictHistory == [after.won + after.lost]
  {
    var h := s.conflictHistory;
    assert h[..|h| - 1] == [];
  }

  /** x raised to the k-th power. */
  function Power(x: real, k: nat): real
  {
    if k == 0 then 1.0 else x * Power(x, k - 1)
  }

  /** The population left of pop0 after winning `wins` and losing `losses` conflicts
      in a year: each win keeps the winner's share and each loss the loser's. */
  function Survived(p: Params, shortfall: bool, pop0: real, wins: nat, losses: nat): real
  {
    pop0 * Power(Conflict.WinnerSurvival(p, shortfall), wins) * Power(Conflict.LoserSurvival(p, shortfall), losses)
  }

  /** One more win or loss multiplies what is left by the winner's or the loser's share. */
  lemma SurvivedStep(p: Params, shortfall: bool, pop0: real, wins: nat, losses: nat)
    ensures Survived(p, shortfall, pop0, wins + 1, losses)
      == Survived(p, shortfall, pop0, wins, losses) * Conflict.WinnerSurvival(p, shortfall)
    ensures Survived(p, shortfall, pop0, wins, losses + 1)
      == Survived(p, shortfall, pop0, wins, losses) * Conflict.LoserSurvival(p, shortfall)
  {
    var w, l := Conflict.WinnerSurvival(p, shortfall), Conflict.LoserSurvival(p, shortfall);
    var a, b := Power(w, wins), Power(l, losses);
    assert Power(w, wins + 1) == w * a;
    assert Power(l, losses + 1) == l * b;
    assert pop0 * (w * a) * b == (pop0 * a * b) * w;
    assert pop0 * a * (l * b) == (pop0 * a * b) * l;
  }

  /** What a conflict phase does to one group that held s0 when the phase began and
      has since taken part in `involved` conflicts: only its population, tallies and
      running conflict entry change; the tallies grew by exactly those conflicts; the
      population is what s0's population keeps after its wins and losses; and, with
      mortality in its documented range, it was never raised nor, below certain death,
      wiped out. */
  predicate Tallied(p: Params, shortfall: bool, s: GroupState, s0: GroupState, involved: nat)
  {
    && s == s0.(population := s.population, won := s.won, lost := s.lost, conflictHistory := s.conflictHistory)
    && s.won >= s0.won && s.lost >= s0.lost
    && s.won + s.lost == s0.won + s0.lost + involved
    && s.conflictHistory == [s.won + s.lost]
    && |s.populationHistory| == |s.monumentHistory| >= 1
    && s.population == Survived(p, shortfall, s0.population, s.won - s0.won, s.lost - s0.lost)
    && (Conflict.MortalityInRange(p) && s0.population >= 0.0 ==> 0.0 <= s.population <= s0.population)
    && (Conflict.MortalityBelowOne(p) && s0.population > 0.0 ==> s.population > 0.0)
  }

  /** One more conflict keeps a group tallied, with one more involvement. */
  lemma FoughtTallied(p: Params, shortfall: bool, s: GroupState, won: bool, s0: GroupState, involved: nat)
    requires Tallied(p, shortfall, s, s0, involved)
    ensures Tallied(p, shortfall, Fought(p, shortfall, s, won), s0, involved + 1)
  {
    FoughtTally(p, shortfall, s, won);
    FoughtBounds(p, shortfall, s, won);
    FoughtSurvived(p, shortfall, s, won, s0);
  }

  /** After one more conflict the population is still what s0's population keeps
      after the group's wins and losses. */
  lemma FoughtSurvived(p: Params, shortfall: bool, s: GroupState, won: bool, s0: GroupState)
    requires |s.conflictHistory| > 0 && s.won >= s0.won && s.lost >= s0.lost
    requires s.population == Survived(p, shortfall, s0.population, s.won - s0.won, s.lost - s0.lost)
    ensures var f := Fought(p, shortfall, s, won);
      f.population == Survived(p, shortfall, s0.population, f.won - s0.won, f.lost - s0.lost)
  {
    var w, l: nat := s.won - s0.won, s.lost - s0.lost;
    SurvivedStep(p, shortfall, s0.population, w, l);
  }

  /** Every group is tallied against the conflict pairs so far, from its state in start. */
  predicate AllTallied(p: Params, shortfall: bool, states: map<int, GroupState>, pairs: set<(int, int)>,
                       start: map<int, GroupState>)
  {
    forall id :: id in states ==>
      id in start && Tallied(p, shortfall, states[id], start[id], |Conflict.Involving(pairs, id)|)
  }

  /** A conflict between a and b, and no change to any other group, keeps every group
      tallied once the pair is recorded. */
  lemma ClashKeepsTallied(p: Params, shortfall: bool, before: map<int, GroupState>, after: map<int, GroupState>,
                          a: int, b: int, firstWon: bool, pairs: set<(int, int)>, start: map<int, GroupState>)
    requires a != b && a in before && b in before && after.Keys == before.Keys
    requires Conflict.Pair(a, b) !in pairs
    requires AllTallied(p, shortfall, before, pairs, start)
    requires after[a] == Fought(p, shortfall, before[a], firstWon)
    requires after[b] == Fought(p, shortfall, before[b], !firstWon)
    requires forall x :: x in before && x != a && x != b ==> after[x] == before[x]
    ensures AllTallied(p, shortfall, after, pairs + {Conflict.Pair(a, b)}, start)
  {
    var pr := Conflict.Pair(a, b);
    forall x | x in after
      ensures Tallied(p, shortfall, after[x], start[x], |Conflict.Involving(pairs + {pr}, x)|)
    {
      Conflict.InvolvingAdd(pairs, pr, x);
      var involved := |Conflict.Involving(pairs, x)|;
      if x == a {
        FoughtTallied(p, shortfall, before[x], firstWon, start[x], involved);
      } else if x == b {
        FoughtTallied(p, shortfall, before[x], !firstWon, start[x], involved);
      }
    }
  }

  /** With mortality in its documented range a conflict never raises a population and
      never makes a non-negative one negative; below the top of the range a positive
      population stays positive. */
  lemma FoughtBounds(p: Params, shortfall: bool, s: GroupState, won: bool)
    requires |s.conflictHistory| > 0
    ensures Conflict.MortalityInRange(p) && s.population >= 0.0 ==>
      0.0 <= Fought(p, shortfall, s, won).population <= s.population
    ensures Conflict.MortalityBelowOne(p) && s.population > 0.0 ==> Fought(p, shortfall, s, won).population > 0.0
  {
    if Conflict.MortalityInRange(p) && s.population >= 0.0 {
      FoughtWithin(p, shortfall, s, won);
    }
    if Conflict.MortalityBelowOne(p) && s.population > 0.0 {
      FoughtPositive(p, shortfall, s, won);
    }
  }

  lemma FoughtWithin(p: Params, shortfall: bool, s: GroupState, won: bool)
    requires |s.conflictHistory| > 0 && Conflict.MortalityInRange(p) && s.population >= 0.0
    ensures 0.0 <= Fought(p, shortfall, s, won).population <= s.population
  {
    var f := if won then Conflict.WinnerSurvival(p, shortfall) else Conflict.LoserSurvival(p, shortfall);
    Conflict.SurvivalBounds(p, shortfall);
    assert 0.0 <= f <= 1.0;
    ScaleWithin(s.population, f);
  }

  lemma FoughtPositive(p: Params, shortfall: bool, s: GroupState, won: bool)
    requires |s.conflictHistory| > 0 && Conflict.MortalityBelowOne(p) && s.population > 0.0
    ensures Fought(p, shortfall, s, won).population > 0.0
  {
    var f := if won then Conflict.WinnerSurvival(p, shortfall) else Conflict.LoserSurvival(p, shortfall);
    Conflict.SurvivalPositive(p, shortfall);
    ScaleStrict(0.0, f, s.population);
  }

  /** A group after its initial monument is set: a signaling group's monument is the
      monument cost times its population, any other group's is unchanged. */
  function Founded(p: Params, s: GroupState): (f: GroupState)
    ensures f.(monument := s.monument) == s
    ensures s.strategy == CostlySignaling ==> f.monument == p.monumentCost * s.population
  {
    s.(monument := if s.strategy == CostlySignaling then p.monumentCost * s.population else s.monument)
  }

  /** A group as initialization leaves it: it owns the cells its center is nearest
      to, in scan order, and a signaling group starts with a monument of the
      monument cost times its population (its monument history still starts at 0). */
  function InitialState(p: Params, id: nat, s: Strategy, pop: real, centers: seq<Cell>, width: nat, height: nat): GroupState
    requires |centers| > 0
  {
    GroupState(id, s, Claim(centers, id, width, height), pop,
               if s == CostlySignaling then p.monumentCost * pop else 0.0, 0, 0, [pop], [0.0], [0])
  }

  // ----- one year, as values -----

  /** The records of some group states. */
  function RecordsOf(states: map<int, GroupState>): map<int, GroupRecord>
  {
    map id | id in states :: RecordOf(states[id])
  }

  /** Every group after the growth phase. */
  function GrowAll(p: Params, productivity: real, shortfall: bool, states: map<int, GroupState>): (after: map<int, GroupState>)
    requires forall id :: id in states ==> states[id].population != 0.0 && Capacity(p, |states[id].territory|) != 0.0
    ensures after.Keys == states.Keys
  {
    map id | id in states :: GrowState(p, productivity, shortfall, states[id])
  }

  /** Every group after the sharing phase among the groups listed in ids, adjacent as
      adj: each population is the one Sharing.ShareStep computes, and nothing else
      changes. */
  function ShareAll(p: Params, shortfall: bool, states: map<int, GroupState>, adj: map<int, set<int>>,
                    ids: seq<int>): (after: map<int, GroupState>)
    requires forall id :: id in ids ==> id in states && id in adj
    ensures after.Keys == states.Keys
  {
    var shared := Sharing.ShareStep(p, shortfall, RecordsOf(states), adj, ids);
    map id | id in states :: states[id].(population := shared[id].population)
  }

  /** Each pair is sorted and made of two groups with adjacent territories. */
  predicate Bordering(pairs: set<(int, int)>, adj: map<int, set<int>>)
  {
    forall pr :: pr in pairs ==>
      pr.0 < pr.1 && pr.0 in adj && pr.1 in adj && (pr.1 in adj[pr.0] || pr.0 in adj[pr.1])
  }

  // ----- the border-conflict phase, as values -----

  /** What the border-conflict phase carries from one meeting to the next: the groups'
      states, the pairs that have fought this year, how many numbers of the random
      stream have been drawn, and whether every conflict so far could be decided. */
  datatype Phase = Phase(states: map<int, GroupState>, pairs: set<(int, int)>, draws: nat, ok: bool)

  /** Every group has a running conflict entry for the year. */
  predicate Entered(states: map<int, GroupState>)
  {
    forall id :: id in states ==> |states[id].conflictHistory| > 0
  }

  /** The groups after a and b fought, the random number u deciding the winner. */
  function Clashed(p: Params, shortfall: bool, states: map<int, GroupState>, a: int, b: int, u: real)
    : (after: map<int, GroupState>)
    requires a in states && b in states && Entered(states)
    requires Decidable(p, shortfall, states[a], states[b])
    ensures after.Keys == states.Keys && Entered(after)
    ensures forall x :: x in states && x != a && x != b ==> after[x] == states[x]
  {
    var won := FirstWins(p, shortfall, states[a], states[b], u);
    states[a := Fought(p, shortfall, states[a], won)][b := Fought(p, shortfall, states[b], !won)]
  }

  /** Groups changed only in a and b, as the conflict decided by u leaves them, are
      the clashed groups. */
  lemma ClashedBy(p: Params, shortfall: bool, before: map<int, GroupState>, after: map<int, GroupState>,
                  a: int, b: int, u: real, won: bool)
    requires a in before && b in before && Entered(before) && a != b
    requires Decidable(p, shortfall, before[a], before[b]) && won == FirstWins(p, shortfall, before[a], before[b], u)
    requires after.Keys == before.Keys
    requires after[a] == Fought(p, shortfall, before[a], won) && after[b] == Fought(p, shortfall, before[b], !won)
    requires forall x :: x in before && x != a && x != b ==> after[x] == before[x]
    ensures after == Clashed(p, shortfall, before, a, b, u)
  {
    var c := Clashed(p, shortfall, before, a, b, u);
    forall x | x in after
      ensures after[x] == c[x]
    {
    }
  }

  /** The clashed groups are tallied against the pairs with the new pair added. */
  lemma ClashedTallied(p: Params, shortfall: bool, before: map<int, GroupState>, a: int, b: int, u: real,
                       pairs: set<(int, int)>, start: map<int, GroupState>)
    requires a in before && b in before && Entered(before) && a != b
    requires Decidable(p, shortfall, before[a], before[b])
    requires Conflict.Pair(a, b) !in pairs
    requires AllTallied(p, shortfall, before, pairs, start)
    ensures AllTallied(p, shortfall, Clashed(p, shortfall, before, a, b, u), pairs + {Conflict.Pair(a, b)}, start)
  {
    var won := FirstWins(p, shortfall, before[a], before[b], u);
    ClashKeepsTallied(p, shortfall, before, Clashed(p, shortfall, before, a, b, u), a, b, won, pairs, start);
  }

  /** Group id meets the id n from its neighbour listing. A dead neighbour, or a pair
      that has fought this year already, is passed over without a draw. Otherwise one
      number is drawn and the two fight when it falls below their conflict probability;
      the phase fails where the fight cannot be decided, and otherwise the next number
      decides the winner. A failed phase meets nobody. */
  function Meet(p: Params, shortfall: bool, random: nat -> real, ph: Phase, id: int, n: int): (r: Phase)
    requires WellDefined(p) && Entered(ph.states)
    ensures r.states.Keys == ph.states.Keys && Entered(r.states)
    ensures ph.pairs <= r.pairs && ph.draws <= r.draws <= ph.draws + 2
  {
    if !ph.ok || id !in ph.states || n !in ph.states || n == id || Conflict.Pair(id, n) in ph.pairs then ph
    else if random(ph.draws) >= Chance(p, shortfall, ph.states[id], ph.states[n]) then ph.(draws := ph.draws + 1)
    else if !Decidable(p, shortfall, ph.states[id], ph.states[n]) then ph.(draws := ph.draws + 1, ok := false)
    else Phase(Clashed(p, shortfall, ph.states, id, n, random(ph.draws + 1)),
               ph.pairs + {Conflict.Pair(id, n)}, ph.draws + 2, true)
  }

  /** A meeting whose draw is not below the pair's conflict probability only takes
      that draw. */
  lemma MeetPasses(p: Params, shortfall: bool, random: nat -> real, ph: Phase, id: int, n: int)
    requires WellDefined(p) && Entered(ph.states) && ph.ok && id in ph.states && n in ph.states && n != id
    requires Conflict.Pair(id, n) !in ph.pairs
    requires random(ph.draws) >= Chance(p, shortfall, ph.states[id], ph.states[n])
    ensures Meet(p, shortfall, random, ph, id, n) == ph.(draws := ph.draws + 1)
  {
  }

  /** A meeting whose draw is below the pair's conflict probability is a fight: it
      fails where the fight cannot be decided, and otherwise the next draw decides it. */
  lemma MeetFights(p: Params, shortfall: bool, random: nat -> real, ph: Phase, id: int, n: int,
                   after: map<int, GroupState>, pairs: set<(int, int)>, draws: nat, ok: bool)
    requires WellDefined(p) && Entered(ph.states) && ph.ok && id in ph.states && n in ph.states && n != id
    requires Conflict.Pair(id, n) !in ph.pairs
    requires random(ph.draws) < Chance(p, shortfall, ph.states[id], ph.states[n])
    requires ok == Decidable(p, shortfall, ph.states[id], ph.states[n])
    requires ok ==> (after == Clashed(p, shortfall, ph.states, id, n, random(ph.draws + 1))
      && pairs == ph.pairs + {Conflict.Pair(id, n)} && draws == ph.draws + 2)
    requires !ok ==> (after == ph.states && pairs == ph.pairs && draws == ph.draws + 1)
    ensures Meet(p, shortfall, random, ph, id, n) == Phase(after, pairs, draws, ok)
  {
  }

  /** Group id meets the ids of a neighbour listing in order. */
  function Meetings(p: Params, shortfall: bool, random: nat -> real, ph: Phase, id: int, listing: seq<int>): (r: Phase)
    requires WellDefined(p) && Entered(ph.states)
    ensures r.states.Keys == ph.states.Keys && Entered(r.states)
    ensures ph.pairs <= r.pairs && ph.draws <= r.draws
    decreases |listing|
  {
    if listing == [] then ph
    else Meet(p, shortfall, random, Meetings(p, shortfall, random, ph, id, listing[..|listing| - 1]), id, listing[|listing| - 1])
  }

  /** The border-conflict phase: the groups listed in ids, in order, each meet their
      listed neighbours. */
  function ConflictPhase(p: Params, shortfall: bool, random: nat -> real, ph: Phase, ids: seq<int>,
                         listings: map<int, seq<int>>): (r: Phase)
    requires WellDefined(p) && Entered(ph.states)
    ensures r.states.Keys == ph.states.Keys && Entered(r.states)
    ensures ph.pairs <= r.pairs && ph.draws <= r.draws
    decreases |ids|
  {
    if ids == [] then ph
    else
      var before := ConflictPhase(p, shortfall, random, ph, ids[..|ids| - 1], listings);
      var id := ids[|ids| - 1];
      if id in listings then Meetings(p, shortfall, random, before, id, listings[id]) else before
  }

  /** The meetings with one more listed neighbour are one more meeting. */
  lemma MeetingsStep(p: Params, shortfall: bool, random: nat -> real, ph: Phase, id: int, listing: seq<int>, j: nat,
                     prev: Phase, next: Phase)
    requires WellDefined(p) && Entered(ph.states) && j < |listing|
    requires prev == Meetings(p, shortfall, random, ph, id, listing[..j])
    requires next == Meet(p, shortfall, random, prev, id, listing[j])
    ensures next == Meetings(p, shortfall, random, ph, id, listing[..j + 1])
  {
    assert listing[..j + 1][..j] == listing[..j];
  }

  /** Once a meeting has failed, the rest of the listing changes nothing. */
  lemma {:induction false} MeetingsFailed(p: Params, shortfall: bool, random: nat -> real, ph: Phase, id: int,
                                          listing: seq<int>, j: nat)
    requires WellDefined(p) && Entered(ph.states) && j <= |listing|
    requires !Meetings(p, shortfall, random, ph, id, listing[..j]).ok
    ensures Meetings(p, shortfall, random, ph, id, listing) == Meetings(p, shortfall, random, ph, id, listing[..j])
    decreases |listing|
  {
    if j < |listing| {
      var front := listing[..|listing| - 1];
      assert front[..j] == listing[..j];
      MeetingsFailed(p, shortfall, random, ph, id, front, j);
    } else {
      assert listing[..j] == listing;
    }
  }

  /** The phase with one more group's turn is one more round of meetings. */
  lemma PhaseStep(p: Params, shortfall: bool, random: nat -> real, ph: Phase, ids: seq<int>,
                  listings: map<int, seq<int>>, i: nat, prev: Phase, next: Phase)
    requires WellDefined(p) && Entered(ph.states) && i < |ids| && ids[i] in listings
    requires prev == ConflictPhase(p, shortfall, random, ph, ids[..i], listings)
    requires next == Meetings(p, shortfall, random, prev, ids[i], listings[ids[i]])
    ensures next == ConflictPhase(p, shortfall, random, ph, ids[..i + 1], listings)
  {
    assert ids[..i + 1][..i] == ids[..i];
  }

  /** Once a turn has failed, the turns of the groups after it change nothing. */
  lemma {:induction false} PhaseFailed(p: Params, shortfall: bool, random: nat -> real, ph: Phase, ids: seq<int>,
                                       listings: map<int, seq<int>>, i: nat)
    requires WellDefined(p) && Entered(ph.states) && i <= |ids|
    requires !ConflictPhase(p, shortfall, random, ph, ids[..i], listings).ok
    ensures ConflictPhase(p, shortfall, random, ph, ids, listings) == ConflictPhase(p, shortfall, random, ph, ids[..i], listings)
    decreases |ids|
  {
    if i < |ids| {
      var front := ids[..|ids| - 1];
      assert front[..i] == ids[..i];
      PhaseFailed(p, shortfall, random, ph, front, listings, i);
      var before := ConflictPhase(p, shortfall, random, ph, front, listings);
      var id := ids[|ids| - 1];
      if id in listings {
        MeetingsFailed(p, shortfall, random, before, id, listings[id], 0);
      }
    } else {
      assert ids[..i] == ids;
    }
  }

  /** The random numbers never fall below one half: no conflict probability reaches
      past it, so nobody fights and only draws are taken. */
  ghost predicate Quiet(random: nat -> real)
  {
    forall k :: random(k) >= 0.5
  }

  /** Under a stream that never falls below one half one group's meetings change no
      group and add no pair. */
  lemma {:induction false} MeetingsQuiet(p: Params, shortfall: bool, random: nat -> real, ph: Phase, id: int,
                                         listing: seq<int>)
    requires WellDefined(p) && Entered(ph.states) && Quiet(random)
    ensures var r := Meetings(p, shortfall, random, ph, id, listing);
      r.states == ph.states && r.pairs == ph.pairs && r.ok == ph.ok
    decreases |listing|
  {
    if listing != [] {
      MeetingsQuiet(p, shortfall, random, ph, id, listing[..|listing| - 1]);
    }
  }

  /** Under a stream that never falls below one half the conflict phase leaves every
      group as it was and records no conflict. */
  lemma {:induction false} PhaseQuiet(p: Params, shortfall: bool, random: nat -> real, ph: Phase, ids: seq<int>,
                                      listings: map<int, seq<int>>)
    requires WellDefined(p) && Entered(ph.states) && Quiet(random)
    ensures var r := ConflictPhase(p, shortfall, random, ph, ids, listings);
      r.states == ph.states && r.pairs == ph.pairs && r.ok == ph.ok
    decreases |ids|
  {
    if ids != [] {
      var front := ids[..|ids| - 1];
      PhaseQuiet(p, shortfall, random, ph, front, listings);
      var before := ConflictPhase(p, shortfall, random, ph, front, listings);
      var id := ids[|ids| - 1];
      if id in listings {
        MeetingsQuiet(p, shortfall, random, before, id, listings[id]);
      }
    }
  }

  /** The groups of a year after its growth and sharing, before its conflicts. Each
      keeps its territory and its record of conflicts. */
  function YearShared(p: Params, productivity: real, shortfall: bool, start: map<int, GroupState>,
                      adj: map<int, set<int>>, ids: seq<int>): (shared: map<int, GroupState>)
    requires forall id :: id in start ==> start[id].population != 0.0 && Capacity(p, |start[id].territory|) != 0.0
    requires forall id :: id in ids ==> id in start && id in adj
    ensures shared.Keys == start.Keys
    ensures forall id :: id in shared ==>
      shared[id].territory == start[id].territory && shared[id].conflictHistory == start[id].conflictHistory
  {
    ShareAll(p, shortfall, GrowAll(p, productivity, shortfall, start), adj, ids)
  }

  /** What one year's growth, sharing and border conflicts make of the groups in
      start (listed in ids, adjacent as adj): every group grows, sharing then moves
      populations as ShareAll computes, and every group ends tallied against the
      conflict pairs of the year, its population being what the shared one keeps
      after its wins and losses. */
  ghost predicate YearOutcome(p: Params, productivity: real, shortfall: bool, start: map<int, GroupState>,
                              adj: map<int, set<int>>, ids: seq<int>, pairs: set<(int, int)>,
                              end: map<int, GroupState>)
  {
    && (forall id :: id in start ==> start[id].population != 0.0 && Capacity(p, |start[id].territory|) != 0.0)
    && (forall id :: id in ids ==> id in start && id in adj)
    && end.Keys == start.Keys
    && var shared := YearShared(p, productivity, shortfall, start, adj, ids);
       forall id :: id in end ==> Tallied(p, shortfall, end[id], shared[id], |Conflict.Involving(pairs, id)|)
  }

  /** The history `after` extends `before` by k entries. */
  predicate Extends<T(==)>(before: seq<T>, after: seq<T>, k: nat)
  {
    |after| == |before| + k && after[..|before|] == before
  }

  /** One more entry extends a history by one more. */
  lemma ExtendsStep<T>(h0: seq<T>, h: seq<T>, h': seq<T>, k: nat)
    requires Extends(h0, h, k) && |h'| == |h| + 1 && h'[..|h|] == h
    ensures Extends(h0, h', k + 1)
  {
    assert h'[..|h0|] == h'[..|h|][..|h0|];
  }

  /** Every group's carrying capacity is non-zero, so the growth phase can proceed. */
  predicate Growable(p: Params, states: map<int, GroupState>)
  {
    forall id :: id in states ==> Capacity(p, |states[id].territory|) != 0.0
  }

  /** No conflict among these groups can end in a division by zero: mortality stays
      below certain death, every group is populated and no monument is negative. */
  predicate SafeStates(p: Params, states: map<int, GroupState>)
  {
    && Conflict.MortalityBelowOne(p)
    && forall id :: id in states ==> states[id].population > 0.0 && states[id].monument >= 0.0
  }

  /** A year that cannot fail: every group can grow, and after growth and sharing no
      conflict can end in a division by zero. */
  ghost predicate YearSafe(p: Params, productivity: real, shortfall: bool, start: map<int, GroupState>,
                           adj: map<int, set<int>>, ids: seq<int>)
  {
    && (forall id :: id in start ==> start[id].population != 0.0)
    && Growable(p, start)
    && (forall id :: id in ids ==> id in start && id in adj)
    && SafeStates(p, YearShared(p, productivity, shortfall, start, adj, ids))
  }

  /** One simulated year as values: the year, the groups and their order at its start,
      the groups after growth and sharing, the number of draws taken from the stream
      before the year, the pairs that fought, the groups after the conflicts, the
      number of draws taken by then, and the groups and order that survive the year. */
  datatype YearTrace = YearTrace(year: int, start: map<int, GroupState>, ids: seq<int>, shared: map<int, GroupState>,
                                 draws: nat, pairs: set<(int, int)>, fought: map<int, GroupState>, drawsAfter: nat,
                                 end: map<int, GroupState>, endIds: seq<int>)

  /** The groups after the years of a trace that started from s0. */
  function LastStates(s0: map<int, GroupState>, trace: seq<YearTrace>): map<int, GroupState>
  {
    if |trace| == 0 then s0 else trace[|trace| - 1].end
  }

  /** The order of the groups after the years of a trace that started from ids0. */
  function LastIds(ids0: seq<int>, trace: seq<YearTrace>): seq<int>
  {
    if |trace| == 0 then ids0 else trace[|trace| - 1].endIds
  }

  /** The number of draws taken after the years of a trace that started with d0 taken. */
  function LastDraws(d0: nat, trace: seq<YearTrace>): nat
  {
    if |trace| == 0 then d0 else trace[|trace| - 1].drawsAfter
  }

  /** Each year of the trace starts where the years before it left the groups and the
      stream of draws. */
  ghost predicate Chained(s0: map<int, GroupState>, ids0: seq<int>, d0: nat, trace: seq<YearTrace>)
  {
    forall k :: 0 <= k < |trace| ==>
      && trace[k].start == LastStates(s0, trace[..k]) && trace[k].ids == LastIds(ids0, trace[..k])
      && trace[k].draws == LastDraws(d0, trace[..k])
  }

  /** A year that starts where the trace left the groups extends the chain. */
  lemma ChainedStep(s0: map<int, GroupState>, ids0: seq<int>, d0: nat, trace: seq<YearTrace>, t: YearTrace)
    requires Chained(s0, ids0, d0, trace)
    requires t.start == LastStates(s0, trace) && t.ids == LastIds(ids0, trace) && t.draws == LastDraws(d0, trace)
    ensures Chained(s0, ids0, d0, trace + [t])
    ensures LastStates(s0, trace + [t]) == t.end && LastIds(ids0, trace + [t]) == t.endIds
    ensures LastDraws(d0, trace + [t]) == t.drawsAfter
  {
    var longer := trace + [t];
    forall k | 0 <= k < |longer|
      ensures longer[k].start == LastStates(s0, longer[..k]) && longer[k].ids == LastIds(ids0, longer[..k])
      ensures longer[k].draws == LastDraws(d0, longer[..k])
    {
      if k < |trace| {
        assert longer[..k] == trace[..k];
      } else {
        assert longer[..k] == trace;
      }
    }
  }

  /** A year's history entry: the total and per-strategy populations, the number of
      conflicts and the mean signaling monument. */
  datatype YearStats = YearStats(total: real, signaling: real, reproduction: real, conflicts: int, monument: real)

  /** The history entry a traced year calls for: the statistics of the surviving groups
      in order, and the number of pairs that fought. */
  function StatsOf(t: YearTrace): YearStats
    requires forall id :: id in t.endIds ==> id in t.end
  {
    var rs := Sharing.InOrder(RecordsOf(t.end), t.endIds);
    YearStats(TotalPopulation(rs), StrategyPopulation(rs, CostlySignaling), StrategyPopulation(rs, HighReproduction),
              |t.pairs|, MeanSignalingMonument(rs))
  }

  /** From index base on, the five histories hold the statistics of the traced years,
      one entry per year. */
  ghost predicate Recorded(h1: seq<real>, h2: seq<real>, h3: seq<real>, h4: seq<int>, h5: seq<real>, base: nat,
                           trace: seq<YearTrace>)
  {
    forall j :: 0 <= j < |trace| ==>
      && base + j < |h1| && base + j < |h2| && base + j < |h3| && base + j < |h4| && base + j < |h5|
      && (forall id :: id in trace[j].endIds ==> id in trace[j].end)
      && YearStats(h1[base + j], h2[base + j], h3[base + j], h4[base + j], h5[base + j]) == StatsOf(trace[j])
  }

  /** A year whose statistics are appended to the histories extends the record. */
  lemma RecordedStep(h1: seq<real>, h2: seq<real>, h3: seq<real>, h4: seq<int>, h5: seq<real>, base: nat,
                     trace: seq<YearTrace>, t: YearTrace, s: YearStats)
    requires Recorded(h1, h2, h3, h4, h5, base, trace)
    requires |h1| == |h2| == |h3| == |h4| == |h5| == base + |trace|
    requires (forall id :: id in t.endIds ==> id in t.end) && s == StatsOf(t)
    ensures Recorded(h1 + [s.total], h2 + [s.signaling], h3 + [s.reproduction], h4 + [s.conflicts],
                     h5 + [s.monument], base, trace + [t])
  {
  }

  /** The ids, in order, whose groups hold more than one person. */
  function Survivors(snap: map<int, GroupRecord>, ids: seq<int>): (kept: seq<int>)
    requires forall id :: id in ids ==> id in snap
    ensures forall id :: id in kept <==> id in ids && snap[id].population > 1.0
    ensures Sharing.Distinct(ids) ==> Sharing.Distinct(kept)
  {
    if |ids| == 0 then []
    else
      var init, last := ids[..|ids| - 1], ids[|ids| - 1];
      assert last in ids;
      assert forall id :: id in init ==> id in ids;
      assert Sharing.Distinct(ids) ==> last !in init;
      Survivors(snap, init) + (if snap[last].population > 1.0 then [last] else [])
  }

  /** The summary statistics of a simulation. */
  datatype Summary = Summary(
    finalYear: int,
    totalPopulation: real,
    groupsRemaining: nat,
    totalConflicts: int,
    signalingGroups: nat,
    signalingPopulation: real,
    signalingAvgTerritory: real,
    reproductionGroups: nat,
    reproductionPopulation: real,
    reproductionAvgTerritory: real)

  /** A group: its strategy never changes, its territory is assigned once, and its
      population, monument investment and conflict tallies change every year. */
  class Group {
    const id: int
    const strategy: Strategy
    var territory: seq<Cell>
    var population: real
    var monumentInvestment: real
    var conflictsWon: nat
    var conflictsLost: nat
    var populationHistory: seq<real>
    var monumentHistory: seq<real>
    // a single running entry, raised by one for every conflict fought
    var conflictHistory: seq<int>

    ghost predicate Valid()
      reads this`populationHistory, this`monumentHistory, this`conflictHistory, this`conflictsWon, this`conflictsLost
    {
      && |populationHistory| == |monumentHistory| >= 1
      && conflictHistory == [conflictsWon + conflictsLost]
    }

    function State(): GroupState
      reads this
    {
      GroupState(id, strategy, territory, population, monumentInvestment, conflictsWon, conflictsLost,
                 populationHistory, monumentHistory, conflictHistory)
    }

    /** A new group with no monument and no conflicts; its histories start with the
        initial values and a zero conflict tally. */
    constructor(id: int, strategy: Strategy, territory: seq<Cell>, population: real)
      ensures Valid()
      ensures State() == GroupState(id, strategy, territory, population, 0.0, 0, 0, [population], [0.0], [0])
    {
      this.id := id;
      this.strategy := strategy;
      this.territory := territory;
      this.population := population;
      monumentInvestment := 0.0;
      conflictsWon := 0;
      conflictsLost := 0;
      populationHistory := [population];
      monumentHistory := [0.0];
      conflictHistory := [0];
    }

    function TerritorySize(): nat
      reads this
    {
      |territory|
    }

    /** Population per cell; a group without territory counts as one cell. */
    function PopulationDensity(): (density: real)
      reads this
      ensures |territory| == 0 ==> density == population
      ensures |territory| > 0 ==> density * |territory| as real == population
    {
      population / (if |territory| >= 1 then |territory| else 1) as real
    }
  }

  class SpatialSimulation {
    const params: Params
    // -1 marks an unassigned cell
    const territoryMap: array2<int>
    // the stream of uniform draws in [0, 1) the conflict phase consumes
    const random: nat -> real
    var draws: nat
    // the productivity map is uniform; this is its one value
    var productivity: real
    var groups: map<int, Group>
    // the ids of the live groups in insertion order
    var order: seq<int>
    var year: int
    var isShortfall: bool
    var totalPopulationHistory: seq<real>
    var signalingPopulationHistory: seq<real>
    var reproductionPopulationHistory: seq<real>
    var conflictsPerYear: seq<int>
    var avgMonumentHistory: seq<real>

    /** Every live group is filed under its own non-negative id (so distinct ids are
        distinct objects), the order lists each live id once, every group keeps its
        histories consistent, and the simulation histories are equally long. This holds
        between the phases of a step, when populations may have fallen to one or less. */
    ghost predicate Structure()
      reads this`groups, this`order, this`totalPopulationHistory, this`signalingPopulationHistory,
            this`reproductionPopulationHistory, this`conflictsPerYear, this`avgMonumentHistory,
            groups.Values`populationHistory, groups.Values`monumentHistory, groups.Values`conflictHistory,
            groups.Values`conflictsWon, groups.Values`conflictsLost
    {
      Skeleton() && GroupsValid()
    }

    /** The part of the structure that lies in the simulation's own fields. */
    ghost predicate Skeleton()
      reads this`groups, this`order, this`totalPopulationHistory, this`signalingPopulationHistory,
            this`reproductionPopulationHistory, this`conflictsPerYear, this`avgMonumentHistory
    {
      && territoryMap.Length0 == params.width && territoryMap.Length1 == params.height
      && (forall id :: id in groups ==> id >= 0 && groups[id].id == id)
      && Sharing.Distinct(order) && (forall id :: id in order <==> id in groups)
      && |signalingPopulationHistory| == |totalPopulationHistory|
      && |reproductionPopulationHistory| == |totalPopulationHistory|
      && |conflictsPerYear| == |totalPopulationHistory|
      && |avgMonumentHistory| == |totalPopulationHistory|
    }

    ghost predicate GroupsValid()
      reads this`groups, groups.Values`populationHistory, groups.Values`monumentHistory,
            groups.Values`conflictHistory, groups.Values`conflictsWon, groups.Values`conflictsLost
    {
      forall id :: id in groups ==> groups[id].Valid()
    }

    /** Between steps, in addition, every live group holds more than one person. */
    ghost predicate Valid()
      reads this`groups, this`order, this`totalPopulationHistory, this`signalingPopulationHistory,
            this`reproductionPopulationHistory, this`conflictsPerYear, this`avgMonumentHistory,
            groups.Values`populationHistory, groups.Values`monumentHistory, groups.Values`conflictHistory,
            groups.Values`conflictsWon, groups.Values`conflictsLost, groups.Values`population
    {
      Structure() && forall id :: id in groups ==> groups[id].population > 1.0
    }

    /** Every cell of a live group's territory is on the grid and marked with its id,
        and every grid cell marked with a live id belongs to that group's territory. */
    ghost predicate TerritoryAgrees()
      reads this, groups.Values, territoryMap
    {
      TerritoriesMarked() && MarksClaimed()
    }

    /** Every territory cell is on the grid and marked with its owner's id. */
    ghost predicate TerritoriesMarked()
      reads this, groups.Values, territoryMap
    {
      forall id, c :: id in groups && c in groups[id].territory ==>
        InBounds(c, territoryMap.Length0, territoryMap.Length1) && territoryMap[c.x, c.y] == id
    }

    /** Every grid cell marked with a live id belongs to that group's territory. */
    ghost predicate MarksClaimed()
      reads this, groups.Values, territoryMap
    {
      forall x, y :: (0 <= x < territoryMap.Length0 && 0 <= y < territoryMap.Length1
        && territoryMap[x, y] in groups) ==> Cell(x, y) in groups[territoryMap[x, y]].territory
    }

    ghost function States(): map<int, GroupState>
      reads this`groups, groups.Values
    {
      map id | id in groups :: groups[id].State()
    }

    function Snapshot(): map<int, GroupRecord>
      reads this`groups, groups.Values
    {
      map id | id in groups :: RecordOf(groups[id].State())
    }

    /** The snapshot is the record of each group's state. */
    lemma SnapshotOfStates()
      ensures Snapshot() == RecordsOf(States())
    {
      forall id | id in groups
        ensures Snapshot()[id] == RecordsOf(States())[id]
      {
      }
    }

    /** The live groups' records in order. */
    function Records(): seq<GroupRecord>
      reads this`groups, this`order, groups.Values
      requires forall id :: id in order ==> id in groups
    {
      Sharing.InOrder(Snapshot(), order)
    }

    /** The ids that are marked on the grid next to a territory, other than the owner's
        own id and the unassigned mark. */
    ghost function NeighbourIds(owner: int, territory: seq<Cell>): set<int>
      reads territoryMap
    {
      set c, k | c in territory && 0 <= k < 4 && InBounds(Neighbour(c, k), territoryMap.Length0, territoryMap.Length1)
                 && territoryMap[Neighbour(c, k).x, Neighbour(c, k).y] != owner
                 && territoryMap[Neighbour(c, k).x, Neighbour(c, k).y] >= 0
               :: territoryMap[Neighbour(c, k).x, Neighbour(c, k).y]
    }

    ghost function Adjacency(): map<int, set<int>>
      reads this`groups, groups.Values`territory, territoryMap
    {
      map id | id in groups :: NeighbourIds(id, groups[id].territory)
    }

    /** The neighbour ids of each of some groups' territories, as marked on the grid. */
    ghost function AdjacencyOf(states: map<int, GroupState>): map<int, set<int>>
      reads territoryMap
    {
      map id | id in states :: NeighbourIds(id, states[id].territory)
    }

    /** Groups with the same territories have the same neighbours, listed alike. */
    lemma SameTerritories(a: map<int, GroupState>, b: map<int, GroupState>)
      requires a.Keys == b.Keys && forall id :: id in a ==> a[id].territory == b[id].territory
      ensures AdjacencyOf(a) == AdjacencyOf(b) && ListingsOf(a) == ListingsOf(b)
    {
    }

    /** A grid left as it was marks the same neighbours for the same territories. */
    twostate lemma GridKept(states: map<int, GroupState>)
      requires unchanged(territoryMap)
      ensures AdjacencyOf(states) == old(AdjacencyOf(states)) && ListingsOf(states) == old(ListingsOf(states))
    {
    }

    /** The adjacency is that of the groups' states. */
    lemma AdjacencyOfStates()
      ensures Adjacency() == AdjacencyOf(States())
    {
      forall id | id in groups
        ensures Adjacency()[id] == AdjacencyOf(States())[id]
      {
      }
    }

    /** The listing grows by the id marked at cell n when that id is another group's
        and not listed yet. */
    ghost function Mark(owner: int, n: Cell, listing: seq<int>): seq<int>
      reads territoryMap
    {
      if InBounds(n, territoryMap.Length0, territoryMap.Length1)
         && territoryMap[n.x, n.y] != owner && territoryMap[n.x, n.y] >= 0 && territoryMap[n.x, n.y] !in listing
      then listing + [territoryMap[n.x, n.y]]
      else listing
    }

    /** The listing after looking at the first k cells around c. */
    ghost function ScanCell(owner: int, c: Cell, k: nat, listing: seq<int>): seq<int>
      reads territoryMap
      requires k <= 4
    {
      if k == 0 then listing else Mark(owner, Neighbour(c, k - 1), ScanCell(owner, c, k - 1, listing))
    }

    /** The ids marked around a territory, other than the owner's own id and the
        unassigned mark, each listed once in the order the scan of the territory's cells
        finds them. */
    ghost function NeighbourListing(owner: int, territory: seq<Cell>): seq<int>
      reads territoryMap
      decreases |territory|
    {
      if territory == [] then []
      else ScanCell(owner, territory[|territory| - 1], 4, NeighbourListing(owner, territory[..|territory| - 1]))
    }

    /** The neighbour listing of each of some groups. */
    ghost function ListingsOf(states: map<int, GroupState>): map<int, seq<int>>
      reads territoryMap
    {
      map id | id in states :: NeighbourListing(id, states[id].territory)
    }

    /** The ids of the groups adjacent to a group's territory (dead ids included), and
        the same ids listed once each in the order they were found, which stands for the
        order in which the set is later iterated. */
    method GetNeighboringGroups(g: Group) returns (neighbours: set<int>, listing: seq<int>)
      ensures neighbours == NeighbourIds(g.id, g.territory)
      ensures Sharing.Distinct(listing) && forall n :: n in listing <==> n in neighbours
      ensures listing == NeighbourListing(g.id, g.territory)
    {
      neighbours, listing := {}, [];
      var i := 0;
      while i < |g.territory|
        invariant 0 <= i <= |g.territory|
        invariant Sharing.Distinct(listing) && forall n :: n in listing <==> n in neighbours
        invariant listing == NeighbourListing(g.id, g.territory[..i])
        invariant neighbours == set c, k | c in g.territory[..i] && 0 <= k < 4
                   && InBounds(Neighbour(c, k), territoryMap.Length0, territoryMap.Length1)
                   && territoryMap[Neighbour(c, k).x, Neighbour(c, k).y] != g.id
                   && territoryMap[Neighbour(c, k).x, Neighbour(c, k).y] >= 0
                 :: territoryMap[Neighbour(c, k).x, Neighbour(c, k).y]
      {
        var cell := g.territory[i];
        neighbours, listing := ScanAround(g.id, cell, neighbours, listing);
        assert g.territory[..i + 1] == g.territory[..i] + [cell];
        assert g.territory[..i + 1][..i] == g.territory[..i];
        i := i + 1;
      }
      assert g.territory[..i] == g.territory;
    }

    /** The four cells around one territory cell add the ids marked there, other than
        the owner's and the unassigned mark, to the neighbours and, when new, to the
        end of the listing. */
    method ScanAround(owner: int, cell: Cell, neighbours: set<int>, listing: seq<int>)
      returns (neighbours': set<int>, listing': seq<int>)
      requires Sharing.Distinct(listing) && forall n :: n in listing <==> n in neighbours
      ensures Sharing.Distinct(listing') && forall n :: n in listing' <==> n in neighbours'
      ensures listing' == ScanCell(owner, cell, 4, listing)
      ensures neighbours' == neighbours + set k | 0 <= k < 4
                   && InBounds(Neighbour(cell, k), territoryMap.Length0, territoryMap.Length1)
                   && territoryMap[Neighbour(cell, k).x, Neighbour(cell, k).y] != owner
                   && territoryMap[Neighbour(cell, k).x, Neighbour(cell, k).y] >= 0
                 :: territoryMap[Neighbour(cell, k).x, Neighbour(cell, k).y]
    {
      neighbours', listing' := neighbours, listing;
      var k := 0;
      while k < 4
        invariant 0 <= k <= 4
        invariant Sharing.Distinct(listing') && forall n :: n in listing' <==> n in neighbours'
        invariant listing' == ScanCell(owner, cell, k, listing)
        invariant neighbours' == neighbours + set k' | 0 <= k' < k
                 && InBounds(Neighbour(cell, k'), territoryMap.Length0, territoryMap.Length1)
                 && territoryMap[Neighbour(cell, k').x, Neighbour(cell, k').y] != owner
                 && territoryMap[Neighbour(cell, k').x, Neighbour(cell, k').y] >= 0
               :: territoryMap[Neighbour(cell, k').x, Neighbour(cell, k').y]
      {
        var n := Neighbour(cell, k);
        if 0 <= n.x < territoryMap.Length0 && 0 <= n.y < territoryMap.Length1 {
          var neighbourId := territoryMap[n.x, n.y];
          if neighbourId != owner && neighbourId >= 0 {
            if neighbourId !in neighbours' {
              listing' := listing' + [neighbourId];
            }
            neighbours' := neighbours' + {neighbourId};
          }
        }
        k := k + 1;
      }
    }

    /** A fresh simulation: every cell unassigned, no groups, year 0, no history. */
    constructor(params: Params, random: nat -> real)
      requires params.width >= 0 && params.height >= 0
      ensures this.params == params && this.random == random && draws == 0
      ensures fresh(territoryMap) && territoryMap.Length0 == params.width && territoryMap.Length1 == params.height
      ensures forall x, y :: 0 <= x < params.width && 0 <= y < params.height ==> territoryMap[x, y] == -1
      ensures productivity == params.baseProductivity
      ensures groups == map[] && order == [] && year == 0 && !isShortfall
      ensures totalPopulationHistory == [] && signalingPopulationHistory == [] && reproductionPopulationHistory == []
      ensures conflictsPerYear == [] && avgMonumentHistory == []
      ensures Valid()
    {
      this.params := params;
      this.random := random;
      draws := 0;
      territoryMap := new int[params.width, params.height]((x, y) => -1);
      productivity := params.baseProductivity;
      groups := map[];
      order := [];
      year := 0;
      isShortfall := false;
      totalPopulationHistory := [];
      signalingPopulationHistory := [];
      reproductionPopulationHistory := [];
      conflictsPerYear := [];
      avgMonumentHistory := [];
    }

    // ----- initialization -----

    /** The smaller grid dimension. */
    function Side(): int
    {
      if params.width <= params.height then params.width else params.height
    }

    /** Rejection sampling of n centers from the candidate cells `cells`: up to 100n
        candidates are tried, each accepted when far enough from those accepted so far,
        and stopping once n are accepted; any still missing are then taken from the next
        candidates unconditionally. Drawing a cell from an empty grid fails. */
    method GenerateGroupCenters(n: int, cells: nat -> Cell) returns (centers: seq<Cell>, attempts: nat, ok: bool)
      ensures ok <==> n <= 0 || (params.width > 0 && params.height > 0)
      ensures ok && n <= 0 ==> centers == [] && attempts == 0
      ensures ok && n > 0 ==> |centers| == n && attempts <= 100 * n
      ensures ok && n > 0 ==>
        var acc := Placement.Spaced(cells, attempts, n, Side());
        && (|acc| == n || attempts == 100 * n)
        && (attempts > 0 ==> |Placement.Spaced(cells, attempts - 1, n, Side())| < n)
        && centers[..|acc|] == acc
        && forall i :: |acc| <= i < n ==> centers[i] == cells(attempts + i - |acc|)
    {
      if n <= 0 {
        return [], 0, true;
      }
      if params.width <= 0 || params.height <= 0 {
        return [], 0, false;
      }
      ok := true;
      centers, attempts := PlaceCenters(n, cells);
    }

    /** The n centers of a grid with cells: the spaced samples, then the fill. */
    method PlaceCenters(n: nat, cells: nat -> Cell) returns (centers: seq<Cell>, attempts: nat)
      requires n > 0
      ensures |centers| == n && attempts <= 100 * n
      ensures var acc := Placement.Spaced(cells, attempts, n, Side());
        && (|acc| == n || attempts == 100 * n)
        && (attempts > 0 ==> |Placement.Spaced(cells, attempts - 1, n, Side())| < n)
        && centers[..|acc|] == acc
        && forall i :: |acc| <= i < n ==> centers[i] == cells(attempts + i - |acc|)
    {
      var spaced;
      spaced, attempts := SampleCenters(n, cells);
      centers := FillCenters(n, cells, spaced, attempts);
    }

    /** The rejection-sampling loop of GenerateGroupCenters. */
    method SampleCenters(n: nat, cells: nat -> Cell) returns (centers: seq<Cell>, attempts: nat)
      ensures attempts <= 100 * n
      ensures centers == Placement.Spaced(cells, attempts, n, Side())
      ensures |centers| == n || attempts == 100 * n
      ensures attempts > 0 ==> |Placement.Spaced(cells, attempts - 1, n, Side())| < n
    {
      var side := Side();
      centers, attempts := [], 0;
      while |centers| < n && attempts < n * 100
        invariant attempts <= 100 * n
        invariant centers == Placement.Spaced(cells, attempts, n, side)
        invariant attempts > 0 ==> |Placement.Spaced(cells, attempts - 1, n, side)| < n
      {
        var c := cells(attempts);
        if Placement.FarEnough(c, centers, n, side) {
          centers := centers + [c];
        }
        attempts := attempts + 1;
      }
    }

    /** The fill loop of GenerateGroupCenters: the missing centers are the candidates
        that follow the ones sampling used. */
    method FillCenters(n: nat, cells: nat -> Cell, spacedCenters: seq<Cell>, attempts: nat) returns (centers: seq<Cell>)
      requires |spacedCenters| <= n
      ensures |centers| == n
      ensures centers[..|spacedCenters|] == spacedCenters
      ensures forall i :: |spacedCenters| <= i < n ==> centers[i] == cells(attempts + i - |spacedCenters|)
    {
      centers := spacedCenters;
      var spaced := |centers|;
      while |centers| < n
        invariant spaced <= |centers| <= n
        invariant centers[..spaced] == spacedCenters
        invariant forall i :: spaced <= i < |centers| ==> centers[i] == cells(attempts + i - spaced)
        decreases n - |centers|
      {
        centers := centers + [cells(attempts + |centers| - spaced)];
      }
    }

    /** The strategy list: each proportion entry's whole quota of copies in entry
        order, then random choices among the entries until there are as many as
        groups. Choosing from no entries fails. */
    method StrategyList(props: seq<(Strategy, real)>, pick: nat -> nat) returns (strategies: seq<Strategy>, ok: bool)
      requires |props| > 0 ==> forall k :: pick(k) < |props|
      ensures ok <==> |props| > 0 || params.nGroups <= 0
      ensures ok ==> strategies == Placement.StrategySpec(props, params.nGroups, pick)
    {
      var n := params.nGroups;
      strategies := [];
      for i := 0 to |props|
        invariant strategies == Placement.BaseStrategies(props[..i], n)
      {
        assert props[..i + 1][..i] == props[..i];
        strategies := strategies + seq(Placement.Quota(n, props[i].1), _ => props[i].0);
      }
      assert props[..|props|] == props;
      ghost var base := strategies;
      var k := 0;
      while |strategies| < n
        invariant |strategies| == |base| + k
        invariant n > |base| ==> |base| + k <= n
        invariant n <= |base| ==> k == 0
        invariant |props| > 0 ==> strategies == base + Placement.Fill(props, pick, k)
        invariant k == 0 ==> strategies == base
        invariant |props| == 0 ==> k == 0
        decreases n - |strategies|
      {
        if |props| == 0 {
          return strategies, false;
        }
        strategies := strategies + [props[pick(k)].0];
        k := k + 1;
      }
      ok := true;
      assert k == Placement.FillCount(props, n);
      if |props| == 0 {
        assert base == Placement.BaseStrategies(props, n) == [];
        assert Placement.Fill(props, pick, 0) == [];
        assert base + [] == base;
      }
    }

    /** The groups 0 .. count - 1, each with its strategy from the shuffled list, its
        initial population and no territory yet. */
    method CreateGroups(shuffled: seq<Strategy>, count: nat, pops: nat -> real)
      requires count <= |shuffled|
      requires groups == map[] && order == []
      modifies this`groups, this`order
      ensures order == seq(count, i => i)
      ensures forall id :: id in groups <==> 0 <= id < count
      ensures forall id :: id in order <==> 0 <= id < count
      ensures forall i :: 0 <= i < count ==> fresh(groups[i])
      ensures forall g :: g in groups.Values ==> fresh(g)
      ensures forall i :: 0 <= i < count ==>
        groups[i].State() == GroupState(i, shuffled[i], [], pops(i), 0.0, 0, 0, [pops(i)], [0.0], [0])
    {
      for i := 0 to count
        invariant order == seq(i, j => j)
        invariant forall id :: id in groups <==> 0 <= id < i
        invariant forall id :: id in order <==> 0 <= id < i
        invariant forall j :: 0 <= j < i ==> fresh(groups[j])
        invariant forall g :: g in groups.Values ==> fresh(g)
        invariant forall j :: 0 <= j < i ==>
          groups[j].State() == GroupState(j, shuffled[j], [], pops(j), 0.0, 0, 0, [pops(j)], [0.0], [0])
      {
        var g := new Group(i, shuffled[i], [], pops(i));
        groups := groups[i := g];
        order := order + [i];
      }
    }

    /** Column x of the grid: every cell is marked with its nearest center and
        appended to that group's territory. */
    method AssignColumn(centers: seq<Cell>, x: nat)
      requires |centers| > 0 && x < territoryMap.Length0
      requires forall id :: id in groups <==> 0 <= id < |centers|
      requires forall id :: id in groups ==> groups[id].id == id
      modifies territoryMap, groups.Values
      ensures forall x', y :: 0 <= x' < territoryMap.Length0 && 0 <= y < territoryMap.Length1 && x' != x ==>
        territoryMap[x', y] == old(territoryMap[x', y])
      ensures forall y :: 0 <= y < territoryMap.Length1 ==> territoryMap[x, y] == Nearest(Cell(x, y), centers)
      ensures forall id :: id in groups ==> (groups[id].State() ==
        old(groups[id].State()).(territory := old(groups[id].territory) + RowClaim(centers, id, x, territoryMap.Length1)))
    {
      ghost var start := map id | id in groups :: groups[id].State();
      for y := 0 to territoryMap.Length1
        invariant forall x', y' :: 0 <= x' < territoryMap.Length0 && 0 <= y' < territoryMap.Length1 && x' != x ==>
          territoryMap[x', y'] == old(territoryMap[x', y'])
        invariant forall y' :: 0 <= y' < y ==> territoryMap[x, y'] == Nearest(Cell(x, y'), centers)
        invariant forall id :: id in groups ==> (id in start &&
          groups[id].State() == start[id].(territory := start[id].territory + RowClaim(centers, id, x, y)))
      {
        ClaimCell(centers, x, y, start);
      }
    }

    /** One cell: it is marked with its nearest center and appended to that group's
        territory, which extends the claims of row x by one cell. */
    method ClaimCell(centers: seq<Cell>, x: nat, y: nat, ghost start: map<int, GroupState>)
      requires |centers| > 0 && x < territoryMap.Length0 && y < territoryMap.Length1
      requires forall id :: id in groups <==> 0 <= id < |centers|
      requires forall id :: id in groups ==> groups[id].id == id
      requires forall id :: id in groups ==> (id in start &&
        groups[id].State() == start[id].(territory := start[id].territory + RowClaim(centers, id, x, y)))
      modifies territoryMap, groups.Values
      ensures forall x', y' :: 0 <= x' < territoryMap.Length0 && 0 <= y' < territoryMap.Length1 && (x' != x || y' != y) ==>
        territoryMap[x', y'] == old(territoryMap[x', y'])
      ensures territoryMap[x, y] == Nearest(Cell(x, y), centers)
      ensures forall id :: id in groups ==> (id in start &&
        groups[id].State() == start[id].(territory := start[id].territory + RowClaim(centers, id, x, y + 1)))
    {
      var c := Cell(x, y);
      var i := Nearest(c, centers);
      territoryMap[x, y] := i;
      var g := groups[i];
      ConcatAssoc(start[i].territory, RowClaim(centers, i, x, y), [c]);
      g.territory := g.territory + [c];
    }

    /** Every cell is marked with the index of its nearest center (the first on ties)
        and appended, in scan order, to that group's territory. With no centers, a
        non-empty grid fails (there is no nearest center). */
    method AssignTerritories(centers: seq<Cell>) returns (ok: bool)
      requires forall id :: id in groups <==> 0 <= id < |centers|
      requires forall id :: id in groups ==> groups[id].id == id
      modifies territoryMap, groups.Values
      ensures ok <==> |centers| > 0 || territoryMap.Length0 == 0 || territoryMap.Length1 == 0
      ensures ok && |centers| > 0 ==> forall x, y :: 0 <= x < territoryMap.Length0 && 0 <= y < territoryMap.Length1 ==>
        territoryMap[x, y] == Nearest(Cell(x, y), centers)
      ensures ok && |centers| > 0 ==> forall id :: id in groups ==> (groups[id].State() ==
        old(groups[id].State()).(territory := old(groups[id].territory) + Claim(centers, id, territoryMap.Length0, territoryMap.Length1)))
    {
      if |centers| == 0 {
        return territoryMap.Length0 == 0 || territoryMap.Length1 == 0;
      }
      ok := true;
      for x := 0 to territoryMap.Length0
        invariant forall x', y :: 0 <= x' < x && 0 <= y < territoryMap.Length1 ==>
          territoryMap[x', y] == Nearest(Cell(x', y), centers)
        invariant forall id :: id in groups ==> (groups[id].State() ==
          old(groups[id].State()).(territory := old(groups[id].territory) + Claim(centers, id, x, territoryMap.Length1)))
      {
        AssignColumn(centers, x);
        forall id | id in groups
          ensures groups[id].territory == old(groups[id].territory) + Claim(centers, id, x + 1, territoryMap.Length1)
        {
          assert Claim(centers, id, x + 1, territoryMap.Length1)
              == Claim(centers, id, x, territoryMap.Length1) + RowClaim(centers, id, x, territoryMap.Length1);
        }
      }
    }

    /** After the assignment the grid and the territories agree. */
    lemma AssignedAgrees(centers: seq<Cell>)
      requires |centers| > 0
      requires forall x, y :: 0 <= x < territoryMap.Length0 && 0 <= y < territoryMap.Length1 ==>
        territoryMap[x, y] == Nearest(Cell(x, y), centers)
      requires forall id :: id in groups <==> 0 <= id < |centers|
      requires forall id :: id in groups ==> groups[id].territory == Claim(centers, id, territoryMap.Length0, territoryMap.Length1)
      ensures TerritoryAgrees()
    {
      ClaimsMarked(centers);
      MarksInClaims(centers);
    }

    /** Every claimed cell is on the grid and marked with its claimant. */
    lemma ClaimsMarked(centers: seq<Cell>)
      requires |centers| > 0
      requires forall x, y :: 0 <= x < territoryMap.Length0 && 0 <= y < territoryMap.Length1 ==>
        territoryMap[x, y] == Nearest(Cell(x, y), centers)
      requires forall id :: id in groups <==> 0 <= id < |centers|
      requires forall id :: id in groups ==> groups[id].territory == Claim(centers, id, territoryMap.Length0, territoryMap.Length1)
      ensures TerritoriesMarked()
    {
      var w, h := territoryMap.Length0, territoryMap.Length1;
      forall id, c | id in groups && c in groups[id].territory
        ensures InBounds(c, w, h) && territoryMap[c.x, c.y] == id
      {
        ClaimMembers(centers, id, w, h, c);
      }
    }

    /** Every grid cell marked with a live id is in that group's claim. */
    lemma MarksInClaims(centers: seq<Cell>)
      requires |centers| > 0
      requires forall x, y :: 0 <= x < territoryMap.Length0 && 0 <= y < territoryMap.Length1 ==>
        territoryMap[x, y] == Nearest(Cell(x, y), centers)
      requires forall id :: id in groups <==> 0 <= id < |centers|
      requires forall id :: id in groups ==> groups[id].territory == Claim(centers, id, territoryMap.Length0, territoryMap.Length1)
      ensures MarksClaimed()
    {
      var w, h := territoryMap.Length0, territoryMap.Length1;
      forall x, y | 0 <= x < w && 0 <= y < h && territoryMap[x, y] in groups
        ensures Cell(x, y) in groups[territoryMap[x, y]].territory
      {
        var id := territoryMap[x, y];
        ClaimMembers(centers, id, w, h, Cell(x, y));
        assert groups[id].territory == Claim(centers, id, w, h);
      }
    }

    /** Initialization of a fresh simulation, drawing the candidate center cells from
        `cells`, the fill choices from `pick`, the permutation from `shuffle` and the
        initial populations, in [50, 100), from `pops`: the centers are placed, the
        strategy list is built and shuffled, group i gets center i, the i-th shuffled
        strategy and the i-th population, the cells are shared out by nearest center,
        and signaling groups get their initial monuments. It fails when a cell must be
        drawn from an empty grid, when the list must be filled from no entries, or when
        a non-empty grid has no center to assign its cells to. */
    method InitializeGroups(given: Option<seq<(Strategy, real)>>, cells: nat -> Cell, pick: nat -> nat,
                            shuffle: seq<Strategy> -> seq<Strategy>, pops: nat -> real)
      returns (ok: bool, ghost centers: seq<Cell>)
      requires Valid() && groups == map[]
      requires |Placement.Proportions(given)| > 0 ==> forall k :: pick(k) < |Placement.Proportions(given)|
      requires forall l :: multiset(shuffle(l)) == multiset(l)
      requires forall k :: 50.0 <= pops(k) < 100.0
      modifies this`groups, this`order, territoryMap
      ensures ok <==> (params.nGroups > 0 && params.width > 0 && params.height > 0 && |Placement.Proportions(given)| > 0)
                      || (params.nGroups <= 0 && (params.width == 0 || params.height == 0))
      ensures ok ==> Valid() && TerritoryAgrees()
      ensures ok ==> order == seq(|centers|, i => i) && (forall id :: id in groups <==> 0 <= id < |centers|)
      ensures ok ==> forall g :: g in groups.Values ==> fresh(g)
      ensures ok && params.nGroups > 0 ==> |centers| == params.nGroups
      ensures params.nGroups <= 0 ==> |centers| == 0
      ensures ok && |centers| > 0 ==> forall x, y :: 0 <= x < territoryMap.Length0 && 0 <= y < territoryMap.Length1 ==>
        territoryMap[x, y] == Nearest(Cell(x, y), centers)
      ensures ok && |centers| > 0 ==> |centers| <= |Placement.StrategySpec(Placement.Proportions(given), params.nGroups, pick)|
      ensures ok && |centers| > 0 ==> |centers| <= |shuffle(Placement.StrategySpec(Placement.Proportions(given), params.nGroups, pick))|
      ensures ok && |centers| > 0 ==> forall i :: 0 <= i < |centers| ==> (fresh(groups[i]) &&
        groups[i].State() == InitialState(params, i, shuffle(Placement.StrategySpec(Placement.Proportions(given), params.nGroups, pick))[i],
                                          pops(i), centers, territoryMap.Length0, territoryMap.Length1))
    {
      var n := params.nGroups;
      var cs, attempts;
      cs, attempts, ok := GenerateGroupCenters(n, cells);
      centers := cs;
      if !ok {
        return;
      }
      var strategies;
      strategies, ok := StrategyList(Placement.Proportions(given), pick);
      if !ok {
        return;
      }
      var shuffled := shuffle(strategies);
      assert |shuffled| == |multiset(shuffled)| == |multiset(strategies)| == |strategies|;
      // zip of centers and strategies: the strategy list is never shorter
      var count := if |cs| <= |shuffled| then |cs| else |shuffled|;
      assert count == |cs|;
      ok := PopulateGroups(shuffled[..count], cs, pops);
      assert forall i :: 0 <= i < count ==> shuffled[..count][i] == shuffled[i];
    }

    /** The groups 0 .. |centers| - 1 with their strategies and initial populations,
        their territories shared out by nearest center and their initial monuments. */
    method PopulateGroups(strategies: seq<Strategy>, centers: seq<Cell>, pops: nat -> real) returns (ok: bool)
      requires Valid() && groups == map[]
      requires |centers| == |strategies|
      requires forall k :: 50.0 <= pops(k) < 100.0
      modifies this`groups, this`order, territoryMap
      ensures ok <==> |centers| > 0 || territoryMap.Length0 == 0 || territoryMap.Length1 == 0
      ensures ok ==> Valid() && TerritoryAgrees()
      ensures order == seq(|centers|, i => i) && (forall id :: id in groups <==> 0 <= id < |centers|)
      ensures forall g :: g in groups.Values ==> fresh(g)
      ensures ok && |centers| > 0 ==> forall x, y :: 0 <= x < territoryMap.Length0 && 0 <= y < territoryMap.Length1 ==>
        territoryMap[x, y] == Nearest(Cell(x, y), centers)
      ensures ok && |centers| > 0 ==> forall i :: 0 <= i < |centers| ==> (fresh(groups[i]) &&
        groups[i].State() == InitialState(params, i, strategies[i], pops(i), centers, territoryMap.Length0, territoryMap.Length1))
    {
      forall x
        ensures x in (set y | y in order) <==> x in groups.Keys
      {
        assert x in order <==> x in groups;
      }
      Sharing.DistinctCard(order);
      assert (set y | y in order) == groups.Keys == {};
      assert order == [];
      CreateGroups(strategies, |centers|, pops);
      ok := SettleGroups(strategies, centers, pops);
    }

    /** The created groups get their territories, shared out by nearest center, and
        their initial monuments. */
    method SettleGroups(strategies: seq<Strategy>, centers: seq<Cell>, pops: nat -> real) returns (ok: bool)
      requires Skeleton() && order == seq(|centers|, i => i)
      requires |centers| == |strategies|
      requires forall k :: 50.0 <= pops(k) < 100.0
      requires forall id :: id in groups <==> 0 <= id < |centers|
      requires forall i :: 0 <= i < |centers| ==>
        groups[i].State() == GroupState(i, strategies[i], [], pops(i), 0.0, 0, 0, [pops(i)], [0.0], [0])
      modifies territoryMap, groups.Values
      ensures ok <==> |centers| > 0 || territoryMap.Length0 == 0 || territoryMap.Length1 == 0
      ensures ok ==> Valid() && TerritoryAgrees()
      ensures ok && |centers| > 0 ==> forall x, y :: 0 <= x < territoryMap.Length0 && 0 <= y < territoryMap.Length1 ==>
        territoryMap[x, y] == Nearest(Cell(x, y), centers)
      ensures ok && |centers| > 0 ==> forall i :: 0 <= i < |centers| ==>
        groups[i].State() == InitialState(params, i, strategies[i], pops(i), centers, territoryMap.Length0, territoryMap.Length1)
    {
      ok := AssignTerritories(centers);
      if !ok || |centers| == 0 {
        return;
      }
      var w, h := territoryMap.Length0, territoryMap.Length1;
      forall i | 0 <= i < |centers|
        ensures groups[i].State() == GroupState(i, strategies[i], Claim(centers, i, w, h), pops(i), 0.0, 0, 0, [pops(i)], [0.0], [0])
      {
        assert i in groups && old(groups[i].territory) == [];
        assert [] + Claim(centers, i, w, h) == Claim(centers, i, w, h);
      }
      FoundMonuments(strategies, centers, pops);
      AssignedAgrees(centers);
    }

    /** The groups with their territories get their initial monuments, which
        completes their initial state. */
    method FoundMonuments(strategies: seq<Strategy>, centers: seq<Cell>, pops: nat -> real)
      requires Skeleton() && order == seq(|centers|, i => i)
      requires |centers| == |strategies| > 0
      requires forall k :: 50.0 <= pops(k) < 100.0
      requires forall id :: id in groups <==> 0 <= id < |centers|
      requires forall i :: 0 <= i < |centers| ==> (groups[i].State() ==
        GroupState(i, strategies[i], Claim(centers, i, territoryMap.Length0, territoryMap.Length1), pops(i), 0.0, 0, 0, [pops(i)], [0.0], [0]))
      modifies groups.Values
      ensures Valid()
      ensures forall i :: 0 <= i < |centers| ==>
        groups[i].State() == InitialState(params, i, strategies[i], pops(i), centers, territoryMap.Length0, territoryMap.Length1)
    {
      SetInitialMonuments();
      forall i | 0 <= i < |centers|
        ensures groups[i].State() == InitialState(params, i, strategies[i], pops(i), centers, territoryMap.Length0, territoryMap.Length1)
      {
        assert i in groups;
        assert groups[i].State() == Founded(params, old(groups[i].State()));
      }
      InitialValid(strategies, centers, pops);
    }

    /** Groups in their initial state are valid: one-entry histories, no conflicts,
        and at least fifty people. */
    lemma InitialValid(strategies: seq<Strategy>, centers: seq<Cell>, pops: nat -> real)
      requires Skeleton() && |centers| == |strategies| > 0
      requires forall k :: 50.0 <= pops(k) < 100.0
      requires forall id :: id in groups <==> 0 <= id < |centers|
      requires forall i :: 0 <= i < |centers| ==>
        groups[i].State() == InitialState(params, i, strategies[i], pops(i), centers, territoryMap.Length0, territoryMap.Length1)
      ensures Valid()
    {
      forall id | id in groups
        ensures groups[id].Valid() && groups[id].population > 1.0
      {
      }
    }

    /** A signaling group's initial monument: the monument cost times its population. */
    method InitialMonument(g: Group)
      modifies g`monumentInvestment
      ensures g.State() == Founded(params, old(g.State()))
    {
      if g.strategy == CostlySignaling {
        g.monumentInvestment := params.monumentCost * g.population;
      }
    }

    /** Every signaling group starts with a monument of the monument cost times its
        population; the other groups keep theirs. */
    method SetInitialMonuments()
      requires Sharing.Distinct(order) && forall id :: id in order <==> id in groups
      requires forall id :: id in groups ==> groups[id].id == id
      modifies groups.Values
      ensures forall id :: id in groups ==> groups[id].State() == Founded(params, old(groups[id].State()))
    {
      ghost var start := States();
      for i := 0 to |order|
        invariant forall id :: id in groups ==> (id in start &&
          groups[id].State() == if id in order[..i] then Founded(params, start[id]) else start[id])
      {
        FoundOne(i, start);
      }
      assert order[..|order|] == order;
    }

    /** The i-th group in insertion order gets its initial monument. */
    method FoundOne(i: nat, ghost start: map<int, GroupState>)
      requires i < |order| && Sharing.Distinct(order) && forall id :: id in order <==> id in groups
      requires forall id :: id in groups ==> groups[id].id == id
      requires forall id :: id in groups ==> (id in start &&
        groups[id].State() == if id in order[..i] then Founded(params, start[id]) else start[id])
      modifies groups.Values
      ensures forall id :: id in groups ==> (id in start &&
        groups[id].State() == if id in order[..i + 1] then Founded(params, start[id]) else start[id])
    {
      var cur := order[i];
      assert cur in order;
      assert cur !in order[..i] by {
        forall j | 0 <= j < i
          ensures order[..i][j] != cur
        {
          assert order[..i][j] == order[j];
        }
      }
      assert order[..i + 1] == order[..i] + [cur];
      InitialMonument(groups[cur]);
    }

    /** One year of growth and monument investment for one group. */
    method GroupGrowth(group: Group, productivity: real)
      requires group.population != 0.0 && Capacity(params, |group.territory|) != 0.0
      modifies group
      ensures group.State() == GrowState(params, productivity, isShortfall, old(group.State()))
    {
      ghost var grown := Grow(params, group.strategy, |group.territory|, group.population,
                              group.monumentInvestment, productivity, isShortfall);
      var territorySize := |group.territory|;
      var carryingCapacity := Capacity(params, territorySize);
      if group.strategy == CostlySignaling {
        group.monumentInvestment := InvestedMonument(params, group.strategy, territorySize,
                                                     group.monumentInvestment, productivity);
      }
      var resourcesForGrowth := ResourcesForGrowth(params, group.strategy, territorySize, group.population,
                                                   group.monumentInvestment, productivity, isShortfall);
      var growth := LogisticGrowth(BaseGrowthRate(params, group.strategy), group.population, carryingCapacity);
      growth := growth * ResourceFactor(resourcesForGrowth, group.population);
      group.population := Min(group.population + growth, carryingCapacity);
      assert group.population == grown.population && group.monumentInvestment == grown.monument;
      group.populationHistory := group.populationHistory + [group.population];
      group.monumentHistory := group.monumentHistory + [group.monumentInvestment];
    }

    /** The groups listed in `done` have grown one year from their states in `start`;
        the others still hold their states in `start`. */
    ghost predicate GrownSoFar(start: map<int, GroupState>, done: seq<int>)
      reads this, groups.Values
    {
      forall id :: id in groups ==> (id in start &&
        if id in done then
          && start[id].population != 0.0 && Capacity(params, |start[id].territory|) != 0.0
          && groups[id].State() == GrowState(params, productivity, isShortfall, start[id])
        else groups[id].State() == start[id])
    }

    /** Growth for every live group, in order. A group without territory has no
        capacity, and the division by its capacity fails (ok is false). */
    method GrowthPhase() returns (ok: bool)
      requires Valid()
      modifies groups.Values
      ensures ok <==> forall id :: id in groups ==> Capacity(params, |old(groups[id].territory)|) != 0.0
      ensures ok ==> forall id :: id in groups ==>
        groups[id].State() == GrowState(params, productivity, isShortfall, old(groups[id].State()))
      ensures ok ==> Structure()
    {
      ghost var start := States();
      assert order[..0] == [];
      for i := 0 to |order|
        invariant forall id :: id in start ==> start[id].population > 1.0
        invariant GrownSoFar(start, order[..i])
      {
        var id := order[i];
        Sharing.PrefixStep(order, i);
        assert id in order;
        if Capacity(params, |groups[id].territory|) == 0.0 {
          assert Capacity(params, |old(groups[id].territory)|) == 0.0;
          return false;
        }
        GrowOne(i, start);
      }
      assert order[..|order|] == order;
      forall id | id in groups
        ensures groups[id].Valid()
      {
        assert old(groups[id].Valid());
      }
      return true;
    }

    /** The i-th group in insertion order grows one year. */
    method GrowOne(i: nat, ghost start: map<int, GroupState>)
      requires i < |order| && Sharing.Distinct(order) && forall id :: id in order <==> id in groups
      requires forall id :: id in groups ==> groups[id].id == id
      requires order[i] in groups && order[i] !in order[..i]
      requires groups[order[i]].population != 0.0 && Capacity(params, |groups[order[i]].territory|) != 0.0
      requires GrownSoFar(start, order[..i])
      modifies groups.Values
      ensures GrownSoFar(start, order[..i + 1])
    {
      var cur := order[i];
      var g := groups[cur];
      assert order[..i + 1] == order[..i] + [cur];
      GroupGrowth(g, productivity);
      assert forall id :: id in groups && id != cur ==> groups[id] != g;
    }
  
    /** Classifies every listed signaling group by its fill of capacity. */
    method ClassifySignaling(signaling: seq<int>) returns (classes: map<int, Sharing.Classification>)
      requires forall id :: id in signaling ==> id in groups
      ensures classes.Keys == set id | id in signaling
      ensures forall id :: id in classes ==>
        classes[id] == Sharing.Classify(params, groups[id].population, |groups[id].territory|)
    {
      classes := map[];
      var i := 0;
      while i < |signaling|
        invariant 0 <= i <= |signaling|
        invariant classes.Keys == set id | id in signaling[..i]
        invariant forall id :: id in classes ==>
          id in groups && classes[id] == Sharing.Classify(params, groups[id].population, |groups[id].territory|)
      {
        var id := signaling[i];
        assert id in signaling;
        var group := groups[id];
        classes := classes[id := Sharing.Classify(params, group.population, |group.territory|)];
        assert signaling[..i + 1] == signaling[..i] + [signaling[i]];
        i := i + 1;
      }
      assert signaling[..i] == signaling;
    }

    /** The neighbours that are live signaling groups classified as needing resources,
        with their groups, in the order the neighbour set is iterated. */
    method NeedyNeighbours(neighbours: seq<int>, classes: map<int, Sharing.Classification>)
      returns (needyIds: seq<int>, needy: seq<Group>)
      requires Sharing.Distinct(neighbours)
      ensures Sharing.Distinct(needyIds) && |needy| == |needyIds|
      ensures forall k :: 0 <= k < |needyIds| ==> needyIds[k] in groups && needy[k] == groups[needyIds[k]]
      ensures forall n :: n in needyIds <==> n in neighbours && n in groups && groups[n].strategy == CostlySignaling
                                             && n in classes && classes[n].NeedsResources?
    {
      needyIds, needy := [], [];
      for i := 0 to |neighbours|
        invariant Sharing.Distinct(needyIds) && |needy| == |needyIds|
        invariant forall k :: 0 <= k < |needyIds| ==> needyIds[k] in groups && needy[k] == groups[needyIds[k]]
        invariant forall n :: n in needyIds <==> (n in neighbours[..i] && n in groups
                    && groups[n].strategy == CostlySignaling && n in classes && classes[n].NeedsResources?)
      {
        var n := neighbours[i];
        Sharing.PrefixStep(neighbours, i);
        if n in groups && groups[n].strategy == CostlySignaling && n in classes && classes[n].NeedsResources? {
          needyIds, needy := needyIds + [n], needy + [groups[n]];
        }
      }
      assert neighbours[..|neighbours|] == neighbours;
    }

    /** A giver hands each needy neighbour half of the per-neighbour share and pays a
        quarter of it for each; only populations change. */
    method TransferShares(giver: Group, needy: seq<Group>, perNeighbourShare: real)
      requires giver !in needy
      requires forall i, j :: 0 <= i < j < |needy| ==> needy[i] != needy[j]
      modifies giver, needy
      ensures forall k :: 0 <= k < |needy| ==> needy[k].population == old(needy[k].population) + perNeighbourShare * 0.5
      ensures giver.population == old(giver.population) - Times(|needy|, perNeighbourShare * 0.25)
      ensures forall g :: g in needy ==> unchanged(g`territory, g`monumentInvestment, g`conflictsWon, g`conflictsLost,
                                                   g`populationHistory, g`monumentHistory, g`conflictHistory)
      ensures unchanged(giver`territory, giver`monumentInvestment, giver`conflictsWon, giver`conflictsLost,
                        giver`populationHistory, giver`monumentHistory, giver`conflictHistory)
    {
      for i := 0 to |needy|
        invariant forall j :: 0 <= j < i ==> needy[j].population == old(needy[j].population) + perNeighbourShare * 0.5
        invariant forall j :: i <= j < |needy| ==> needy[j].population == old(needy[j].population)
        invariant giver.population == old(giver.population) - Times(i, perNeighbourShare * 0.25)
        invariant forall g :: g in needy ==> unchanged(g`territory, g`monumentInvestment, g`conflictsWon, g`conflictsLost,
                                                       g`populationHistory, g`monumentHistory, g`conflictHistory)
        invariant unchanged(giver`territory, giver`monumentInvestment, giver`conflictsWon, giver`conflictsLost,
                            giver`populationHistory, giver`monumentHistory, giver`conflictHistory)
      {
        needy[i].population := needy[i].population + perNeighbourShare * 0.5;
        giver.population := giver.population - perNeighbourShare * 0.25;
      }
    }

    /** The neighbours that are live signaling groups classified as needing resources. */
    function NeedyAmong(neighbours: set<int>, classes: map<int, Sharing.Classification>): set<int>
      reads this
    {
      set n | n in neighbours && n in groups && groups[n].strategy == CostlySignaling
              && n in classes && classes[n].NeedsResources?
    }

    /** A signaling group that can share gives to its needy signaling neighbours: the
        total it shares grows with its population, its surplus, the sharing rate and the
        shortfall magnitude, and is split evenly among them. */
    method ShareFrom(group: Group, surplus: real, classes: map<int, Sharing.Classification>)
      requires forall id :: id in groups ==> groups[id].id == id
      requires group.id in groups && groups[group.id] == group
      modifies groups.Values
      ensures forall g :: g in groups.Values ==> unchanged(g`territory, g`monumentInvestment, g`conflictsWon,
                  g`conflictsLost, g`populationHistory, g`monumentHistory, g`conflictHistory)
      ensures var receivers := NeedyAmong(NeighbourIds(group.id, group.territory), classes);
        var gift := Sharing.Gift(group.id, receivers, Sharing.ShareAmount(params, old(group.population), surplus));
        && (forall id :: id in receivers ==> groups[id].population == old(groups[id].population) + Sharing.ReceiverGain(gift))
        && (forall id :: id in groups && id !in receivers && id != group.id ==>
              groups[id].population == old(groups[id].population))
        && group.population == old(group.population) - (if receivers != {} then gift.amount * 0.25 else 0.0)
    {
      var neighbours, listing := GetNeighboringGroups(group);
      var needyIds, needy := NeedyNeighbours(listing, classes);
      ghost var receivers := NeedyAmong(neighbours, classes);
      forall n ensures n in receivers <==> n in needyIds {
        assert n in listing <==> n in neighbours;
      }
      assert receivers == set n | n in needyIds;
      if |needy| == 0 {
        assert receivers == {};
        return;
      }
      var shareScale := 0.4 + params.shortfallMagnitude * 1.75;
      var shareAmount := group.population * params.cooperationSharingRate * surplus * shareScale;
      assert shareAmount == Sharing.ShareAmount(params, old(group.population), surplus);
      var perNeighbourShare := shareAmount / |needy| as real;
      forall k | 0 <= k < |needy| ensures needy[k] != group {
        assert needyIds[k] in needyIds;
        assert needyIds[k] in receivers;
      }
      forall i, j | 0 <= i < j < |needy| ensures needy[i] != needy[j] {
        assert needyIds[i] != needyIds[j];
      }
      ghost var paid := Times(|needy|, perNeighbourShare * 0.25);
      TransferShares(group, needy, perNeighbourShare);
      assert group.population == old(group.population) - paid;
      Sharing.DistinctCard(needyIds);
      EqualParts(shareAmount, |needy|, 0.25);
      assert paid == shareAmount * 0.25;
      ghost var gift := Sharing.Gift(group.id, receivers, shareAmount);
      assert Sharing.ReceiverGain(gift) == perNeighbourShare * 0.5;
      forall id | id in receivers
        ensures groups[id].population == old(groups[id].population) + Sharing.ReceiverGain(gift)
      {
        var k :| 0 <= k < |needyIds| && needyIds[k] == id;
      }
      forall id | id in groups && id !in receivers && id != group.id
        ensures groups[id].population == old(groups[id].population)
      {
        assert groups[id] !in needy;
      }
      forall g | g in groups.Values
        ensures unchanged(g`territory, g`monumentInvestment, g`conflictsWon,
                          g`conflictsLost, g`populationHistory, g`monumentHistory, g`conflictHistory)
      {
        if g !in needy && g != group {
        }
      }
    }

    /** The populations after the gifts of the given givers, as the sharing function
        computes them from the groups as they stood before the phase. */
    ghost predicate SharedSoFar(snap: map<int, GroupRecord>, adj: map<int, set<int>>, givers: seq<int>)
      reads this, groups.Values
      requires forall x :: x in givers ==> x in snap && x in adj
    {
      forall y :: y in groups && y in snap ==> (groups[y].population ==
        snap[y].population + Sharing.Received(Sharing.Plan(params, snap, adj, givers), y)
                           - Sharing.Given(Sharing.Plan(params, snap, adj, givers), y))
    }

    /** The turn of one signaling group in the sharing loop: it gives if it can share. */
    method SharingTurn(id: int, classes: map<int, Sharing.Classification>, ghost snap: map<int, GroupRecord>,
                       ghost adj: map<int, set<int>>, ghost givers: seq<int>)
      requires forall x :: x in groups ==> groups[x].id == x
      requires snap.Keys == groups.Keys && id in groups && id in adj && id !in givers
      requires forall x :: x in givers ==> x in snap && x in adj
      requires forall x :: x in groups ==> groups[x].strategy == snap[x].strategy
      requires forall x :: x in classes ==> x in snap && classes[x] == Sharing.Classify(params, snap[x].population, snap[x].territorySize)
      requires forall x :: x in snap ==> (x in classes <==> snap[x].strategy == CostlySignaling)
      requires id in classes && adj[id] == NeighbourIds(id, groups[id].territory)
      requires SharedSoFar(snap, adj, givers)
      modifies groups.Values
      ensures forall g :: g in groups.Values ==> unchanged(g`territory, g`monumentInvestment, g`conflictsWon,
                  g`conflictsLost, g`populationHistory, g`monumentHistory, g`conflictHistory)
      ensures SharedSoFar(snap, adj, givers + [id])
    {
      if classes[id].CanShare? {
        Give(id, classes, snap, adj, givers);
      } else {
        Sharing.PlanStep(params, snap, adj, givers, id, id);
        assert Sharing.Plan(params, snap, adj, givers + [id]) == Sharing.Plan(params, snap, adj, givers);
      }
    }

    /** The turn of a signaling group that can share: its gift goes to its needy
        signaling neighbours, as the sharing plan has it. */
    method Give(id: int, classes: map<int, Sharing.Classification>, ghost snap: map<int, GroupRecord>,
                ghost adj: map<int, set<int>>, ghost givers: seq<int>)
      requires forall x :: x in groups ==> groups[x].id == x
      requires snap.Keys == groups.Keys && id in groups && id in adj && id !in givers
      requires forall x :: x in givers ==> x in snap && x in adj
      requires forall x :: x in groups ==> groups[x].strategy == snap[x].strategy
      requires forall x :: x in classes ==> x in snap && classes[x] == Sharing.Classify(params, snap[x].population, snap[x].territorySize)
      requires forall x :: x in snap ==> (x in classes <==> snap[x].strategy == CostlySignaling)
      requires id in classes && classes[id].CanShare? && adj[id] == NeighbourIds(id, groups[id].territory)
      requires SharedSoFar(snap, adj, givers)
      modifies groups.Values
      ensures forall g :: g in groups.Values ==> unchanged(g`territory, g`monumentInvestment, g`conflictsWon,
                  g`conflictsLost, g`populationHistory, g`monumentHistory, g`conflictHistory)
      ensures SharedSoFar(snap, adj, givers + [id])
    {
      var group := groups[id];
      Sharing.GiverUntouched(params, snap, adj, givers, id);
      assert group.population == snap[id].population;
      ShareFrom(group, classes[id].surplus, classes);
      assert NeedyAmong(NeighbourIds(id, group.territory), classes) == Sharing.Receivers(params, snap, adj[id]);
      forall y | y in groups && y in snap
        ensures groups[y].population == snap[y].population
          + Sharing.Received(Sharing.Plan(params, snap, adj, givers + [id]), y)
          - Sharing.Given(Sharing.Plan(params, snap, adj, givers + [id]), y)
      {
        Sharing.PlanStep(params, snap, adj, givers, id, y);
      }
    }

    /** What the sharing turns need to know, from the state at the start of the phase. */
    lemma SharingSetup(signaling: seq<int>, classes: map<int, Sharing.Classification>,
                              snap: map<int, GroupRecord>, adj: map<int, set<int>>)
      requires Structure() && snap == Snapshot() && adj == Adjacency()
      requires signaling == Sharing.SignalingIds(snap, order)
      requires classes.Keys == set id | id in signaling
      requires forall id :: id in classes ==>
        classes[id] == Sharing.Classify(params, groups[id].population, |groups[id].territory|)
      ensures forall x :: x in groups ==> groups[x].id == x
      ensures snap.Keys == groups.Keys
      ensures forall x :: x in groups ==> groups[x].strategy == snap[x].strategy
      ensures forall x :: x in classes ==> x in snap && classes[x] == Sharing.Classify(params, snap[x].population, snap[x].territorySize)
      ensures forall x :: x in snap ==> (x in classes <==> snap[x].strategy == CostlySignaling)
      ensures forall x :: x in signaling ==> (x in groups && x in adj && x in classes
                 && adj[x] == NeighbourIds(x, groups[x].territory))
      ensures SharedSoFar(snap, adj, [])
    {
      Sharing.NothingPlanned(params, snap, adj, []);
    }

    /** Once every signaling group has had its turn, each population is the one the
        sharing function computes. */
    lemma SharingDone(signaling: seq<int>, snap: map<int, GroupRecord>, adj: map<int, set<int>>, ids: seq<int>)
      requires forall x :: x in ids ==> x in snap && x in adj
      requires signaling == Sharing.SignalingIds(snap, ids) && |signaling| >= 2
      requires SharedSoFar(snap, adj, signaling)
      requires snap.Keys == groups.Keys
      ensures forall id :: id in groups ==>
        groups[id].population == Sharing.ShareStep(params, true, snap, adj, ids)[id].population
    {
      forall id | id in groups
        ensures groups[id].population == Sharing.ShareStep(params, true, snap, adj, ids)[id].population
      {
        Sharing.SharedPopulation(params, snap, adj, ids, signaling, id);
      }
    }

    /** The turns of the given signaling groups, in order; they leave every population
        as the sharing function computes it. */
    method SharingRounds(signaling: seq<int>, classes: map<int, Sharing.Classification>,
                         ghost snap: map<int, GroupRecord>, ghost adj: map<int, set<int>>, ghost ids: seq<int>)
      requires forall x :: x in ids ==> x in snap && x in adj
      requires signaling == Sharing.SignalingIds(snap, ids) && |signaling| >= 2
      requires forall x :: x in groups ==> groups[x].id == x
      requires snap.Keys == groups.Keys && Sharing.Distinct(signaling)
      requires forall x :: x in groups ==> groups[x].strategy == snap[x].strategy
      requires forall x :: x in classes ==> x in snap && classes[x] == Sharing.Classify(params, snap[x].population, snap[x].territorySize)
      requires forall x :: x in snap ==> (x in classes <==> snap[x].strategy == CostlySignaling)
      requires forall x :: x in signaling ==> (x in groups && x in adj && x in classes
                 && adj[x] == NeighbourIds(x, groups[x].territory))
      requires SharedSoFar(snap, adj, [])
      modifies groups.Values
      ensures forall g :: g in groups.Values ==> unchanged(g`territory, g`monumentInvestment, g`conflictsWon,
                  g`conflictsLost, g`populationHistory, g`monumentHistory, g`conflictHistory)
      ensures forall id :: id in groups ==>
        groups[id].population == Sharing.ShareStep(params, true, snap, adj, ids)[id].population
    {
      Turns(signaling, classes, snap, adj);
      SharingDone(signaling, snap, adj, ids);
    }

    /** The turns of the given signaling groups, in order: each one's gift follows
        the sharing plan of the givers before it. */
    method Turns(signaling: seq<int>, classes: map<int, Sharing.Classification>,
                 ghost snap: map<int, GroupRecord>, ghost adj: map<int, set<int>>)
      requires forall x :: x in groups ==> groups[x].id == x
      requires snap.Keys == groups.Keys && Sharing.Distinct(signaling)
      requires forall x :: x in groups ==> groups[x].strategy == snap[x].strategy
      requires forall x :: x in classes ==> x in snap && classes[x] == Sharing.Classify(params, snap[x].population, snap[x].territorySize)
      requires forall x :: x in snap ==> (x in classes <==> snap[x].strategy == CostlySignaling)
      requires forall x :: x in signaling ==> (x in groups && x in adj && x in classes
                 && adj[x] == NeighbourIds(x, groups[x].territory))
      requires SharedSoFar(snap, adj, [])
      modifies groups.Values
      ensures forall g :: g in groups.Values ==> unchanged(g`territory, g`monumentInvestment, g`conflictsWon,
                  g`conflictsLost, g`populationHistory, g`monumentHistory, g`conflictHistory)
      ensures SharedSoFar(snap, adj, signaling)
    {
      assert signaling[..0] == [];
      for i := 0 to |signaling|
        invariant forall g :: g in groups.Values ==> unchanged(g`territory, g`monumentInvestment, g`conflictsWon,
                    g`conflictsLost, g`populationHistory, g`monumentHistory, g`conflictHistory)
        invariant forall x :: x in signaling ==> adj[x] == NeighbourIds(x, groups[x].territory)
        invariant SharedSoFar(snap, adj, signaling[..i])
      {
        Sharing.PrefixStep(signaling, i);
        SharingTurn(signaling[i], classes, snap, adj, signaling[..i]);
      }
      assert signaling[..|signaling|] == signaling;
    }

    /** Resource sharing among adjacent signaling groups in shortfall years: the
        signaling groups are classified once, then every one that can share gives to its
        needy signaling neighbours. Only populations change, and they end as the sharing
        function computes them from the groups as they stood before the phase. */
    method ResourceSharing()
      requires Structure()
      modifies groups.Values
      ensures forall g :: g in groups.Values ==> unchanged(g`territory, g`monumentInvestment, g`conflictsWon,
                  g`conflictsLost, g`populationHistory, g`monumentHistory, g`conflictHistory)
      ensures forall id :: id in groups ==>
        groups[id].population == Sharing.ShareStep(params, isShortfall, old(Snapshot()), old(Adjacency()), order)[id].population
    {
      if isShortfall {
        ShortfallSharing();
      }
    }

    /** The sharing of a shortfall year, among the signaling groups. */
    method ShortfallSharing()
      requires Structure() && isShortfall
      modifies groups.Values
      ensures forall g :: g in groups.Values ==> unchanged(g`territory, g`monumentInvestment, g`conflictsWon,
                  g`conflictsLost, g`populationHistory, g`monumentHistory, g`conflictHistory)
      ensures forall id :: id in groups ==>
        groups[id].population == Sharing.ShareStep(params, isShortfall, old(Snapshot()), old(Adjacency()), order)[id].population
    {
      var signaling := Sharing.SignalingIds(Snapshot(), order);
      if |signaling| >= 2 {
        SignalingSharing(signaling);
      }
    }

    /** The sharing among two or more signaling groups in a shortfall year. */
    method SignalingSharing(signaling: seq<int>)
      requires Structure() && isShortfall
      requires signaling == Sharing.SignalingIds(Snapshot(), order) && |signaling| >= 2
      modifies groups.Values
      ensures forall g :: g in groups.Values ==> unchanged(g`territory, g`monumentInvestment, g`conflictsWon,
                  g`conflictsLost, g`populationHistory, g`monumentHistory, g`conflictHistory)
      ensures forall id :: id in groups ==>
        groups[id].population == Sharing.ShareStep(params, true, old(Snapshot()), old(Adjacency()), order)[id].population
    {
      ghost var snap, adj, ids := Snapshot(), Adjacency(), order;
      Sharing.SignalingIdsDistinct(snap, order);
      var classes := ClassifySignaling(signaling);
      SharingSetup(signaling, classes, snap, adj);
      SharingRounds(signaling, classes, snap, adj, ids);
    }

    // ----- border conflicts -----

    /** The next number of the random stream. */
    method Draw() returns (u: real)
      modifies this`draws
      ensures u == random(old(draws)) && draws == old(draws) + 1
    {
      u := random(draws);
      draws := draws + 1;
    }

    /** A party to a conflict loses people and tallies the conflict. */
    method Suffer(g: Group, won: bool)
      requires |g.conflictHistory| > 0
      modifies g`population, g`conflictsWon, g`conflictsLost, g`conflictHistory
      ensures g.State() == Fought(params, isShortfall, old(g.State()), won)
    {
      if won {
        g.population := g.population * Conflict.WinnerSurvival(params, isShortfall);
        g.conflictsWon := g.conflictsWon + 1;
      } else {
        g.population := g.population * Conflict.LoserSurvival(params, isShortfall);
        g.conflictsLost := g.conflictsLost + 1;
      }
      var h := g.conflictHistory;
      g.conflictHistory := h[..|h| - 1] + [h[|h| - 1] + 1];
    }

    /** One conflict: the first group wins with probability strength1 / (strength1 +
        strength2), decided by the next random number; both sides lose people, the loser
        more, and each tallies the conflict. If the strengths cannot be compared the
        step fails (ok is false) before anything changes. */
    method ResolveConflict(g1: Group, g2: Group) returns (ok: bool, firstWon: bool)
      requires g1 != g2 && |g1.conflictHistory| > 0 && |g2.conflictHistory| > 0
      requires forall x :: x in groups ==> groups[x].id == x
      requires g1.id in groups && groups[g1.id] == g1 && g2.id in groups && groups[g2.id] == g2
      requires Entered(States())
      modifies g1`population, g1`conflictsWon, g1`conflictsLost, g1`conflictHistory
      modifies g2`population, g2`conflictsWon, g2`conflictsLost, g2`conflictHistory, this`draws
      ensures ok == Decidable(params, isShortfall, old(g1.State()), old(g2.State()))
      ensures ok ==> draws == old(draws) + 1
      ensures ok ==> firstWon == FirstWins(params, isShortfall, old(g1.State()), old(g2.State()), random(old(draws)))
      ensures ok ==> g1.State() == Fought(params, isShortfall, old(g1.State()), firstWon)
      ensures ok ==> g2.State() == Fought(params, isShortfall, old(g2.State()), !firstWon)
      ensures !ok ==> g1.State() == old(g1.State()) && g2.State() == old(g2.State()) && draws == old(draws)
      ensures old(States())[g1.id] == old(g1.State()) && old(States())[g2.id] == old(g2.State())
      ensures ok ==> States() == Clashed(params, isShortfall, old(States()), g1.id, g2.id, random(old(draws)))
      ensures !ok ==> States() == old(States())
    {
      ghost var s1, s2, before := g1.State(), g2.State(), States();
      assert before[g1.id] == s1 && before[g2.id] == s2;
      if g1.population + 1.0 == 0.0 || g2.population + 1.0 == 0.0 {
        return false, false;
      }
      var strength1 := Conflict.Strength(params, isShortfall, g1.monumentInvestment, g1.population);
      var strength2 := Conflict.Strength(params, isShortfall, g2.monumentInvestment, g2.population);
      if strength1 + strength2 == 0.0 {
        return false, false;
      }
      var winProb := Conflict.WinProbability(strength1, strength2);
      var u := Draw();
      firstWon := u < winProb;
      assert firstWon == FirstWins(params, isShortfall, s1, s2, random(old(draws)));
      Suffer(g1, firstWon);
      ghost var after1 := g1.State();
      Suffer(g2, !firstWon);
      assert g1.State() == after1;
      ghost var after := States();
      assert after[g1.id] == g1.State() && after[g2.id] == g2.State();
      forall x | x in before && x != g1.id && x != g2.id
        ensures after[x] == before[x]
      {
        assert groups[x] != g1 && groups[x] != g2;
      }
      ClashedBy(params, isShortfall, before, after, g1.id, g2.id, random(old(draws)), firstWon);
      return true, firstWon;
    }

    /** The state of the border-conflict phase after the conflicts in pairs: one conflict
        per pair, each pair sorted and made of two live neighbouring groups, every
        group's tally raised by the conflicts it took part in since the phase began
        and its population what its state at the start of the phase (start) keeps
        after the conflicts it won and lost. */
    ghost predicate Fights(pairs: set<(int, int)>, conflicts: nat, start: map<int, GroupState>,
                           adj: map<int, set<int>>)
      reads this`groups, this`isShortfall, groups.Values
    {
      && conflicts == |pairs|
      && Paired(pairs, adj)
      && AllTallied(params, isShortfall, States(), pairs, start)
    }

    /** Each pair is sorted and made of two live groups, adjacent as adj has them. */
    ghost predicate Paired(pairs: set<(int, int)>, adj: map<int, set<int>>)
      reads this`groups
    {
      forall pr :: pr in pairs ==> (pr.0 < pr.1 && pr.0 in groups && pr.1 in groups && pr.0 in adj
        && pr.1 in adj && (pr.1 in adj[pr.0] || pr.0 in adj[pr.1]))
    }

    /** A conflict between two live adjacent groups that had not fought this year,
        once every group is tallied against it, extends the phase invariant. */
    lemma FightsGrow(pairs: set<(int, int)>, conflicts: nat, start: map<int, GroupState>, adj: map<int, set<int>>,
                     a: int, b: int)
      requires conflicts == |pairs| && Paired(pairs, adj)
      requires a in groups && b in groups && a in adj && b in adj && b in adj[a] && a != b
      requires Conflict.Pair(a, b) !in pairs
      requires AllTallied(params, isShortfall, States(), pairs + {Conflict.Pair(a, b)}, start)
      ensures Fights(pairs + {Conflict.Pair(a, b)}, conflicts + 1, start, adj)
    {
    }

    /** A conflict between a group and a live neighbour that have not fought yet this year. */
    method Clash(group: Group, neighbour: Group, pairs: set<(int, int)>, conflicts: nat,
                 ghost start: map<int, GroupState>, ghost adj: map<int, set<int>>)
      returns (pairs': set<(int, int)>, conflicts': nat, ok: bool)
      requires forall x :: x in groups ==> groups[x].id == x
      requires group.id in groups && groups[group.id] == group && neighbour.id in groups && groups[neighbour.id] == neighbour
      requires group.id in adj && neighbour.id in adj && neighbour.id in adj[group.id] && group.id != neighbour.id
      requires Conflict.Pair(group.id, neighbour.id) !in pairs
      requires Fights(pairs, conflicts, start, adj)
      modifies groups.Values`population, groups.Values`conflictsWon, groups.Values`conflictsLost,
               groups.Values`conflictHistory, this`draws
      ensures ok == Decidable(params, isShortfall, old(group.State()), old(neighbour.State()))
      ensures ok ==> pairs' == pairs + {Conflict.Pair(group.id, neighbour.id)} && Fights(pairs', conflicts', start, adj)
      ensures ok ==> draws == old(draws) + 1
      ensures ok ==> States() == Clashed(params, isShortfall, old(States()), group.id, neighbour.id, random(old(draws)))
      ensures !ok ==> pairs' == pairs && conflicts' == conflicts && draws == old(draws) && States() == old(States())
    {
      var pr := Conflict.Pair(group.id, neighbour.id);
      ghost var before := States();
      assert before[group.id] == group.State() && before[neighbour.id] == neighbour.State();
      assert |group.conflictHistory| > 0 && |neighbour.conflictHistory| > 0;
      FightsEntered(pairs, conflicts, start, adj);
      var firstWon;
      ok, firstWon := ResolveConflict(group, neighbour);
      if !ok {
        return pairs, conflicts, false;
      }
      conflicts', pairs' := conflicts + 1, pairs + {pr};
      ClashedTallied(params, isShortfall, before, group.id, neighbour.id, random(old(draws)), pairs, start);
      FightsGrow(pairs, conflicts, start, adj, group.id, neighbour.id);
    }

    /** Valid groups all have a running conflict entry. */
    lemma StatesEntered()
      requires GroupsValid()
      ensures Entered(States())
    {
      forall id | id in States()
        ensures |States()[id].conflictHistory| > 0
      {
        assert groups[id].Valid();
      }
    }

    /** Groups tallied in the conflict phase all have a running conflict entry. */
    lemma FightsEntered(pairs: set<(int, int)>, conflicts: nat, start: map<int, GroupState>, adj: map<int, set<int>>)
      requires Fights(pairs, conflicts, start, adj)
      ensures Entered(States())
    {
      forall id | id in States()
        ensures |States()[id].conflictHistory| > 0
      {
        assert Tallied(params, isShortfall, States()[id], start[id], |Conflict.Involving(pairs, id)|);
      }
    }

    /** Under safe conditions two tallied groups can always fight. */
    lemma Peaceable(g1: Group, g2: Group, pairs: set<(int, int)>, start: map<int, GroupState>)
      requires WellDefined(params) && SafeStates(params, start)
      requires g1.id in groups && groups[g1.id] == g1 && g2.id in groups && groups[g2.id] == g2
      requires AllTallied(params, isShortfall, States(), pairs, start)
      ensures Decidable(params, isShortfall, g1.State(), g2.State())
    {
      assert States()[g1.id] == g1.State() && States()[g2.id] == g2.State();
      assert g1.monumentInvestment == start[g1.id].monument && g2.monumentInvestment == start[g2.id].monument;
      Conflict.StrengthPositive(params, isShortfall, g1.monumentInvestment, g1.population);
      Conflict.StrengthPositive(params, isShortfall, g2.monumentInvestment, g2.population);
    }

    /** A group and a live neighbour that have not fought yet this year: one random
        number is drawn, and the two fight when it falls below their conflict
        probability. */
    method Contest(group: Group, neighbour: Group, pairs: set<(int, int)>, conflicts: nat,
                   ghost start: map<int, GroupState>, ghost adj: map<int, set<int>>)
      returns (pairs': set<(int, int)>, conflicts': nat, ok: bool)
      requires WellDefined(params)
      requires forall x :: x in groups ==> groups[x].id == x
      requires group.id in groups && groups[group.id] == group && neighbour.id in groups && groups[neighbour.id] == neighbour
      requires group.id in adj && neighbour.id in adj && neighbour.id in adj[group.id] && group.id != neighbour.id
      requires Conflict.Pair(group.id, neighbour.id) !in pairs
      requires Fights(pairs, conflicts, start, adj)
      modifies groups.Values`population, groups.Values`conflictsWon, groups.Values`conflictsLost,
               groups.Values`conflictHistory, this`draws
      ensures ok ==> pairs <= pairs' && Fights(pairs', conflicts', start, adj)
      ensures ok ==> (Conflict.Pair(group.id, neighbour.id) in pairs' <==>
        random(old(draws)) < Chance(params, isShortfall, old(group.State()), old(neighbour.State())))
      ensures SafeStates(params, start) ==> ok
      ensures Phase(States(), pairs', draws, ok)
        == Meet(params, isShortfall, random, Phase(old(States()), pairs, old(draws), true), group.id, neighbour.id)
    {
      pairs', conflicts', ok := pairs, conflicts, true;
      ghost var before := States();
      assert before[group.id] == group.State() && before[neighbour.id] == neighbour.State();
      FightsEntered(pairs, conflicts, start, adj);
      ghost var ph := Phase(before, pairs, draws, true);
      var prob := Chance(params, isShortfall, group.State(), neighbour.State());
      var u := Draw();
      assert States() == before;
      if u >= prob {
        MeetPasses(params, isShortfall, random, ph, group.id, neighbour.id);
        return;
      }
      pairs', conflicts', ok := Fight(group, neighbour, pairs, conflicts, start, adj);
    }

    /** The fight branch of a contest: the number just drawn fell below the conflict
        probability of the two groups, so they clash. */
    method Fight(group: Group, neighbour: Group, pairs: set<(int, int)>, conflicts: nat,
                 ghost start: map<int, GroupState>, ghost adj: map<int, set<int>>)
      returns (pairs': set<(int, int)>, conflicts': nat, ok: bool)
      requires WellDefined(params)
      requires forall x :: x in groups ==> groups[x].id == x
      requires group.id in groups && groups[group.id] == group && neighbour.id in groups && groups[neighbour.id] == neighbour
      requires group.id in adj && neighbour.id in adj && neighbour.id in adj[group.id] && group.id != neighbour.id
      requires Conflict.Pair(group.id, neighbour.id) !in pairs
      requires Fights(pairs, conflicts, start, adj)
      requires draws > 0 && random(draws - 1) < Chance(params, isShortfall, group.State(), neighbour.State())
      modifies groups.Values`population, groups.Values`conflictsWon, groups.Values`conflictsLost,
               groups.Values`conflictHistory, this`draws
      ensures ok ==> pairs <= pairs' && Fights(pairs', conflicts', start, adj)
      ensures ok ==> Conflict.Pair(group.id, neighbour.id) in pairs'
      ensures SafeStates(params, start) ==> ok
      ensures Phase(States(), pairs', draws, ok)
        == Meet(params, isShortfall, random, Phase(old(States()), pairs, old(draws) - 1, true), group.id, neighbour.id)
    {
      ghost var before := States();
      assert before[group.id] == group.State() && before[neighbour.id] == neighbour.State();
      FightsEntered(pairs, conflicts, start, adj);
      ghost var ph := Phase(before, pairs, draws - 1, true);
      assert random(ph.draws) < Chance(params, isShortfall, ph.states[group.id], ph.states[neighbour.id]);
      if SafeStates(params, start) {
        Peaceable(group, neighbour, pairs, start);
      }
      pairs', conflicts', ok := Clash(group, neighbour, pairs, conflicts, start, adj);
      assert isShortfall == old(isShortfall);
      MeetFights(params, isShortfall, random, ph, group.id, neighbour.id, States(), pairs', draws, ok);
    }

    /** A group meets one neighbour id: a dead neighbour and a pair that already fought
        this year are passed over, without a draw. */
    method Encounter(group: Group, neighbourId: int, pairs: set<(int, int)>, conflicts: nat,
                     ghost start: map<int, GroupState>, ghost adj: map<int, set<int>>)
      returns (pairs': set<(int, int)>, conflicts': nat, ok: bool)
      requires WellDefined(params)
      requires forall x :: x in groups ==> groups[x].id == x
      requires group.id in groups && groups[group.id] == group && group.id in adj
      requires neighbourId != group.id && neighbourId in adj[group.id]
      requires forall x :: x in groups ==> x in adj
      requires Fights(pairs, conflicts, start, adj)
      modifies groups.Values`population, groups.Values`conflictsWon, groups.Values`conflictsLost,
               groups.Values`conflictHistory, this`draws
      ensures ok ==> pairs <= pairs' && Fights(pairs', conflicts', start, adj)
      ensures neighbourId !in groups || Conflict.Pair(group.id, neighbourId) in pairs ==>
        pairs' == pairs && conflicts' == conflicts && ok && draws == old(draws)
      ensures ok && neighbourId in groups ==> (Conflict.Pair(group.id, neighbourId) in pairs' <==>
        Conflict.Pair(group.id, neighbourId) in pairs
        || random(old(draws)) < Chance(params, isShortfall, old(group.State()), old(groups[neighbourId].State())))
      ensures SafeStates(params, start) ==> ok
      ensures Phase(States(), pairs', draws, ok)
        == Meet(params, isShortfall, random, Phase(old(States()), pairs, old(draws), true), group.id, neighbourId)
    {
      pairs', conflicts', ok := pairs, conflicts, true;
      if neighbourId !in groups || Conflict.Pair(group.id, neighbourId) in pairs {
        return;
      }
      pairs', conflicts', ok := Contest(group, groups[neighbourId], pairs, conflicts, start, adj);
    }

    /** The conflicts of one group with its listed neighbours, in listing order. */
    method FightNeighbours(group: Group, listing: seq<int>, pairs: set<(int, int)>, conflicts: nat,
                           ghost start: map<int, GroupState>, ghost adj: map<int, set<int>>)
      returns (pairs': set<(int, int)>, conflicts': nat, ok: bool)
      requires WellDefined(params)
      requires forall x :: x in groups ==> groups[x].id == x
      requires group.id in groups && groups[group.id] == group && group.id in adj
      requires forall n :: n in listing ==> n != group.id && n in adj[group.id]
      requires forall x :: x in groups ==> x in adj
      requires Fights(pairs, conflicts, start, adj)
      modifies groups.Values`population, groups.Values`conflictsWon, groups.Values`conflictsLost,
               groups.Values`conflictHistory, this`draws
      ensures ok ==> pairs <= pairs' && Fights(pairs', conflicts', start, adj)
      ensures SafeStates(params, start) ==> ok
      ensures Phase(States(), pairs', draws, ok)
        == Meetings(params, isShortfall, random, Phase(old(States()), pairs, old(draws), true), group.id, listing)
    {
      pairs', conflicts', ok := pairs, conflicts, true;
      FightsEntered(pairs, conflicts, start, adj);
      ghost var ph := Phase(States(), pairs, draws, true);
      ghost var shortfall := isShortfall;
      for j := 0 to |listing|
        invariant isShortfall == shortfall
        invariant pairs <= pairs' && Fights(pairs', conflicts', start, adj)
        invariant Phase(States(), pairs', draws, true) == Meetings(params, shortfall, random, ph, group.id, listing[..j])
      {
        assert listing[j] in listing;
        ghost var prev := Phase(States(), pairs', draws, true);
        pairs', conflicts', ok := Encounter(group, listing[j], pairs', conflicts', start, adj);
        MeetingsStep(params, shortfall, random, ph, group.id, listing, j, prev, Phase(States(), pairs', draws, ok));
        if !ok {
          MeetingsFailed(params, shortfall, random, ph, group.id, listing, j + 1);
          return;
        }
      }
      assert listing[..|listing|] == listing;
    }

    /** Before any conflict, every group is tallied against no pairs. */
    lemma NoFightsYet(adj: map<int, set<int>>)
      requires Structure()
      ensures Fights({}, 0, States(), adj)
    {
      forall id | id in groups
        ensures Tallied(params, isShortfall, States()[id], States()[id], |Conflict.Involving({}, id)|)
      {
        assert Conflict.Involving({}, id) == {};
        assert groups[id].Valid();
      }
    }

    /** A tallied group has a consistent conflict history. */
    lemma FightsValid(pairs: set<(int, int)>, conflicts: nat, start: map<int, GroupState>,
                      adj: map<int, set<int>>)
      requires Fights(pairs, conflicts, start, adj)
      ensures GroupsValid()
    {
      forall id | id in groups
        ensures groups[id].Valid()
      {
        assert States()[id] == groups[id].State();
      }
    }

    /** The conflicts of the live group id with its neighbours. */
    method ConflictTurn(id: int, pairs: set<(int, int)>, conflicts: nat,
                        ghost start: map<int, GroupState>, ghost adj: map<int, set<int>>)
      returns (pairs': set<(int, int)>, conflicts': nat, ok: bool)
      requires Structure() && WellDefined(params) && id in groups
      requires adj == AdjacencyOf(start)
      requires Fights(pairs, conflicts, start, adj)
      modifies groups.Values`population, groups.Values`conflictsWon, groups.Values`conflictsLost,
               groups.Values`conflictHistory, this`draws
      ensures ok ==> pairs <= pairs' && Fights(pairs', conflicts', start, adj) && GroupsValid()
      ensures SafeStates(params, start) ==> ok
      ensures id in start && Phase(States(), pairs', draws, ok)
        == Meetings(params, isShortfall, random, Phase(old(States()), pairs, old(draws), true), id, old(ListingsOf(start))[id])
    {
      var group := groups[id];
      var neighbours, listing := GetNeighboringGroups(group);
      assert States() == old(States()) && States()[id] == group.State();
      assert neighbours == adj[id];
      assert listing == ListingsOf(start)[id];
      pairs', conflicts', ok := FightNeighbours(group, listing, pairs, conflicts, start, adj);
      if !ok {
        return;
      }
      FightsValid(pairs', conflicts', start, adj);
    }

    /** The turn of the i-th live group, as one more turn of the conflict phase. */
    method NextTurn(i: nat, pairs: set<(int, int)>, conflicts: nat,
                    ghost start: map<int, GroupState>, ghost adj: map<int, set<int>>,
                    ghost ph: Phase, ghost listings: map<int, seq<int>>)
      returns (pairs': set<(int, int)>, conflicts': nat, ok: bool)
      requires Structure() && WellDefined(params) && i < |order| && Entered(ph.states)
      requires adj == AdjacencyOf(start) && listings == ListingsOf(start)
      requires Fights(pairs, conflicts, start, adj)
      requires Phase(States(), pairs, draws, true) == ConflictPhase(params, isShortfall, random, ph, order[..i], listings)
      modifies groups.Values`population, groups.Values`conflictsWon, groups.Values`conflictsLost,
               groups.Values`conflictHistory, this`draws
      ensures ok ==> pairs <= pairs' && Fights(pairs', conflicts', start, adj) && GroupsValid()
      ensures SafeStates(params, start) ==> ok
      ensures unchanged(territoryMap)
      ensures Phase(States(), pairs', draws, ok) == ConflictPhase(params, isShortfall, random, ph, order[..i + 1], listings)
    {
      ghost var prev := Phase(States(), pairs, draws, true);
      assert order[i] in order;
      pairs', conflicts', ok := ConflictTurn(order[i], pairs, conflicts, start, adj);
      PhaseStep(params, isShortfall, random, ph, order, listings, i, prev, Phase(States(), pairs', draws, ok));
    }

    /** What a finished conflict phase has done: it counted one conflict per pair that
        fought, only live groups with adjacent territories fought, and every live group
        is tallied against those pairs. */
    ghost predicate PhaseDone(pairs: set<(int, int)>, conflicts: nat, start: map<int, GroupState>)
      reads this`groups, this`isShortfall, groups.Values, territoryMap
    {
      && conflicts == |pairs|
      && (forall pr :: pr in pairs ==>
            && pr.0 < pr.1 && pr.0 in groups && pr.1 in groups
            && (pr.1 in NeighbourIds(pr.0, groups[pr.0].territory) || pr.0 in NeighbourIds(pr.1, groups[pr.1].territory)))
      && (forall id :: id in groups ==>
            && id in start && Tallied(params, isShortfall, groups[id].State(), start[id], |Conflict.Involving(pairs, id)|)
            && groups[id].territory == start[id].territory)
    }

    lemma FightsDone(pairs: set<(int, int)>, conflicts: nat, start: map<int, GroupState>, adj: map<int, set<int>>)
      requires Fights(pairs, conflicts, start, adj) && adj == AdjacencyOf(start)
      ensures PhaseDone(pairs, conflicts, start)
    {
      forall id | id in groups
        ensures Tallied(params, isShortfall, groups[id].State(), start[id], |Conflict.Involving(pairs, id)|)
        ensures groups[id].territory == start[id].territory
      {
        assert States()[id] == groups[id].State();
      }
    }

    /** The conflict phase: every live group in order meets each of its neighbours; the
        number of conflicts is returned with the pairs that fought. A pair fights at
        most once a year, and only two live groups with adjacent territories fight. The
        phase fails (ok is false) where a conflict cannot be decided. */
    method ResolveBorderConflicts() returns (conflicts: nat, ok: bool, pairs: set<(int, int)>)
      requires Structure() && WellDefined(params)
      modifies groups.Values, this`draws
      ensures ok ==> Structure()
      ensures unchanged(territoryMap)
      ensures ok ==> PhaseDone(pairs, conflicts, old(States()))
      ensures SafeStates(params, old(States())) ==> ok
      ensures Phase(States(), pairs, draws, ok)
        == ConflictPhase(params, isShortfall, random, Phase(old(States()), {}, old(draws), true), order,
                         old(ListingsOf(States())))
    {
      ghost var start := States();
      ghost var adj := AdjacencyOf(start);
      NoFightsYet(adj);
      conflicts, ok, pairs := BorderRounds(start, adj);
      if ok {
        FightsDone(pairs, conflicts, start, adj);
      }
    }

    /** The turns of the conflict phase, every live group in order, from the phase
        invariant with no pairs to the phase invariant with the pairs that fought. */
    method BorderRounds(ghost start: map<int, GroupState>, ghost adj: map<int, set<int>>)
      returns (conflicts: nat, ok: bool, pairs: set<(int, int)>)
      requires Structure() && WellDefined(params)
      requires adj == AdjacencyOf(start)
      requires Fights({}, 0, start, adj)
      modifies groups.Values, this`draws
      ensures ok ==> Structure() && Fights(pairs, conflicts, start, adj)
      ensures unchanged(territoryMap)
      ensures SafeStates(params, start) ==> ok
      ensures Phase(States(), pairs, draws, ok)
        == ConflictPhase(params, isShortfall, random, Phase(old(States()), {}, old(draws), true), order, ListingsOf(start))
    {
      conflicts, ok, pairs := 0, true, {};
      FightsEntered({}, 0, start, adj);
      ghost var ph := Phase(States(), {}, draws, true);
      ghost var listings := ListingsOf(start);
      ghost var shortfall := isShortfall;
      for i := 0 to |order|
        invariant Fights(pairs, conflicts, start, adj)
        invariant Structure()
        invariant unchanged(territoryMap) && adj == AdjacencyOf(start)
        invariant ListingsOf(start) == listings && isShortfall == shortfall
        invariant Phase(States(), pairs, draws, true) == ConflictPhase(params, shortfall, random, ph, order[..i], listings)
      {
        pairs, conflicts, ok := NextTurn(i, pairs, conflicts, start, adj, ph, listings);
        if !ok {
          PhaseFailed(params, shortfall, random, ph, order, listings, i + 1);
          return;
        }
      }
      assert order[..|order|] == order;
    }

    // ----- extinction, history, the year -----

    /** The live ids, in order, whose groups hold more than one person. */
    method SurvivingOrder() returns (kept: seq<int>)
      requires forall id :: id in order ==> id in groups
      ensures kept == Survivors(Snapshot(), order)
      ensures forall id :: id in kept <==> id in order && groups[id].population > 1.0
      ensures Sharing.Distinct(order) ==> Sharing.Distinct(kept)
    {
      ghost var snap := Snapshot();
      kept := [];
      for i := 0 to |order|
        invariant kept == Survivors(snap, order[..i])
      {
        var id := order[i];
        assert order[..i + 1] == order[..i] + [id];
        assert id in order;
        if groups[id].population > 1.0 {
          kept := kept + [id];
        }
      }
      assert order[..|order|] == order;
    }

    /** Keeps the listed groups only, in the listed order. */
    method Keep(kept: seq<int>)
      requires Structure() && Sharing.Distinct(kept)
      requires forall id :: id in kept ==> id in groups && groups[id].population > 1.0
      modifies this`groups, this`order
      ensures groups == map id | id in kept :: old(groups)[id]
      ensures order == kept
      ensures Valid()
    {
      ghost var before := groups;
      groups := map id | id in kept :: groups[id];
      order := kept;
      forall id | id in groups
        ensures groups[id].Valid() && id >= 0 && groups[id].id == id && groups[id].population > 1.0
      {
        assert groups[id] == before[id];
        assert old(before[id].Valid());
      }
    }

    /** Groups holding one person or fewer are removed; the others keep their order. */
    method RemoveExtinct()
      requires Structure()
      modifies this`groups, this`order
      ensures forall id :: id in groups <==> id in old(groups) && old(groups)[id].population > 1.0
      ensures forall id :: id in groups ==> groups[id] == old(groups)[id]
      ensures order == Survivors(old(Snapshot()), old(order))
      ensures Valid()
    {
      var kept := SurvivingOrder();
      Keep(kept);
    }

    /** One entry more in each simulation history. */
    method AppendHistory(total: real, signaling: real, reproduction: real, conflicts: nat, monument: real)
      requires Skeleton()
      modifies this`totalPopulationHistory, this`signalingPopulationHistory, this`reproductionPopulationHistory,
               this`conflictsPerYear, this`avgMonumentHistory
      ensures totalPopulationHistory == old(totalPopulationHistory) + [total]
      ensures signalingPopulationHistory == old(signalingPopulationHistory) + [signaling]
      ensures reproductionPopulationHistory == old(reproductionPopulationHistory) + [reproduction]
      ensures conflictsPerYear == old(conflictsPerYear) + [conflicts]
      ensures avgMonumentHistory == old(avgMonumentHistory) + [monument]
      ensures Skeleton()
    {
      totalPopulationHistory := totalPopulationHistory + [total];
      signalingPopulationHistory := signalingPopulationHistory + [signaling];
      reproductionPopulationHistory := reproductionPopulationHistory + [reproduction];
      conflictsPerYear := conflictsPerYear + [conflicts];
      avgMonumentHistory := avgMonumentHistory + [monument];
    }

    /** The history entry for a year: the total population, the population of each
        strategy, the year's conflicts and the mean monument of the signaling groups. */
    method UpdateHistory(conflicts: nat)
      requires Valid()
      modifies this`totalPopulationHistory, this`signalingPopulationHistory, this`reproductionPopulationHistory,
               this`conflictsPerYear, this`avgMonumentHistory
      ensures totalPopulationHistory == old(totalPopulationHistory) + [TotalPopulation(Records())]
      ensures signalingPopulationHistory == old(signalingPopulationHistory) + [StrategyPopulation(Records(), CostlySignaling)]
      ensures reproductionPopulationHistory ==
        old(reproductionPopulationHistory) + [StrategyPopulation(Records(), HighReproduction)]
      ensures conflictsPerYear == old(conflictsPerYear) + [conflicts]
      ensures avgMonumentHistory == old(avgMonumentHistory) + [MeanSignalingMonument(Records())]
      ensures Valid()
    {
      var records := Records();
      AppendHistory(TotalPopulation(records), StrategyPopulation(records, CostlySignaling),
                    StrategyPopulation(records, HighReproduction), conflicts, MeanSignalingMonument(records));
      GroupsKept();
    }

    /** Changing only the histories keeps the groups, their records and validity. */
    twostate lemma GroupsKept()
      requires old(Valid()) && Skeleton()
      requires unchanged(this`groups, this`order)
      requires forall g :: g in groups.Values ==> unchanged(g)
      ensures Valid() && Records() == old(Records())
    {
      forall id | id in groups
        ensures groups[id].State() == old(groups[id].State())
      {
        assert groups[id] in groups.Values;
      }
      assert Snapshot() == old(Snapshot());
    }

    /** The structure survives any change that leaves the simulation's own fields and
        the groups' histories and tallies alone. */
    twostate lemma StructureKept()
      requires old(Structure())
      requires unchanged(this`groups, this`order, this`totalPopulationHistory, this`signalingPopulationHistory,
                         this`reproductionPopulationHistory, this`conflictsPerYear, this`avgMonumentHistory)
      requires forall g :: g in groups.Values ==>
        unchanged(g`populationHistory, g`monumentHistory, g`conflictHistory, g`conflictsWon, g`conflictsLost)
      ensures Structure()
    {
      forall id | id in groups
        ensures groups[id].Valid()
      {
        var g := groups[id];
        assert g in groups.Values;
        assert old(g.Valid());
        assert g.populationHistory == old(g.populationHistory) && g.monumentHistory == old(g.monumentHistory);
        assert g.conflictHistory == old(g.conflictHistory);
        assert g.conflictsWon == old(g.conflictsWon) && g.conflictsLost == old(g.conflictsLost);
      }
    }

    /** The three phases of a year that change the groups: growth, sharing and
        border conflicts, in that order. The groups end as YearOutcome has it, and the
        number of conflicts is that of the pairs of bordering groups that fought. A
        division by zero in growth or in a conflict ends the year (ok is false). Once
        the groups can grow, growth and sharing make `shared` of them, and the year
        goes on as the conflict phase ConflictPhase from `shared` has it, every group in
        order meeting its neighbours in the order the scan of its territory lists them. */
    method YearPhases() returns (conflicts: nat, ok: bool, pairs: set<(int, int)>, ghost shared: map<int, GroupState>)
      requires Valid() && WellDefined(params)
      modifies groups.Values, this`draws
      ensures ok ==> Structure()
      ensures ok ==> conflicts == |pairs| && Bordering(pairs, old(Adjacency()))
      ensures ok ==> YearOutcome(params, productivity, isShortfall, old(States()), old(Adjacency()), order, pairs, States())
      ensures !Growable(params, old(States())) ==> !ok
      ensures YearSafe(params, productivity, isShortfall, old(States()), old(Adjacency()), order) ==> ok
      ensures Growable(params, old(States())) ==>
        && shared == YearShared(params, productivity, isShortfall, old(States()), old(Adjacency()), order)
        && Entered(shared)
        && Phase(States(), pairs, draws, ok)
           == ConflictPhase(params, isShortfall, random, Phase(shared, {}, old(draws), true), order, old(ListingsOf(States())))
    {
      ghost var start, adj := States(), Adjacency();
      StatesEntered();
      shared := start;
      ok := SharedStage(start);
      if !ok {
        return 0, false, {}, shared;
      }
      assert unchanged(this`groups, this`order, this`isShortfall, this`productivity, this`draws);
      shared := States();
      conflicts, ok, pairs := ConflictStage(start, adj);
      assert unchanged(this`groups, this`order, this`isShortfall, this`productivity);
    }

    /** The conflict phase of a year, after growth and sharing took start to the
        groups' states. */
    method ConflictStage(ghost start: map<int, GroupState>, ghost adj: map<int, set<int>>)
      returns (conflicts: nat, ok: bool, pairs: set<(int, int)>)
      requires Structure() && WellDefined(params) && Adjacency() == adj && start.Keys == groups.Keys
      requires forall id :: id in start ==> start[id].population != 0.0 && Capacity(params, |start[id].territory|) != 0.0
      requires forall id :: id in order ==> id in start && id in adj
      requires States() == YearShared(params, productivity, isShortfall, start, adj, order)
      modifies groups.Values, this`draws
      ensures ok ==> Structure()
      ensures ok ==> conflicts == |pairs| && Bordering(pairs, adj)
      ensures ok ==> YearOutcome(params, productivity, isShortfall, start, adj, order, pairs, States())
      ensures SafeStates(params, old(States())) ==> ok
      ensures Entered(old(States()))
      ensures Phase(States(), pairs, draws, ok)
        == ConflictPhase(params, isShortfall, random, Phase(old(States()), {}, old(draws), true), order,
                         old(ListingsOf(start)))
    {
      ghost var shared := States();
      StatesEntered();
      AdjacencyOfStates();
      SameTerritories(shared, start);
      label before:
      conflicts, ok, pairs := ResolveBorderConflicts();
      assert unchanged(this`groups, this`order, this`isShortfall, this`productivity);
      GridKept@before(shared);
      if ok {
        AdjacencyOfStates();
        SameTerritories(States(), shared);
        assert Adjacency() == adj;
        FoughtStates(start, GrowAll(params, productivity, isShortfall, start), shared, adj, pairs, conflicts);
      }
    }

    /** Growth and sharing, as YearShared of the states before them. */
    method SharedStage(ghost states: map<int, GroupState>) returns (ok: bool)
      requires Valid()
      modifies groups.Values
      ensures ListingsOf(states) == old(ListingsOf(states))
      ensures ok <==> Growable(params, old(States()))
      ensures ok ==> Structure() && Adjacency() == old(Adjacency())
      ensures ok ==> forall id :: id in old(States()) ==>
        old(States())[id].population != 0.0 && Capacity(params, |old(States())[id].territory|) != 0.0
      ensures ok ==> States() == YearShared(params, productivity, isShortfall, old(States()), old(Adjacency()), order)
    {
      ghost var start, adj := States(), Adjacency();
      AdjacencyOfStates();
      assert forall id :: id in order ==> id in start && id in adj;
      label before:
      ok := GrowStage();
      if ok {
        assert unchanged(this`groups, this`order, this`isShortfall, this`productivity);
        ShareStage(States(), adj);
      }
      GridKept@before(states);
    }

    /** The growth phase, as GrowAll of the states before it. */
    method GrowStage() returns (ok: bool)
      requires Valid()
      modifies groups.Values
      ensures ok <==> Growable(params, old(States()))
      ensures ok ==> Structure() && Adjacency() == old(Adjacency())
      ensures ok ==> forall id :: id in old(States()) ==>
        old(States())[id].population != 0.0 && Capacity(params, |old(States())[id].territory|) != 0.0
      ensures ok ==> States() == GrowAll(params, productivity, isShortfall, old(States()))
    {
      label before:
      ghost var start := States();
      ok := GrowthPhase();
      assert forall id :: id in groups ==> start[id].territory == old(groups[id].territory);
      if ok {
        GrownAll@before();
        TerritoriesKept@before();
      }
    }

    /** Groups that each grew one year hold GrowAll of their states before. */
    twostate lemma GrownAll()
      requires old(Valid()) && unchanged(this`groups, this`productivity, this`isShortfall)
      requires forall id :: id in groups ==> Capacity(params, |old(groups[id].territory)|) != 0.0
      requires forall id :: id in groups ==>
        groups[id].State() == GrowState(params, productivity, isShortfall, old(groups[id].State()))
      ensures forall id :: id in old(States()) ==>
        old(States())[id].population != 0.0 && Capacity(params, |old(States())[id].territory|) != 0.0
      ensures States() == GrowAll(params, productivity, isShortfall, old(States()))
      ensures forall id :: id in groups ==> groups[id].territory == old(groups[id].territory)
    {
      forall id | id in groups
        ensures old(groups[id].population) > 1.0
      {
        assert old(groups[id].population > 1.0);
      }
      var start := old(States());
      forall id | id in groups
        ensures States()[id] == GrowAll(params, productivity, isShortfall, start)[id]
      {
        assert start[id] == old(groups[id].State());
      }
    }

    /** Territories that did not change leave the adjacency as it was. */
    twostate lemma TerritoriesKept()
      requires unchanged(this`groups) && unchanged(territoryMap)
      requires forall id :: id in groups ==> groups[id].territory == old(groups[id].territory)
      ensures Adjacency() == old(Adjacency())
    {
    }

    /** The sharing phase, as ShareAll of the states before it. */
    method ShareStage(ghost grown: map<int, GroupState>, ghost adj: map<int, set<int>>)
      requires Structure() && States() == grown && Adjacency() == adj
      modifies groups.Values
      ensures Structure() && Adjacency() == adj
      ensures States() == ShareAll(params, isShortfall, grown, adj, order)
    {
      ResourceSharing();
      StructureKept();
      AdjacencyKept();
      SharedStates();
    }

    /** Territories that did not change leave the adjacency as it was. */
    twostate lemma AdjacencyKept()
      requires unchanged(this`groups) && unchanged(territoryMap)
      requires forall g :: g in groups.Values ==> unchanged(g`territory)
      ensures Adjacency() == old(Adjacency())
    {
      forall id | id in groups
        ensures groups[id].territory == old(groups[id].territory)
      {
        assert groups[id] in groups.Values;
      }
    }

    /** After the sharing phase the groups hold ShareAll of their states before it. */
    twostate lemma SharedStates()
      requires unchanged(this`groups, this`order, this`isShortfall) && unchanged(territoryMap)
      requires forall id :: id in order ==> id in groups
      requires forall g :: g in groups.Values ==> unchanged(g`territory, g`monumentInvestment, g`conflictsWon,
                  g`conflictsLost, g`populationHistory, g`monumentHistory, g`conflictHistory)
      requires forall id :: id in groups ==>
        groups[id].population == Sharing.ShareStep(params, isShortfall, old(Snapshot()), old(Adjacency()), order)[id].population
      ensures States() == ShareAll(params, isShortfall, old(States()), old(Adjacency()), order)
    {
      assert old(Snapshot()) == RecordsOf(old(States()));
      forall id | id in groups
        ensures States()[id] == ShareAll(params, isShortfall, old(States()), old(Adjacency()), order)[id]
      {
        var g := groups[id];
        assert g in groups.Values;
      }
    }

    /** After the conflict phase the year's outcome is complete. */
    lemma FoughtStates(start: map<int, GroupState>, grown: map<int, GroupState>, shared: map<int, GroupState>,
                       adj: map<int, set<int>>, pairs: set<(int, int)>, conflicts: nat)
      requires start.Keys == groups.Keys && adj == Adjacency()
      requires forall id :: id in order ==> id in groups
      requires forall id :: id in start ==> start[id].population != 0.0 && Capacity(params, |start[id].territory|) != 0.0
      requires grown == GrowAll(params, productivity, isShortfall, start)
      requires shared == ShareAll(params, isShortfall, grown, adj, order)
      requires PhaseDone(pairs, conflicts, shared)
      ensures conflicts == |pairs| && Bordering(pairs, adj)
      ensures YearOutcome(params, productivity, isShortfall, start, adj, order, pairs, States())
    {
    }

    /** The year advances and its shortfall state and productivity are set. */
    method Advance()
      requires WellDefined(params)
      modifies this`year, this`isShortfall, this`productivity
      ensures year == old(year) + 1
      ensures isShortfall == IsShortfallYear(year, params.shortfallFrequency, params.shortfallMagnitude)
      ensures productivity == YearProductivity(params.baseProductivity, params.shortfallMagnitude, isShortfall)
    {
      year := year + 1;
      isShortfall := IsShortfallYear(year, params.shortfallFrequency, params.shortfallMagnitude);
      productivity := YearProductivity(params.baseProductivity, params.shortfallMagnitude, isShortfall);
    }

    /** The end of a year: the groups left with one person or fewer are removed and
        the history entry for the year is added. */
    method CloseYear(conflicts: nat)
      requires Structure()
      modifies this`groups, this`order, this`totalPopulationHistory, this`signalingPopulationHistory,
               this`reproductionPopulationHistory, this`conflictsPerYear, this`avgMonumentHistory
      ensures Valid()
      ensures forall id :: id in groups <==> id in old(States()) && old(States())[id].population > 1.0
      ensures forall id :: id in groups ==> groups[id] == old(groups)[id] && groups[id].State() == old(States())[id]
      ensures order == Survivors(old(Snapshot()), old(order))
      ensures totalPopulationHistory == old(totalPopulationHistory) + [TotalPopulation(Records())]
      ensures signalingPopulationHistory == old(signalingPopulationHistory) + [StrategyPopulation(Records(), CostlySignaling)]
      ensures reproductionPopulationHistory ==
        old(reproductionPopulationHistory) + [StrategyPopulation(Records(), HighReproduction)]
      ensures conflictsPerYear == old(conflictsPerYear) + [conflicts]
      ensures avgMonumentHistory == old(avgMonumentHistory) + [MeanSignalingMonument(Records())]
    {
      RemoveExtinct();
      UpdateHistory(conflicts);
    }

    /** One year: the year advances and its shortfall state and productivity are set;
        growth, sharing and conflicts follow (the groups reach `fought`, as YearOutcome
        has it, with `pairs` the bordering pairs that fought), then the removal of the
        groups left with one person or fewer and the history entry. A division by zero
        in growth or in a conflict ends the step (ok is false). */
    method Step() returns (ok: bool, ghost pairs: set<(int, int)>, ghost fought: map<int, GroupState>,
                           ghost shared: map<int, GroupState>)
      requires Valid() && WellDefined(params)
      modifies this, groups.Values
      ensures year == old(year) + 1
      ensures isShortfall == IsShortfallYear(year, params.shortfallFrequency, params.shortfallMagnitude)
      ensures productivity == YearProductivity(params.baseProductivity, params.shortfallMagnitude, isShortfall)
      ensures ok ==> Valid()
      ensures ok ==> YearOutcome(params, productivity, isShortfall, old(States()), old(Adjacency()), old(order), pairs, fought)
      ensures ok ==> Bordering(pairs, old(Adjacency()))
      ensures ok ==> forall id :: id in groups <==> id in fought && fought[id].population > 1.0
      ensures ok ==> forall id :: id in groups ==> groups[id] == old(groups)[id] && groups[id].State() == fought[id]
      ensures ok ==> order == Survivors(RecordsOf(fought), old(order))
      ensures ok ==> totalPopulationHistory == old(totalPopulationHistory) + [TotalPopulation(Records())]
      ensures ok ==> (signalingPopulationHistory ==
                        old(signalingPopulationHistory) + [StrategyPopulation(Records(), CostlySignaling)])
      ensures ok ==> (reproductionPopulationHistory ==
                        old(reproductionPopulationHistory) + [StrategyPopulation(Records(), HighReproduction)])
      ensures ok ==> conflictsPerYear == old(conflictsPerYear) + [|pairs|]
      ensures ok ==> avgMonumentHistory == old(avgMonumentHistory) + [MeanSignalingMonument(Records())]
      ensures !Growable(params, old(States())) ==> !ok
      ensures YearSafe(params, productivity, isShortfall, old(States()), old(Adjacency()), old(order)) ==> ok
      ensures Growable(params, old(States())) ==>
        && shared == YearShared(params, productivity, isShortfall, old(States()), old(Adjacency()), old(order))
        && Entered(shared)
        && var phase := ConflictPhase(params, isShortfall, random, Phase(shared, {}, old(draws), true), old(order),
                                      old(ListingsOf(States())));
           (ok <==> phase.ok) && (ok ==> phase == Phase(fought, pairs, draws, true))
    {
      var conflicts;
      ghost var start, adj;
      ghost var live := groups;
      conflicts, ok, pairs, start, adj, fought, shared := Year();
      if !ok {
        return;
      }
      assert groups == live && fought == States();
      CloseYear(conflicts);
      assert forall id :: id in groups ==> groups[id] == live[id] && groups[id].State() == fought[id];
    }

    /** The year advances, then growth, sharing and conflicts take the groups from
        `start` to `fought`, as YearOutcome has it. */
    method Year() returns (conflicts: nat, ok: bool, pairs: set<(int, int)>, ghost start: map<int, GroupState>,
                           ghost adj: map<int, set<int>>, ghost fought: map<int, GroupState>,
                           ghost shared: map<int, GroupState>)
      requires Valid() && WellDefined(params)
      modifies this`year, this`isShortfall, this`productivity, this`draws, groups.Values
      ensures start == old(States()) && adj == old(Adjacency())
      ensures year == old(year) + 1
      ensures isShortfall == IsShortfallYear(year, params.shortfallFrequency, params.shortfallMagnitude)
      ensures productivity == YearProductivity(params.baseProductivity, params.shortfallMagnitude, isShortfall)
      ensures ok ==> Structure() && fought == States() && Snapshot() == RecordsOf(fought)
      ensures ok ==> conflicts == |pairs| && Bordering(pairs, adj)
      ensures ok ==> YearOutcome(params, productivity, isShortfall, start, adj, order, pairs, fought)
      ensures !Growable(params, start) ==> !ok
      ensures YearSafe(params, productivity, isShortfall, start, adj, order) ==> ok
      ensures Growable(params, start) ==>
        && shared == YearShared(params, productivity, isShortfall, start, adj, order)
        && Entered(shared)
        && Phase(fought, pairs, draws, ok)
           == ConflictPhase(params, isShortfall, random, Phase(shared, {}, old(draws), true), order, old(ListingsOf(States())))
    {
      label before:
      Advance();
      StatesKept@before();
      start, adj := States(), Adjacency();
      label phases:
      conflicts, ok, pairs, shared := YearPhases();
      assert unchanged@phases(this`order, this`isShortfall, this`productivity);
      fought := States();
      SnapshotOfStates();
    }

    /** Changing only the simulation's own fields leaves the groups as they were. */
    twostate lemma StatesKept()
      requires unchanged(this`groups) && unchanged(territoryMap)
      requires forall g :: g in groups.Values ==> unchanged(g)
      ensures States() == old(States()) && Adjacency() == old(Adjacency())
    {
      forall id | id in groups
        ensures groups[id].State() == old(groups[id].State())
      {
        assert groups[id] in groups.Values;
      }
    }

    /** The year t.year as a whole: from t.start, the year's growth, sharing and conflicts take
        the groups listed in t.ids to t.fought, as YearOutcome has it, the pairs that
        fought bordering; growth and sharing make t.shared of t.start, from which the
        conflict phase, drawing from the stream after its first t.draws numbers, takes
        the groups to t.fought with the pairs t.pairs; exactly the groups left with more
        than one person survive, unchanged and in their order. */
    ghost predicate YearDone(t: YearTrace)
      reads territoryMap
      requires WellDefined(params)
    {
      var shortfall := IsShortfallYear(t.year, params.shortfallFrequency, params.shortfallMagnitude);
      var productivity := YearProductivity(params.baseProductivity, params.shortfallMagnitude, shortfall);
      && YearOutcome(params, productivity, shortfall, t.start, AdjacencyOf(t.start), t.ids, t.pairs, t.fought)
      && t.shared == YearShared(params, productivity, shortfall, t.start, AdjacencyOf(t.start), t.ids)
      && Entered(t.shared)
      && ConflictPhase(params, shortfall, random, Phase(t.shared, {}, t.draws, true), t.ids, ListingsOf(t.start))
         == Phase(t.fought, t.pairs, t.drawsAfter, true)
      && Bordering(t.pairs, AdjacencyOf(t.start))
      && (forall id :: id in t.end <==> id in t.fought && t.fought[id].population > 1.0)
      && (forall id :: id in t.end ==> t.end[id] == t.fought[id])
      && t.endIds == Survivors(RecordsOf(t.fought), t.ids)
      && (forall id :: id in t.endIds ==> id in t.end)
    }

    /** Year y, from these groups in this order, cannot fail. */
    ghost predicate SafeYear(y: int, states: map<int, GroupState>, ids: seq<int>)
      reads territoryMap
      requires WellDefined(params)
    {
      var shortfall := IsShortfallYear(y, params.shortfallFrequency, params.shortfallMagnitude);
      var productivity := YearProductivity(params.baseProductivity, params.shortfallMagnitude, shortfall);
      YearSafe(params, productivity, shortfall, states, AdjacencyOf(states), ids)
    }

    /** A year whose phases took the groups as the year's schedule has them is done. */
    lemma YearDoneBy(t: YearTrace, adj: map<int, set<int>>, productivity: real, shortfall: bool)
      requires WellDefined(params)
      requires adj == AdjacencyOf(t.start)
      requires shortfall == IsShortfallYear(t.year, params.shortfallFrequency, params.shortfallMagnitude)
      requires productivity == YearProductivity(params.baseProductivity, params.shortfallMagnitude, shortfall)
      requires YearOutcome(params, productivity, shortfall, t.start, adj, t.ids, t.pairs, t.fought)
      requires t.shared == YearShared(params, productivity, shortfall, t.start, adj, t.ids) && Entered(t.shared)
      requires ConflictPhase(params, shortfall, random, Phase(t.shared, {}, t.draws, true), t.ids, ListingsOf(t.start))
        == Phase(t.fought, t.pairs, t.drawsAfter, true)
      requires Bordering(t.pairs, adj)
      requires forall id :: id in t.end <==> id in t.fought && t.fought[id].population > 1.0
      requires forall id :: id in t.end ==> t.end[id] == t.fought[id]
      requires t.endIds == Survivors(RecordsOf(t.fought), t.ids)
      requires forall id :: id in t.endIds ==> id in t.end
      ensures YearDone(t)
    {
    }

    /** A year that is not safe under the year's schedule is not a safe year. */
    lemma UnsafeYear(y: int, states: map<int, GroupState>, ids: seq<int>, adj: map<int, set<int>>,
                     productivity: real, shortfall: bool)
      requires WellDefined(params)
      requires adj == AdjacencyOf(states)
      requires shortfall == IsShortfallYear(y, params.shortfallFrequency, params.shortfallMagnitude)
      requires productivity == YearProductivity(params.baseProductivity, params.shortfallMagnitude, shortfall)
      requires !YearSafe(params, productivity, shortfall, states, adj, ids)
      ensures !SafeYear(y, states, ids)
    {
    }

    /** The years of a trace, chained from s0 in the order ids0 with d0 draws taken, are
        done in turn from year y0 + 1. */
    ghost predicate Traced(y0: int, s0: map<int, GroupState>, ids0: seq<int>, d0: nat, trace: seq<YearTrace>)
      reads territoryMap
      requires WellDefined(params)
    {
      && Chained(s0, ids0, d0, trace)
      && (forall j :: 0 <= j < |trace| ==> trace[j].year == y0 + j + 1)
      && forall j {:trigger YearDone(trace[j])} :: 0 <= j < |trace| ==> YearDone(trace[j])
    }

    /** The next year done from where a trace left the groups extends the trace. */
    lemma TracedStep(y0: int, s0: map<int, GroupState>, ids0: seq<int>, d0: nat, trace: seq<YearTrace>, t: YearTrace)
      requires WellDefined(params)
      requires Traced(y0, s0, ids0, d0, trace)
      requires t.start == LastStates(s0, trace) && t.ids == LastIds(ids0, trace) && t.draws == LastDraws(d0, trace)
      requires t.year == y0 + |trace| + 1 && YearDone(t)
      ensures Traced(y0, s0, ids0, d0, trace + [t])
      ensures LastStates(s0, trace + [t]) == t.end && LastIds(ids0, trace + [t]) == t.endIds
      ensures LastDraws(d0, trace + [t]) == t.drawsAfter
    {
      ChainedStep(s0, ids0, d0, trace, t);
      var longer := trace + [t];
      forall j | 0 <= j < |longer|
        ensures longer[j].year == y0 + j + 1 && YearDone(longer[j])
      {
        if j < |trace| {
          assert longer[j] == trace[j];
        } else {
          assert longer[j] == t;
        }
      }
    }

    /** The given number of years, one step each, stopping at a failed step. The trace
        holds one entry per completed year, chained from the groups at the start and
        each done as YearDone has it; every history gets that year's statistics. A run
        stops early only at a year that is not safe. */
    method Run(years: nat) returns (ok: bool, ghost trace: seq<YearTrace>)
      requires Valid() && WellDefined(params)
      modifies this, groups.Values
      ensures Traced(old(year), old(States()), old(order), old(draws), trace)
      ensures ok <==> |trace| == years
      ensures !ok ==> |trace| < years && year == old(year) + |trace| + 1
      ensures !ok ==> !SafeYear(year, LastStates(old(States()), trace), LastIds(old(order), trace))
      ensures ok ==> Valid() && year == old(year) + years
      ensures ok ==> States() == LastStates(old(States()), trace) && order == LastIds(old(order), trace)
      ensures ok ==> draws == LastDraws(old(draws), trace)
      ensures ok ==> Extends(old(totalPopulationHistory), totalPopulationHistory, years)
      ensures ok ==> Extends(old(signalingPopulationHistory), signalingPopulationHistory, years)
      ensures ok ==> Extends(old(reproductionPopulationHistory), reproductionPopulationHistory, years)
      ensures ok ==> Extends(old(conflictsPerYear), conflictsPerYear, years)
      ensures ok ==> Extends(old(avgMonumentHistory), avgMonumentHistory, years)
      ensures ok ==> Recorded(totalPopulationHistory, signalingPopulationHistory, reproductionPopulationHistory,
                              conflictsPerYear, avgMonumentHistory, |old(totalPopulationHistory)|, trace)
      ensures ok ==> forall id :: id in groups ==> id in old(groups) && groups[id] == old(groups)[id]
    {
      ok, trace := true, [];
      for k := 0 to years
        invariant Valid() && year == old(year) + k && |trace| == k
        invariant Traced(old(year), old(States()), old(order), old(draws), trace)
        invariant States() == LastStates(old(States()), trace) && order == LastIds(old(order), trace)
        invariant draws == LastDraws(old(draws), trace)
        invariant Extends(old(totalPopulationHistory), totalPopulationHistory, k)
        invariant Extends(old(signalingPopulationHistory), signalingPopulationHistory, k)
        invariant Extends(old(reproductionPopulationHistory), reproductionPopulationHistory, k)
        invariant Extends(old(conflictsPerYear), conflictsPerYear, k)
        invariant Extends(old(avgMonumentHistory), avgMonumentHistory, k)
        invariant Recorded(totalPopulationHistory, signalingPopulationHistory, reproductionPopulationHistory,
                           conflictsPerYear, avgMonumentHistory, |old(totalPopulationHistory)|, trace)
        invariant forall id :: id in groups ==> id in old(groups) && groups[id] == old(groups)[id]
        invariant groups.Values <= old(groups.Values)
      {
        ok, trace := RunYear(k, old(year), old(States()), old(order), old(draws), trace,
                             old(totalPopulationHistory), old(signalingPopulationHistory),
                             old(reproductionPopulationHistory), old(conflictsPerYear), old(avgMonumentHistory));
        if !ok {
          return;
        }
      }
    }

    /** One year of a run that has done k years since year y0: the step, its entry in
        the trace and the run's invariants carried to k + 1 years. A failed step leaves
        the trace as it was, at a year that is not safe. */
    method RunYear(k: nat, ghost y0: int, ghost s0: map<int, GroupState>, ghost ids0: seq<int>, ghost d0: nat,
                   ghost trace: seq<YearTrace>, ghost o1: seq<real>, ghost o2: seq<real>, ghost o3: seq<real>,
                   ghost o4: seq<int>, ghost o5: seq<real>)
      returns (ok: bool, ghost trace': seq<YearTrace>)
      requires Valid() && WellDefined(params) && year == y0 + k && |trace| == k
      requires Traced(y0, s0, ids0, d0, trace)
      requires States() == LastStates(s0, trace) && order == LastIds(ids0, trace) && draws == LastDraws(d0, trace)
      requires Extends(o1, totalPopulationHistory, k) && Extends(o2, signalingPopulationHistory, k)
      requires Extends(o3, reproductionPopulationHistory, k) && Extends(o4, conflictsPerYear, k)
      requires Extends(o5, avgMonumentHistory, k)
      requires Recorded(totalPopulationHistory, signalingPopulationHistory, reproductionPopulationHistory,
                        conflictsPerYear, avgMonumentHistory, |o1|, trace)
      modifies this, groups.Values
      ensures !ok ==> trace' == trace && year == y0 + k + 1
      ensures !ok ==> !SafeYear(year, LastStates(s0, trace), LastIds(ids0, trace))
      ensures ok ==> Valid() && year == y0 + k + 1 && |trace'| == k + 1
      ensures ok ==> Traced(y0, s0, ids0, d0, trace')
      ensures ok ==> States() == LastStates(s0, trace') && order == LastIds(ids0, trace')
      ensures ok ==> draws == LastDraws(d0, trace')
      ensures ok ==> Extends(o1, totalPopulationHistory, k + 1) && Extends(o2, signalingPopulationHistory, k + 1)
      ensures ok ==> Extends(o3, reproductionPopulationHistory, k + 1) && Extends(o4, conflictsPerYear, k + 1)
      ensures ok ==> Extends(o5, avgMonumentHistory, k + 1)
      ensures ok ==> Recorded(totalPopulationHistory, signalingPopulationHistory, reproductionPopulationHistory,
                              conflictsPerYear, avgMonumentHistory, |o1|, trace')
      ensures ok ==> forall id :: id in groups ==> id in old(groups) && groups[id] == old(groups)[id]
      ensures ok ==> groups.Values <= old(groups.Values)
    {
      ghost var h1, h2, h3, h4, h5 := totalPopulationHistory, signalingPopulationHistory,
        reproductionPopulationHistory, conflictsPerYear, avgMonumentHistory;
      assert |h1| == |h2| == |h3| == |h4| == |h5| == |o1| + k;
      ghost var s, ids, adj, d := States(), order, Adjacency(), draws;
      AdjacencyOfStates();
      ghost var pairs, fought, shared;
      ok, pairs, fought, shared := Step();
      if !ok {
        UnsafeYear(year, LastStates(s0, trace), LastIds(ids0, trace), adj, productivity, isShortfall);
        return ok, trace;
      }
      assert unchanged(territoryMap);
      assert adj == AdjacencyOf(s);
      SurvivorStates(fought);
      ghost var t := YearTrace(year, s, ids, shared, d, pairs, fought, draws, States(), order);
      YearTraced(y0, s0, ids0, d0, trace, t, adj, productivity, isShortfall);
      trace' := trace + [t];
      YearHistories(k, trace, t, o1, o2, o3, o4, o5, h1, h2, h3, h4, h5);
    }

    /** A completed year t, from the states, order and draws where the trace left the
        groups, extends the trace. */
    lemma YearTraced(y0: int, s0: map<int, GroupState>, ids0: seq<int>, d0: nat, trace: seq<YearTrace>, t: YearTrace,
                     adj: map<int, set<int>>, productivity: real, shortfall: bool)
      requires WellDefined(params) && Traced(y0, s0, ids0, d0, trace)
      requires t.start == LastStates(s0, trace) && t.ids == LastIds(ids0, trace) && t.draws == LastDraws(d0, trace)
      requires t.year == y0 + |trace| + 1
      requires adj == AdjacencyOf(t.start)
      requires shortfall == IsShortfallYear(t.year, params.shortfallFrequency, params.shortfallMagnitude)
      requires productivity == YearProductivity(params.baseProductivity, params.shortfallMagnitude, shortfall)
      requires YearOutcome(params, productivity, shortfall, t.start, adj, t.ids, t.pairs, t.fought)
      requires t.shared == YearShared(params, productivity, shortfall, t.start, adj, t.ids) && Entered(t.shared)
      requires ConflictPhase(params, shortfall, random, Phase(t.shared, {}, t.draws, true), t.ids, ListingsOf(t.start))
        == Phase(t.fought, t.pairs, t.drawsAfter, true)
      requires Bordering(t.pairs, adj)
      requires forall id :: id in t.end <==> id in t.fought && t.fought[id].population > 1.0
      requires forall id :: id in t.end ==> t.end[id] == t.fought[id]
      requires t.endIds == Survivors(RecordsOf(t.fought), t.ids)
      requires forall id :: id in t.endIds ==> id in t.end
      ensures Traced(y0, s0, ids0, d0, trace + [t])
      ensures LastStates(s0, trace + [t]) == t.end && LastIds(ids0, trace + [t]) == t.endIds
      ensures LastDraws(d0, trace + [t]) == t.drawsAfter
    {
      YearDoneBy(t, adj, productivity, shortfall);
      TracedStep(y0, s0, ids0, d0, trace, t);
    }

    /** The states of groups that hold exactly the survivors of fought, as they are there. */
    lemma SurvivorStates(fought: map<int, GroupState>)
      requires forall id :: id in groups <==> id in fought && fought[id].population > 1.0
      requires forall id :: id in groups ==> groups[id].State() == fought[id]
      ensures forall id :: id in States() <==> id in fought && fought[id].population > 1.0
      ensures forall id :: id in States() ==> States()[id] == fought[id]
    { }

    /** The statistics of a completed year t, appended to the histories h1 .. h5 of the
        years before it, extend the record. */
    lemma YearHistories(k: nat, trace: seq<YearTrace>, t: YearTrace,
                        o1: seq<real>, o2: seq<real>, o3: seq<real>, o4: seq<int>, o5: seq<real>,
                        h1: seq<real>, h2: seq<real>, h3: seq<real>, h4: seq<int>, h5: seq<real>)
      requires forall id :: id in order ==> id in groups
      requires |trace| == k && t.end == States() && t.endIds == order
      requires Extends(o1, h1, k) && Extends(o2, h2, k) && Extends(o3, h3, k) && Extends(o4, h4, k) && Extends(o5, h5, k)
      requires |h1| == |h2| == |h3| == |h4| == |h5| == |o1| + k
      requires Recorded(h1, h2, h3, h4, h5, |o1|, trace)
      requires totalPopulationHistory == h1 + [TotalPopulation(Records())]
      requires signalingPopulationHistory == h2 + [StrategyPopulation(Records(), CostlySignaling)]
      requires reproductionPopulationHistory == h3 + [StrategyPopulation(Records(), HighReproduction)]
      requires conflictsPerYear == h4 + [|t.pairs|]
      requires avgMonumentHistory == h5 + [MeanSignalingMonument(Records())]
      ensures Extends(o1, totalPopulationHistory, k + 1) && Extends(o2, signalingPopulationHistory, k + 1)
      ensures Extends(o3, reproductionPopulationHistory, k + 1) && Extends(o4, conflictsPerYear, k + 1)
      ensures Extends(o5, avgMonumentHistory, k + 1)
      ensures Recorded(totalPopulationHistory, signalingPopulationHistory, reproductionPopulationHistory,
                       conflictsPerYear, avgMonumentHistory, |o1|, trace + [t])
    {
      SnapshotOfStates();
      ExtendsStep(o1, h1, totalPopulationHistory, k);
      ExtendsStep(o2, h2, signalingPopulationHistory, k);
      ExtendsStep(o3, h3, reproductionPopulationHistory, k);
      ExtendsStep(o4, h4, conflictsPerYear, k);
      ExtendsStep(o5, h5, avgMonumentHistory, k);
      RecordedStep(h1, h2, h3, h4, h5, |o1|, trace, t, StatsOf(t));
    }

    /** The summary statistics: the year, the last total population (0 before any
        step), the number of live groups, the sum of the yearly conflicts and, per
        strategy, the number of groups, their population and mean territory size. */
    function SummaryStatistics(): (s: Summary)
      reads this`groups, this`order, this`year, this`totalPopulationHistory, this`conflictsPerYear, groups.Values
      requires forall id :: id in order ==> id in groups
      ensures s.finalYear == year && s.groupsRemaining == |groups|
      ensures |totalPopulationHistory| == 0 ==> s.totalPopulation == 0.0
      ensures s.signalingGroups + s.reproductionGroups == |order|
      ensures s.signalingPopulation + s.reproductionPopulation == TotalPopulation(Records())
      ensures s.signalingAvgTerritory >= 0.0 && s.reproductionAvgTerritory >= 0.0
    {
      var rs := Records();
      CountSplitsByStrategy(rs);
      TotalSplitsByStrategy(rs);
      Summary(
        year,
        if |totalPopulationHistory| > 0 then totalPopulationHistory[|totalPopulationHistory| - 1] else 0.0,
        |groups|,
        SumInts(conflictsPerYear),
        StrategyCount(rs, CostlySignaling),
        StrategyPopulation(rs, CostlySignaling),
        MeanTerritory(rs, CostlySignaling),
        StrategyCount(rs, HighReproduction),
        StrategyPopulation(rs, HighReproduction),
        MeanTerritory(rs, HighReproduction))
    }

    /** Every live group has one of the two strategies. */
    lemma SummaryCountsSplit()
      requires Skeleton()
      ensures var s := SummaryStatistics();
        s.signalingGroups + s.reproductionGroups == s.groupsRemaining
    {
      Sharing.DistinctCard(order);
      forall x
        ensures x in (set y | y in order) <==> x in groups.Keys
      {
        assert x in order <==> x in groups;
      }
      assert (set x | x in order) == groups.Keys;
    }

    /** Right after a step the reported total is the sum of the two strategies'
        populations. */
    lemma SummaryPopulationSplits()
      requires Skeleton()
      requires |totalPopulationHistory| > 0 && totalPopulationHistory[|totalPopulationHistory| - 1] == TotalPopulation(Records())
      ensures var s := SummaryStatistics();
        s.totalPopulation == s.signalingPopulation + s.reproductionPopulation
    {
    }
  }
}
