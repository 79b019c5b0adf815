/**
 * Border conflicts between two neighbouring groups: the probability that a conflict
 * breaks out, and how a conflict is decided and what it costs each side.
 */
module Conflict {
  import opened Config
  import opened RealFacts

  /** 5% in good years; in shortfall years it rises with the magnitude. */
  function BaseProbability(p: Params, shortfall: bool): (base: real)
    ensures !shortfall ==> base == 0.05
    ensures shortfall && p.shortfallMagnitude >= 0.0 ==> base >= 0.05
  {
    if shortfall then 0.05 + p.shortfallMagnitude * 0.30 else 0.05
  }

  /** The pair's mean per-capita monument investment; populations below 1 count as 1. */
  function AverageMonument(monument1: real, population1: real, monument2: real, population2: real): (avg: real)
    ensures monument1 >= 0.0 && monument2 >= 0.0 ==> avg >= 0.0
  {
    (monument1 / Max(1.0, population1) + monument2 / Max(1.0, population2)) / 2.0
  }

  /** The conflict-reduction coefficient r relative to its baseline 0.75. */
  function RScale(p: Params): (rs: real)
    ensures p.signalingConflictReduction == 0.75 ==> rs == 1.0
    ensures rs == 0.0 <==> p.signalingConflictReduction == 0.0
    ensures rs > 0.0 <==> p.signalingConflictReduction > 0.0
  {
    p.signalingConflictReduction / 0.75
  }

  /** Monuments deter much more strongly in shortfall years, and more so the more severe. */
  function DeterrenceDivisor(p: Params, shortfall: bool): (d: real)
    ensures WellDefined(p) ==> d >= 3.0
  {
    if shortfall then 3.0 + (1.0 - p.shortfallMagnitude) * 20.0 else 40.0
  }

  /** The deterrence factor of the pair's monuments: 1 without monuments, shrinking as
      the average per-capita investment grows. */
  function MonumentFactor(p: Params, shortfall: bool, avg: real): (factor: real)
    requires WellDefined(p)
    ensures 0.0 < factor <= 1.0
    ensures avg <= 0.0 ==> factor == 1.0
  {
    if avg > 0.0 then
      var deterrence := avg / DeterrenceDivisor(p, shortfall) * RScale(p);
      assert deterrence >= 0.0;
      1.0 / (1.0 + deterrence)
    else 1.0
  }

  /** Reproduction-strategy groups are more aggressive in shortfall years. */
  function AggressionFactor(p: Params, shortfall: bool, s1: Strategy, s2: Strategy): (factor: real)
    ensures factor != 1.0 ==> shortfall && (s1 == HighReproduction || s2 == HighReproduction)
    ensures WellDefined(p) ==> 1.0 <= factor <= 2.5
  {
    if (s1 == HighReproduction || s2 == HighReproduction) && shortfall then 1.0 + p.shortfallMagnitude * 1.5
    else 1.0
  }

  /** The probability as a function of the pair's average per-capita monument investment. */
  function ProbabilityFromAverage(p: Params, shortfall: bool, s1: Strategy, s2: Strategy, avg: real): (prob: real)
    requires WellDefined(p)
    ensures 0.0 < prob <= 0.5
  {
    Capped(BaseProbability(p, shortfall), MonumentFactor(p, shortfall, avg), AggressionFactor(p, shortfall, s1, s2))
  }

  /** The product of the three factors, capped at one half. */
  function Capped(base: real, monumentFactor: real, aggression: real): (prob: real)
    ensures base > 0.0 && monumentFactor > 0.0 && aggression > 0.0 ==> 0.0 < prob <= 0.5
  {
    var raw := base * monumentFactor * aggression;
    assert base > 0.0 && monumentFactor > 0.0 && aggression > 0.0 ==> raw > 0.0 by {
      ScaleStrict(0.0, base, monumentFactor);
      ScaleStrict(0.0, base * monumentFactor, aggression);
    }
    Min(0.5, raw)
  }

  /** The capped product is monotone in each non-negative factor. */
  lemma CappedMonotone(base: real, base': real, factor: real, factor': real, aggression: real, aggression': real)
    requires 0.0 <= base <= base' && 0.0 <= factor <= factor' && 0.0 <= aggression <= aggression'
    ensures Capped(base, factor, aggression) <= Capped(base', factor', aggression')
  {
    ScaleMonotone(base, base', factor);
    ScaleMonotone(factor, factor', base');
    var bf, bf' := base * factor, base' * factor';
    assert bf <= bf';
    ScaleMonotone(0.0, base', factor');
    ScaleMonotone(bf, bf', aggression);
    ScaleMonotone(aggression, aggression', bf');
    assert bf * aggression <= bf' * aggression';
  }

  /** The probability that two neighbouring groups fight this year, capped at 50%. */
  function Probability(p: Params, shortfall: bool, s1: Strategy, population1: real, monument1: real,
                       s2: Strategy, population2: real, monument2: real): (prob: real)
    requires WellDefined(p)
    ensures 0.0 < prob <= 0.5
  {
    ProbabilityFromAverage(p, shortfall, s1, s2, AverageMonument(monument1, population1, monument2, population2))
  }

  /** The deterrence factor never grows with the average monument investment. */
  lemma MonumentFactorAntitone(p: Params, shortfall: bool, avg: real, avg': real)
    requires WellDefined(p) && avg <= avg'
    ensures MonumentFactor(p, shortfall, avg') <= MonumentFactor(p, shortfall, avg)
  {
    if avg' > 0.0 {
      var d, rs := DeterrenceDivisor(p, shortfall), RScale(p);
      var x' := avg' / d * rs;
      var x := if avg > 0.0 then avg / d * rs else 0.0;
      DivideMonotone(avg, avg', d);
      ScaleMonotone(avg / d, avg' / d, rs);
      ScaleMonotone(0.0, avg' / d, rs);
      ReciprocalAntitone(x, x');
    }
  }

  /** A larger average monument investment never makes a conflict more likely. */
  lemma MonumentsDeter(p: Params, shortfall: bool, s1: Strategy, s2: Strategy, avg: real, avg': real)
    requires WellDefined(p) && avg <= avg'
    ensures ProbabilityFromAverage(p, shortfall, s1, s2, avg') <= ProbabilityFromAverage(p, shortfall, s1, s2, avg)
  {
    MonumentFactorAntitone(p, shortfall, avg, avg');
    var b, a := BaseProbability(p, shortfall), AggressionFactor(p, shortfall, s1, s2);
    CappedMonotone(b, b, MonumentFactor(p, shortfall, avg'), MonumentFactor(p, shortfall, avg), a, a);
  }

  /** In a good year conflicts break out with probability at most 5%, exactly 5% when
      neither party has monuments, whatever the strategies. */
  lemma GoodYearProbability(p: Params, s1: Strategy, s2: Strategy, avg: real)
    requires WellDefined(p)
    ensures ProbabilityFromAverage(p, false, s1, s2, avg) <= 0.05
    ensures avg <= 0.0 ==> ProbabilityFromAverage(p, false, s1, s2, avg) == 0.05
  {
  }

  /** Without monuments the probability never falls as the shortfall deepens. */
  lemma NoMonumentsMonotoneInMagnitude(p: Params, magnitude': real, s1: Strategy, s2: Strategy, avg: real)
    requires WellDefined(p) && p.shortfallMagnitude <= magnitude' <= 1.0 && avg <= 0.0
    ensures var p' := p.(shortfallMagnitude := magnitude');
      ProbabilityFromAverage(p, true, s1, s2, avg) <= ProbabilityFromAverage(p', true, s1, s2, avg)
  {
    var p' := p.(shortfallMagnitude := magnitude');
    var a, a' := AggressionFactor(p, true, s1, s2), AggressionFactor(p', true, s1, s2);
    var b, b' := BaseProbability(p, true), BaseProbability(p', true);
    assert MonumentFactor(p, true, avg) == 1.0 && MonumentFactor(p', true, avg) == 1.0;
    CappedMonotone(b, b', 1.0, 1.0, a, a');
  }

  /** With monuments the probability is not monotone in the shortfall magnitude: two
      signaling groups with average per-capita investment 3 and r = 0.75 fight with
      probability 0.2 at magnitude 0.9 but 0.175 at magnitude 1.0, because the deterrence
      divisor shrinks faster than the base probability grows. */
  lemma MagnitudeCanLowerProbability()
    ensures var p := DefaultParams().(signalingConflictReduction := 0.75, shortfallMagnitude := 0.9);
      var p' := p.(shortfallMagnitude := 1.0);
      && ProbabilityFromAverage(p, true, CostlySignaling, CostlySignaling, 3.0) == 0.2
      && ProbabilityFromAverage(p', true, CostlySignaling, CostlySignaling, 3.0) == 0.175
  {
  }

  /** The defensive bonus of monuments: strong in shortfall years, 5% of that otherwise. */
  function MonumentBonus(p: Params, shortfall: bool, monument: real, population: real): (bonus: real)
    requires population + 1.0 != 0.0
    ensures monument == 0.0 || p.signalingConflictReduction == 0.0 ==> bonus == 0.0
    ensures monument >= 0.0 && population >= 0.0 && p.signalingConflictReduction >= 0.0 ==> bonus >= 0.0
  {
    var q, rs := monument / (population + 1.0), RScale(p);
    assert monument >= 0.0 && population >= 0.0 && p.signalingConflictReduction >= 0.0 ==> q * rs >= 0.0 by {
      if monument >= 0.0 && population >= 0.0 && p.signalingConflictReduction >= 0.0 {
        ScaleMonotone(0.0, q, rs);
      }
    }
    if shortfall then q * rs
    else q * 0.05 * rs
  }

  /** Outside shortfall years the bonus is 5% of the shortfall-year bonus. */
  lemma GoodYearBonus(p: Params, monument: real, population: real)
    requires population + 1.0 != 0.0
    ensures MonumentBonus(p, false, monument, population) == 0.05 * MonumentBonus(p, true, monument, population)
  {
    var q, rs := monument / (population + 1.0), RScale(p);
    assert q * 0.05 * rs == 0.05 * (q * rs);
  }

  /** Fighting strength: population raised by the monument bonus. */
  function Strength(p: Params, shortfall: bool, monument: real, population: real): (strength: real)
    requires population + 1.0 != 0.0
    ensures monument == 0.0 ==> strength == population
    ensures monument >= 0.0 && population >= 0.0 && p.signalingConflictReduction >= 0.0 ==> strength >= population
  {
    var bonus := MonumentBonus(p, shortfall, monument, population);
    assert monument >= 0.0 && population >= 0.0 && p.signalingConflictReduction >= 0.0 ==> population * (1.0 + bonus) >= population by {
      if monument >= 0.0 && population >= 0.0 && p.signalingConflictReduction >= 0.0 {
        ScaleMonotone(1.0, 1.0 + bonus, population);
      }
    }
    population * (1.0 + bonus)
  }

  /** The probability that the first group wins. */
  function WinProbability(strength1: real, strength2: real): (w: real)
    requires strength1 + strength2 != 0.0
    ensures strength1 >= 0.0 && strength2 >= 0.0 ==> 0.0 <= w <= 1.0
    ensures strength1 + strength2 > 0.0 ==> (w >= 0.5 <==> strength1 >= strength2)
  {
    var w := strength1 / (strength1 + strength2);
    assert w * (strength1 + strength2) == strength1;
    w
  }

  /** Conflicts are half again as deadly in shortfall years. */
  function MortalityMultiplier(shortfall: bool): (m: real)
    ensures 1.0 <= m <= 1.5
    ensures m > 1.0 <==> shortfall
  {
    if shortfall then 1.5 else 1.0
  }

  /** The factor a winner's population is multiplied by. */
  function WinnerSurvival(p: Params, shortfall: bool): (w: real)
    ensures MortalityInRange(p) ==> 0.5 <= w <= 1.0
    ensures w == 1.0 <==> p.conflictMortality == 0.0
  {
    1.0 - p.conflictMortality * 0.5 * MortalityMultiplier(shortfall)
  }

  /** The factor a loser's population is multiplied by. */
  function LoserSurvival(p: Params, shortfall: bool): (l: real)
    ensures 1.0 - l == 2.0 * (1.0 - WinnerSurvival(p, shortfall))
    ensures MortalityInRange(p) ==> 0.0 <= l <= 1.0
  {
    1.0 - p.conflictMortality * MortalityMultiplier(shortfall)
  }

  /** With mortality in its documented range, conflicts never raise and never negate a
      population, and the loser always fares at least as badly as the winner. */
  lemma SurvivalBounds(p: Params, shortfall: bool)
    requires 0.0 <= p.conflictMortality && p.conflictMortality * 1.5 <= 1.0
    ensures 0.0 <= LoserSurvival(p, shortfall) <= WinnerSurvival(p, shortfall) <= 1.0
    ensures shortfall ==> LoserSurvival(p, true) <= LoserSurvival(p, false)
  {
  }

  /** Of two equally populous groups, the one with more monument investment is at least
      as strong (non-negative r and populations). */
  lemma MonumentsStrengthen(p: Params, shortfall: bool, population: real, monument1: real, monument2: real)
    requires population >= 0.0 && monument2 <= monument1 && p.signalingConflictReduction >= 0.0
    ensures Strength(p, shortfall, monument2, population) <= Strength(p, shortfall, monument1, population)
  {
    var b1, b2 := MonumentBonus(p, shortfall, monument1, population), MonumentBonus(p, shortfall, monument2, population);
    BonusMonotone(p, shortfall, population, monument1, monument2);
    ScaleMonotone(1.0 + b2, 1.0 + b1, population);
  }

  /** The monument bonus grows with the monument investment (non-negative r and
      population). */
  lemma BonusMonotone(p: Params, shortfall: bool, population: real, monument1: real, monument2: real)
    requires population >= 0.0 && monument2 <= monument1 && p.signalingConflictReduction >= 0.0
    ensures MonumentBonus(p, shortfall, monument2, population) <= MonumentBonus(p, shortfall, monument1, population)
  {
    var q1, q2, rs := monument1 / (population + 1.0), monument2 / (population + 1.0), RScale(p);
    DivideMonotone(monument2, monument1, population + 1.0);
    ScaleMonotone(q2, q1, rs);
    if !shortfall {
      GoodYearBonus(p, monument1, population);
      GoodYearBonus(p, monument2, population);
      ScaleMonotone(q2 * rs, q1 * rs, 0.05);
    }
  }

  /** Conflict mortality in its documented range: no conflict raises or negates a
      population. */
  predicate MortalityInRange(p: Params)
  {
    0.0 <= p.conflictMortality && p.conflictMortality * 1.5 <= 1.0
  }

  /** Below the top of that range no conflict wipes a group out. */
  predicate MortalityBelowOne(p: Params)
  {
    0.0 <= p.conflictMortality && p.conflictMortality * 1.5 < 1.0
  }

  /** Below the top of the range both sides keep a positive share of their population. */
  lemma SurvivalPositive(p: Params, shortfall: bool)
    requires MortalityBelowOne(p)
    ensures 0.0 < LoserSurvival(p, shortfall) <= WinnerSurvival(p, shortfall) <= 1.0
  {
  }

  /** A populated group without negative monuments has positive strength, so two such
      groups can always fight (the strengths' sum is no divisor of zero). */
  lemma StrengthPositive(p: Params, shortfall: bool, monument: real, population: real)
    requires population > 0.0 && monument >= 0.0 && p.signalingConflictReduction >= 0.0
    ensures Strength(p, shortfall, monument, population) > 0.0
  {
    var rs := RScale(p);
    assert rs >= 0.0;
    var q := monument / (population + 1.0);
    assert q >= 0.0;
    var bonus := MonumentBonus(p, shortfall, monument, population);
    assert bonus >= 0.0 by {
      if shortfall {
        ScaleMonotone(0.0, q, rs);
      } else {
        ScaleMonotone(0.0, q, 0.05);
        ScaleMonotone(0.0, q * 0.05, rs);
      }
    }
    ScaleStrict(0.0, population, 1.0 + bonus);
    assert population * (1.0 + bonus) > 0.0;
  }

  /** A fought conflict is recorded as the sorted pair of the two ids. */
  function Pair(a: int, b: int): (pr: (int, int))
    requires a != b
    ensures pr.0 < pr.1
    ensures (pr.0 == a && pr.1 == b) || (pr.0 == b && pr.1 == a)
  {
    if a < b then (a, b) else (b, a)
  }

  /** The conflicts among pairs that the group id took part in. */
  function Involving(pairs: set<(int, int)>, id: int): set<(int, int)>
  {
    set pr | pr in pairs && (pr.0 == id || pr.1 == id)
  }

  /** A new conflict adds one to the count of each of its two parties and none to any
      other group. */
  lemma InvolvingAdd(pairs: set<(int, int)>, pr: (int, int), id: int)
    requires pr !in pairs
    ensures |Involving(pairs + {pr}, id)| == |Involving(pairs, id)| + (if pr.0 == id || pr.1 == id then 1 else 0)
  {
    if pr.0 == id || pr.1 == id {
      assert Involving(pairs + {pr}, id) == Involving(pairs, id) + {pr};
    } else {
      assert Involving(pairs + {pr}, id) == Involving(pairs, id);
    }
  }
}
