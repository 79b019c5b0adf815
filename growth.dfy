/**
 * Growth and production of one group in one year: monument investment for the
 * signaling strategy, the shortfall buffer bonus and vulnerability penalty, and
 * logistic growth scaled by resource availability and clamped to capacity.
 */
module Growth {
  import opened Config
  import RealFacts

  /** Carrying capacity of a territory: cells times capacity per cell. */
  function Capacity(p: Params, territorySize: nat): real
  {
    territorySize as real * p.carryingCapacityPerCell
  }

  /** Resources produced by a territory in a year. */
  function AvailableResources(territorySize: nat, productivity: real): real
  {
    territorySize as real * productivity
  }

  /** 5% a year for signaling groups, raised by the reproduction bonus otherwise. */
  function BaseGrowthRate(p: Params, s: Strategy): (rate: real)
    ensures s == CostlySignaling ==> rate == 0.05
    ensures s == HighReproduction && p.reproductionBonus >= 0.0 ==> rate >= 0.05
  {
    if s == CostlySignaling then 0.05 else 0.05 * (1.0 + p.reproductionBonus)
  }

  /** Shortfall buffer of a signaling group: grows with monument per capita and with
      the shortfall magnitude, and is capped at 40%. */
  function BufferBonus(p: Params, monument: real, population: real): (bonus: real)
    requires population != 0.0
    ensures bonus <= 0.4
    ensures (monument >= 0.0 && population > 0.0 && p.monumentBufferFactor >= 0.0
             && p.shortfallMagnitude >= 0.0) ==> bonus >= 0.0
  {
    var bufferScale := 0.25 + p.shortfallMagnitude * 2.0;
    var raw := monument / (population * 100.0) * p.monumentBufferFactor * bufferScale;
    assert (monument >= 0.0 && population > 0.0 && p.monumentBufferFactor >= 0.0
            && p.shortfallMagnitude >= 0.0) ==> raw >= 0.0 by {
      if monument >= 0.0 && population > 0.0 && p.monumentBufferFactor >= 0.0 && p.shortfallMagnitude >= 0.0 {
        assert monument / (population * 100.0) >= 0.0;
        assert bufferScale > 0.0;
      }
    }
    Min(0.4, raw)
  }

  /** Shortfall penalty of a reproduction group: grows with its fill of capacity and is
      capped at 30%. */
  function VulnerabilityPenalty(population: real, capacity: real): (penalty: real)
    requires capacity != 0.0
    ensures penalty <= 0.3
    ensures population >= 0.0 && capacity > 0.0 ==> penalty >= 0.0
  {
    Min(0.3, population / capacity * 0.2)
  }

  /** The fraction of the logistic growth that the resources can fund, at most 1. */
  function ResourceFactor(resources: real, population: real): (factor: real)
    requires population != 0.0
    ensures factor <= 1.0
    ensures resources >= 0.0 && population > 0.0 ==> factor >= 0.0
  {
    Min(1.0, resources / (population * 0.5))
  }

  /** Monument investment after a year: signaling groups add the monument-cost share of
      their resources, reproduction groups keep what they have. */
  function InvestedMonument(p: Params, s: Strategy, territorySize: nat, monument: real, productivity: real): real
  {
    if s == CostlySignaling then monument + AvailableResources(territorySize, productivity) * p.monumentCost
    else monument
  }

  /** The resources that fund growth; `monument` is the investment after this year's addition. */
  function ResourcesForGrowth(p: Params, s: Strategy, territorySize: nat, population: real,
                              monument: real, productivity: real, shortfall: bool): real
    requires population != 0.0 && Capacity(p, territorySize) != 0.0
  {
    var available := AvailableResources(territorySize, productivity);
    if s == CostlySignaling then
      var funded := available * (1.0 - p.monumentCost);
      if shortfall then funded * (1.0 + BufferBonus(p, monument, population)) else funded
    else
      if shortfall then available * (1.0 - VulnerabilityPenalty(population, Capacity(p, territorySize)))
      else available
  }

  /** Logistic growth toward capacity. */
  function LogisticGrowth(rate: real, population: real, capacity: real): real
    requires capacity != 0.0
  {
    rate * population * (1.0 - population / capacity)
  }

  datatype GrowthResult = GrowthResult(population: real, monument: real)

  /** One year of growth and monument investment for a group. */
  function Grow(p: Params, s: Strategy, territorySize: nat, population: real, monument: real,
                productivity: real, shortfall: bool): (r: GrowthResult)
    requires population != 0.0 && Capacity(p, territorySize) != 0.0
    ensures r.population <= Capacity(p, territorySize)
    ensures s == HighReproduction ==> r.monument == monument
  {
    var capacity := Capacity(p, territorySize);
    var invested := InvestedMonument(p, s, territorySize, monument, productivity);
    var resources := ResourcesForGrowth(p, s, territorySize, population, invested, productivity, shortfall);
    var growth := LogisticGrowth(BaseGrowthRate(p, s), population, capacity) * ResourceFactor(resources, population);
    GrowthResult(Min(population + growth, capacity), invested)
  }

  /** A signaling group's monument grows by exactly its territory size times productivity
      times the monument cost, so it never decreases while productivity and cost are
      non-negative; a reproduction group's monument never changes. */
  lemma MonumentAccumulates(p: Params, s: Strategy, territorySize: nat, population: real, monument: real,
                            productivity: real, shortfall: bool)
    requires population != 0.0 && Capacity(p, territorySize) != 0.0
    ensures var r := Grow(p, s, territorySize, population, monument, productivity, shortfall);
      && (s == CostlySignaling ==> r.monument == monument + territorySize as real * productivity * p.monumentCost)
      && (s == HighReproduction ==> r.monument == monument)
      && (productivity >= 0.0 && p.monumentCost >= 0.0 ==> r.monument >= monument)
  {
    var r := Grow(p, s, territorySize, population, monument, productivity, shortfall);
    if s == CostlySignaling && productivity >= 0.0 && p.monumentCost >= 0.0 {
      assert territorySize as real * productivity >= 0.0;
      assert territorySize as real * productivity * p.monumentCost >= 0.0;
    }
  }

  /** Under the documented parameter ranges the resources for growth are never negative. */
  lemma ResourcesNonNegative(p: Params, s: Strategy, territorySize: nat, population: real,
                             monument: real, productivity: real, shortfall: bool)
    requires population > 0.0 && Capacity(p, territorySize) > 0.0
    requires productivity >= 0.0 && 0.0 <= p.monumentCost <= 1.0 && monument >= 0.0
    requires p.monumentBufferFactor >= 0.0 && p.shortfallMagnitude >= 0.0
    ensures ResourcesForGrowth(p, s, territorySize, population, monument, productivity, shortfall) >= 0.0
  {
    var available := AvailableResources(territorySize, productivity);
    assert available >= 0.0;
    if s == CostlySignaling {
      var funded := available * (1.0 - p.monumentCost);
      assert funded >= 0.0;
      if shortfall {
        var bonus := BufferBonus(p, monument, population);
        assert funded * (1.0 + bonus) >= 0.0;
      }
    } else if shortfall {
      var penalty := VulnerabilityPenalty(population, Capacity(p, territorySize));
      assert 1.0 - penalty >= 0.7;
      assert available * (1.0 - penalty) >= 0.0;
    }
  }

  /** A population at or below capacity fills at most all of it. */
  lemma FillAtMostOne(population: real, capacity: real)
    requires 0.0 < population <= capacity
    ensures population / capacity <= 1.0
  {
    var q := population / capacity;
    assert q * capacity == population;
    assert (q - 1.0) * capacity <= 0.0;
  }

  /** A group at or below its capacity never shrinks through growth: it ends between its
      old population and its capacity (documented parameter ranges assumed). */
  lemma GrowthBelowCapacity(p: Params, s: Strategy, territorySize: nat, population: real, monument: real,
                            productivity: real, shortfall: bool)
    requires 0.0 < population <= Capacity(p, territorySize)
    requires productivity >= 0.0 && 0.0 <= p.monumentCost <= 1.0 && monument >= 0.0
    requires p.monumentBufferFactor >= 0.0 && p.shortfallMagnitude >= 0.0 && p.reproductionBonus >= -1.0
    ensures population <= Grow(p, s, territorySize, population, monument, productivity, shortfall).population
  {
    var capacity := Capacity(p, territorySize);
    var invested := InvestedMonument(p, s, territorySize, monument, productivity);
    MonumentAccumulates(p, s, territorySize, population, monument, productivity, shortfall);
    assert invested >= monument;
    ResourcesNonNegative(p, s, territorySize, population, invested, productivity, shortfall);
    var resources := ResourcesForGrowth(p, s, territorySize, population, invested, productivity, shortfall);
    var rate := BaseGrowthRate(p, s);
    assert rate >= 0.0;
    assert capacity > 0.0;
    FillAtMostOne(population, capacity);
    var room := 1.0 - population / capacity;
    RealFacts.ScaleMonotone(0.0, rate, population);
    var weighted := rate * population;
    RealFacts.ScaleMonotone(0.0, weighted, room);
    var logistic := LogisticGrowth(rate, population, capacity);
    assert logistic >= 0.0;
    var factor := ResourceFactor(resources, population);
    RealFacts.ScaleMonotone(0.0, logistic, factor);
    assert logistic * factor >= 0.0;
  }
}
