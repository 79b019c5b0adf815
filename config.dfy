/**
 * The configuration of one spatial simulation: the two group strategies and the
 * keyword parameters of the SpatialSimulation constructor, with their default values.
 */
module Config {

  /** The two group-level strategies; a group keeps its strategy for life. */
  datatype Strategy = CostlySignaling | HighReproduction

  /** A value that may be absent (Python's None). */
  datatype Option<T> = None | Some(value: T)

  /** The options the simulation is constructed with (the seed is modelled as the
      random stream handed to the constructor, see Simulation.SpatialSimulation). */
  datatype Params = Params(
    width: int,
    height: int,
    nGroups: int,
    baseProductivity: real,
    shortfallFrequency: int,
    shortfallMagnitude: real,
    monumentCost: real,
    reproductionBonus: real,
    conflictMortality: real,
    signalingConflictReduction: real,
    carryingCapacityPerCell: real,
    // accepted and stored by the constructor, but read by no operation
    shortfallConflictMultiplier: real,
    cooperationSharingRate: real,
    monumentBufferFactor: real)

  /** The constructor's default arguments. */
  function DefaultParams(): (p: Params)
    ensures WellDefined(p)
  {
    Params(50, 50, 20, 1.0, 10, 0.5, 0.3, 0.5, 0.2, 0.7, 10.0, 2.5, 0.15, 0.1)
  }

  /** What a simulation step needs of its parameters so that no division by zero occurs:
      a non-zero shortfall frequency (the modulo of the shortfall test), a positive
      per-cell capacity (divisor of the logistic term), and the documented ranges of the
      shortfall magnitude (a proportion) and of the conflict-reduction coefficient r,
      which keep the deterrence divisors of the conflict probability non-zero. */
  predicate WellDefined(p: Params)
  {
    && p.shortfallFrequency != 0
    && p.carryingCapacityPerCell > 0.0
    && 0.0 <= p.shortfallMagnitude <= 1.0
    && p.signalingConflictReduction >= 0.0
  }

  function Min(a: real, b: real): real
  {
    if a <= b then a else b
  }

  function Max(a: real, b: real): real
  {
    if a >= b then a else b
  }
}
