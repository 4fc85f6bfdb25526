/** The fixed configuration of the banner animation. */
module Settings {
  const NumParticles: nat := 120
  const AccentProbability: real := 0.4
  const JitterMagnitudeX: real := 0.020
  const JitterMagnitudeY: real := 0.015
  const MinParticleSize: real := 1.0
  const MaxParticleSize: real := 5.0

  const InteractionRadius: real := 120.0
  const BaseSpeed: real := 0.15
  const Damping: real := 0.995
  const MinSeparationDistance: real := 0.0
  const SeparationThresholdSq: real := MinSeparationDistance * MinSeparationDistance

  const MaxLineDistance: real := 150.0
  const MaxLineDistanceSq: real := MaxLineDistance * MaxLineDistance

  /** Side of a square grid cell: the maximum line distance. */
  const GridCellSize: real := MaxLineDistance

  /** Squared distance to the mouse at or below which no mouse force is applied. */
  const MinDistForMouseCalcSq: real := 3.0 * 3.0
  /** Squared distance between two particles at or below which no pair force is applied. */
  const MinDistForPairCalcSq: real := 0.01
  /** Lines whose opacity is at or below this are not drawn. */
  const MinLineOpacity: real := 0.05
  const MaxSpeed: real := BaseSpeed * 5.0

  /** Both mouse coordinates are parked here while the pointer is away from the banner. */
  const MouseSentinel: real := -InteractionRadius * 5.0
}
