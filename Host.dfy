/**
 * The particle host (SPlisHSPlasH's FluidModel) as seen by the rigid-body
 * kernel: per-particle position, velocity, mass and state arrays, of which
 * the first numActive entries are the active particles.
 */
module Host {
  import opened Vectors

  /**
   * The particle classification tag. Only RigidBody is used by the kernel;
   * the host's other tags are represented by Other.
   */
  datatype ParticleState = RigidBody | Other(tag: nat)

  class FluidModel {
    const position: array<Vec3>
    const velocity: array<Vec3>
    const mass: array<real>
    const state: array<ParticleState>
    var numActive: nat

    ghost predicate Valid()
      reads this
    {
      position != velocity &&
      numActive <= position.Length && numActive <= velocity.Length &&
      numActive <= mass.Length && numActive <= state.Length
    }

    /** Every active particle has strictly positive mass. */
    ghost predicate PositiveMasses()
      reads this, mass
    {
      forall i :: 0 <= i < numActive && i < mass.Length ==> mass[i] > 0.0
    }

    constructor (position: array<Vec3>, velocity: array<Vec3>, mass: array<real>,
                 state: array<ParticleState>, numActive: nat)
      requires position != velocity
      requires numActive <= position.Length && numActive <= velocity.Length
      requires numActive <= mass.Length && numActive <= state.Length
      ensures Valid()
      ensures this.position == position && this.velocity == velocity
      ensures this.mass == mass && this.state == state && this.numActive == numActive
    {
      this.position := position;
      this.velocity := velocity;
      this.mass := mass;
      this.state := state;
      this.numActive := numActive;
    }
  }
}
