# Rigid-cluster shape matching (SPlisHSPlasH `RigidBody` force module)

This project models the per-tick pipeline of SPlisHSPlasH's `RigidBody`
force module and proves properties of it. Each call of `step` moves a cluster of
particles as one rigid body. On the first call it marks every active particle
`RigidBody` and records the reference shape: the mass-weighted barycenter,
the total mass and each particle's radius vector (its offset from the
barycenter). Every call then runs two passes. First, a penalty contact force
pushes up any particle below the plane y = 0, with stiffness 100. Second,
shape matching runs: one semi-implicit Euler step under gravity plus the
penalty force; then every rigid particle is placed at `c + R·radius_vector[i]`,
where `c` is the unweighted centroid and `R` is the identity; then its velocity
is rebuilt from its displacement.

Vectors are triples of exact reals. The files are:

- `Vectors.dfy` holds Eigen's `Vector3r`.
- `Host.dfy` holds the particle host (`FluidModel`). It has position, velocity,
  mass and state arrays, and its first `numActive` entries are the active particles.
- `Cluster.dfy` holds the pipeline as values. `Cluster.State` combines the active
  particles with the module's scratch arrays and fields. Each pass of the
  source is one function on it.
- `RigidBody.dfy` holds the class `RigidBodies.RigidBody`. It keeps the source's
  in-place loops over the host arrays and its own scratch arrays
  `penaltyForce`, `force`, `radiusVector` and `oldPosition`. Each
  state-changing method's postcondition states that the new state
  (`Abstract()`) is the matching `Cluster` pass applied to the old state.
  Most also state that the inactive particles are untouched (`Inactive()`).
  For `CollisionResponse` and `ComputeBarycenter` that fact comes from their
  `modifies` frames, which exclude the host arrays they would have to change
  to touch those particles. `RigidCentroid` and `MassSums` change no state.
  The loop bodies `IntegrateParticle`, `SnapParticle` and `AnimateParticle`
  each state their update of one particle and that every other entry is
  unchanged.
- `Properties.dfy` proves what those passes guarantee together.

The central facts proved are these:

- The mass-weighted radius vectors sum to zero.
- After matching, every rigid particle sits exactly at `c + radius_vector[i]`,
  so pairwise offsets never change from tick to tick.
- The velocity update is Newton's law over one time step.
- `animateParticles` performs the same update as the first loop of `shapeMatching`.

The source uses two centroids: a mass-weighted one when it builds the
reference, and an unweighted one, divided by the active count, when it
matches. The model keeps this as written. The lemmas show the effect. With
equal masses the two agree. With unequal masses the cluster jumps sideways
with no horizontal force. Two resting particles of masses 1 and 3 move by
−0.25 on the first step. The velocity rebuilt from the displacement turns
that jump into a horizontal velocity, and each matching adds the same offset
again. So the pair moves by a further −0.5 on the second step
(`ClusterProperties.DriftAccelerates`), and it keeps accelerating sideways.
The −0.75 of the third step, to x = −1.5 and x = −0.5, is worked by hand from
`Cluster.Step` and not proved.

The model follows the code where it departs from textbook shape matching:

- A particle at or above the plane keeps its previous penalty force. It is
  not reset to zero (`ClusterProperties.PenaltyPersistsAboveGround`).
- The rotation is the identity, not the polar decomposition of `A_pq`.
- The centroid divides the rigid particles' position sum by the number of
  active particles, not by the number of rigid ones.
- `animateParticles` is not called by `step`.

The constants are Dafny `const`s in module `Cluster`: gravity `Gravity` =
(0, −9.8, 0) (RigidBody.cpp:58, 159), stiffness `Stiffness` = 100
(RigidBody.cpp:136), padding `Padding` = 0 (RigidBody.cpp:135) and contact
normal `Up` = (0, 1, 0) (RigidBody.cpp:144).

## Model

| member | source | states |
|---|---|---|
| `RigidBodies.RigidBody.constructor` | SPlisHSPlasH/RigidBody/RigidBody.cpp:14-22 | the four per-particle scratch arrays get one entry per active particle; barycenter and total mass start at zero; the counter starts at 0 |
| `RigidBodies.RigidBody.SetStates` | SPlisHSPlasH/RigidBody/RigidBody.cpp:24-31 | the new state is `Cluster.SetStates` of the old one; inactive particles unchanged |
| `RigidBodies.RigidBody.Step` | SPlisHSPlasH/RigidBody/RigidBody.cpp:37-50 | in place, the new state is `Cluster.Step` of the old one; the object stays valid; inactive particles unchanged |
| `RigidBodies.RigidBody.ShapeMatching` | SPlisHSPlasH/RigidBody/RigidBody.cpp:52-119 | in place, the new state is `Cluster.ShapeMatching` of the old one |
| `RigidBodies.RigidBody.IntegrateRigid` | SPlisHSPlasH/RigidBody/RigidBody.cpp:58-75 | the first loop of shapeMatching produces exactly `Cluster.Integrate` of the old state |
| `RigidBodies.RigidBody.IntegrateParticle` | SPlisHSPlasH/RigidBody/RigidBody.cpp:64-73 | for one rigid particle i: oldPosition[i] is the old position, velocity[i] is `Cluster.Accelerate` of the old velocity, position[i] advances by dt·(new velocity); every other entry of the three arrays is unchanged |
| `RigidBodies.RigidBody.RigidCentroid` | SPlisHSPlasH/RigidBody/RigidBody.cpp:77-87 | the accumulated centroid is `Cluster.Centroid` of the current positions and states |
| `RigidBodies.RigidBody.SnapToReference` | SPlisHSPlasH/RigidBody/RigidBody.cpp:102-118 | given the centroid, the last loop produces exactly `Cluster.Matching` of the old state |
| `RigidBodies.RigidBody.SnapParticle` | SPlisHSPlasH/RigidBody/RigidBody.cpp:110-117 | for one rigid particle i: position[i] = c + radius_vector[i] and velocity[i] = (position[i] − oldPosition[i]) / dt; every other entry is unchanged |
| `RigidBodies.RigidBody.CollisionResponse` | SPlisHSPlasH/RigidBody/RigidBody.cpp:133-149 | only the penalty forces change, to `Cluster.CollisionResponse` of the old state |
| `RigidBodies.RigidBody.AnimateParticles` | SPlisHSPlasH/RigidBody/RigidBody.cpp:152-172 | only positions and velocities change, to `Cluster.AnimateParticles` of the old state |
| `RigidBodies.RigidBody.AnimateParticle` | SPlisHSPlasH/RigidBody/RigidBody.cpp:165-169 | for one rigid particle i: velocity[i] += h·(g + penalty_force[i]) / mass[i], then position[i] += h·velocity[i]; every other entry is unchanged |
| `RigidBodies.RigidBody.ComputeBarycenter` | SPlisHSPlasH/RigidBody/RigidBody.cpp:174-200 | only barycenter, total mass and radius vectors change, to `Cluster.ComputeBarycenter` of the old state |
| `RigidBodies.RigidBody.MassSums` | SPlisHSPlasH/RigidBody/RigidBody.cpp:180-189 | returns the sum of the active masses and the sum of mass·position |
| `Cluster.TotalMass` | SPlisHSPlasH/RigidBody/RigidBody.cpp:181-187 | the definition of the accumulator `sum_mass += mass`, summed front to back; no contract of its own (`Cluster.TotalMassPositive` and `RigidBodies.RigidBody.MassSums` state its properties) |
| `Cluster.WeightedSum` | SPlisHSPlasH/RigidBody/RigidBody.cpp:180-188 | the definition of the accumulator `sum_mass_pos += mass * xi`, summed front to back; no contract of its own (`Cluster.WeightedSumOfOffsets` and `RigidBodies.RigidBody.MassSums` state its properties) |
| `Cluster.RigidSum` | SPlisHSPlasH/RigidBody/RigidBody.cpp:78-86 | the definition of the accumulator `c += pos` over the rigid particles; no contract of its own (`Cluster.Centroid` and `RigidBodies.RigidBody.RigidCentroid` state its properties) |
| `Cluster.Penalty` | SPlisHSPlasH/RigidBody/RigidBody.cpp:144-146 | the definition of `k * abs(phi) * n_dir`; its contract states that the force lies along the normal (x = z = 0) and never points down (y ≥ 0) |
| `Cluster.Accelerate` | SPlisHSPlasH/RigidBody/RigidBody.cpp:68-72 | the definition of `vel += f * mass_inv * dt` with `f = g + penalty_force[i]`; no contract of its own (`ClusterProperties.IntegrateObeysNewton` states its meaning) |
| `Cluster.Advance` | SPlisHSPlasH/RigidBody/RigidBody.cpp:73 | the definition of `pos += vel * dt`; no contract of its own (`Cluster.Integrate` states it for every rigid particle) |
| `Cluster.SetStates` | SPlisHSPlasH/RigidBody/RigidBody.cpp:24-31 | every active particle is `RigidBody` afterwards and nothing else differs |
| `Cluster.ComputeBarycenter` | SPlisHSPlasH/RigidBody/RigidBody.cpp:174-200 | no change without active particles; otherwise total mass = Σ mass_i > 0, total mass · barycenter = Σ mass_i·x_i, barycenter + radius_vector[i] = x_i, nothing else differs |
| `Cluster.Barycenter` | SPlisHSPlasH/RigidBody/RigidBody.cpp:190-191 | total mass times the result is the mass-weighted position sum |
| `Cluster.Offsets` | SPlisHSPlasH/RigidBody/RigidBody.cpp:196-200 | adding b back to each offset gives the original position |
| `Cluster.CollisionResponse` | SPlisHSPlasH/RigidBody/RigidBody.cpp:133-149 | a particle with y < 0, whatever its state, gets (0, −100·y, 0); one with y ≥ 0 keeps its penalty force; positions and everything else unchanged |
| `Cluster.Integrate` | SPlisHSPlasH/RigidBody/RigidBody.cpp:58-75 | for rigid particles oldPosition is the old position and the new position is old + dt·(new velocity); non-rigid particles untouched; nothing else differs |
| `Cluster.Centroid` | SPlisHSPlasH/RigidBody/RigidBody.cpp:78-87 | active count times the centroid is the sum of the rigid positions |
| `Cluster.Matching` | SPlisHSPlasH/RigidBody/RigidBody.cpp:102-118 | rigid particles are at centroid + radius_vector[i], and oldPosition + dt·velocity is that position; non-rigid particles untouched |
| `Cluster.ShapeMatching` | SPlisHSPlasH/RigidBody/RigidBody.cpp:52-119 | masses, states, radius vectors, penalty forces and the scalar fields are unchanged |
| `Cluster.AnimateParticles` | SPlisHSPlasH/RigidBody/RigidBody.cpp:152-172 | only positions and velocities change |
| `Cluster.Step` | SPlisHSPlasH/RigidBody/RigidBody.cpp:37-50 | the counter goes up by one; masses and sizes are unchanged, so it can run again |
| `Cluster.TotalMassPositive` | SPlisHSPlasH/RigidBody/RigidBody.cpp:183-191 | positive masses give a positive sum_mass, so the division at :191 is defined |
| `Cluster.WeightedSumOfOffsets` | SPlisHSPlasH/RigidBody/RigidBody.cpp:183-200 | Σ mass_i·(x_i − b) = Σ mass_i·x_i − (Σ mass_i)·b |
| `Cluster.ReferenceShapeBalanced` | SPlisHSPlasH/RigidBody/RigidBody.cpp:183-200 | after computeBarycenter, Σ mass_i·radius_vector[i] = 0 |
| `ClusterProperties.IntegrateObeysNewton` | SPlisHSPlasH/RigidBody/RigidBody.cpp:66-72 | mass · (new velocity − old velocity) = dt · (g + penalty force) for every rigid particle |
| `ClusterProperties.AnimateAgreesWithIntegrate` | SPlisHSPlasH/RigidBody/RigidBody.cpp:161-171 | animateParticles gives the same positions and velocities as the first loop of shapeMatching and leaves oldPosition alone |
| `ClusterProperties.MatchedShapeIsRigid` | SPlisHSPlasH/RigidBody/RigidBody.cpp:105-117 | after shapeMatching, rigid particle i is at c + radius_vector[i], and pos_i − pos_j = radius_vector[i] − radius_vector[j] |
| `ClusterProperties.ShapeMatchingVelocity` | SPlisHSPlasH/RigidBody/RigidBody.cpp:58-117 | a rigid particle's new velocity times dt is its whole displacement in the tick; non-rigid particles keep position, velocity and oldPosition |
| `ClusterProperties.FirstStepBuildsReference` | SPlisHSPlasH/RigidBody/RigidBody.cpp:39-44 | the first step marks every particle rigid, sets total mass, builds radius vectors with barycenter + radius_vector[i] = initial x_i, balanced by mass |
| `ClusterProperties.LaterStepKeepsReference` | SPlisHSPlasH/RigidBody/RigidBody.cpp:37-50 | once the counter is non-zero, a step changes neither the states nor the radius vectors, barycenter or total mass |
| `ClusterProperties.StepKeepsShape` | SPlisHSPlasH/RigidBody/RigidBody.cpp:37-50 | after any step, rigid particles differ exactly by their radius vectors |
| `ClusterProperties.ShapeConstantAcrossTicks` | SPlisHSPlasH/RigidBody/RigidBody.cpp:37-50 | over two consecutive steps, every pairwise offset of rigid particles stays the same |
| `ClusterProperties.ContactScenario` | SPlisHSPlasH/RigidBody/RigidBody.cpp:139-148 | a particle at (0, −1, 0) gets penalty force (0, 100, 0) |
| `ClusterProperties.PenaltyPersistsAboveGround` | SPlisHSPlasH/RigidBody/RigidBody.cpp:142-147 | a particle above the plane keeps a non-zero penalty force it received earlier |
| `ClusterProperties.MatchedCentroid` | SPlisHSPlasH/RigidBody/RigidBody.cpp:78-115 | with all particles rigid, matching shifts the unweighted centroid by the unweighted mean of the radius vectors |
| `ClusterProperties.EqualMassesKeepCentroid` | SPlisHSPlasH/RigidBody/RigidBody.cpp:78-115 | with equal masses and mass-balanced radius vectors, matching keeps the unweighted centroid at c |
| `ClusterProperties.UnequalMassesDrift` | SPlisHSPlasH/RigidBody/RigidBody.cpp:37-50 | two resting particles of masses 1 and 3 at x = 0 and x = 1, at height 10, at rest, with zero initial penalty forces (the source never initialises `penalty_force`: this is an assumption), end the first step at x = −0.25 and x = 0.75, each with dt·velocity.x = −0.25 |
| `ClusterProperties.DriftAccelerates` | SPlisHSPlasH/RigidBody/RigidBody.cpp:37-50 | under the same assumptions, the second step moves the pair by a further −0.5, to x = −0.75 and x = 0.25: the drift accelerates |
| `ClusterProperties.DriftLaterStep` | SPlisHSPlasH/RigidBody/RigidBody.cpp:37-50 | along x, a later step of a two-particle pair with zero penalty forces moves each particle by its dt·velocity.x = u, then recentres it on the mean of those positions plus its radius vector |
| `ClusterProperties.DriftMatch` | SPlisHSPlasH/RigidBody/RigidBody.cpp:58-118 | along x, shapeMatching of that pair gives position mean + u + radius_vector.x, and dt·new velocity.x = displacement |

## Left out

- `polarDecompose` (RigidBody.cpp:122-130) is never called: its call is commented out and `R` is set to the identity. It also relies on Eigen's `cwiseSqrt` and `inverse`. The model places particles at `c + radius_vector[i]`.
- The `A_pq` accumulation (RigidBody.cpp:91-99) is calculated but never used, so it is not modelled. Neither are the `q` matrix or its inverse `A_qq` (RigidBody.cpp:193-203): Eigen inversion of a possibly singular matrix, with a result never read.
- The time step from `TimeManager::getCurrent()->getTimeStepSize()` becomes the parameter `dt` (`h` for `animateParticles`). `dt > 0` is a precondition.
- Host accessors become direct reads and writes of the `FluidModel` arrays. `setParticleState` becomes a write of `state[i]`, and `numActiveParticles()` becomes the field `numActive`. Every active mass must be positive.
- `float` and `Real` are both exact reals, so rounding, the `float` stiffness and padding, and `float &mass` are not modelled.
- `abs` in `collision_response` is taken as the floating-point absolute value.
- The counter `steps` is a function-local `static` and so is shared by every `RigidBody` object. The model keeps one per object. Its `int` overflow after 2^31 − 1 calls is not modelled.
- The class has fields it never uses and methods it never defines. The fields `quaternion`, `velocity` and `angular_velocity` (RigidBody.h:18, 20, 21) have in-class initialisers but are never read or written. The methods `translation`, `rotation`, `addForce` and `addTorque` (RigidBody.h:28-29, 36-37) are declared without a definition. None of them has behaviour to model. The calls to `addForce` and `animateParticles` in `step` are commented out.
- The header does not declare `penalty_force`, `radius_vector`, `oldPosition` or `A_qq`, yet the .cpp uses them. Nor does it declare the methods `setStates`, `shapeMatching` and `collision_response`, which the .cpp defines (RigidBody.h:27-37). It declares `force` as a single `Vector3r` (RigidBody.h:22), although the constructor resizes it per particle. The model follows the .cpp and treats all four as per-particle arrays. `force` is only sized, never used.
- The initial contents of the scratch arrays are unspecified. Nothing in the source initialises them, and the constructor's contract states only their sizes. They are read before they are written: `penalty_force[i]` is written only for a particle below the plane (RigidBody.cpp:142-146), but shapeMatching reads it for every rigid particle (RigidBody.cpp:71). So on the first tick, every particle at or above the plane is integrated with a force that was never set. The model leaves that value arbitrary, and every general lemma holds whatever `penaltyForce` holds.
- `RigidBodies.RigidBody.constructor`: its contract is only valid while the host's active count stays the one it was built with. A change of that count is outside the model.
- The host's particle states other than `RigidBody` are declared only in FluidModel.h, which is not part of this model. They are represented by `Other(tag)`.
- The division `c /= numParticles` (RigidBody.cpp:87) with no active particles gives a value that is never used. The model uses the zero vector there.
- The header derives the class from `TimeStep` (RigidBody.h:15). The .cpp's constructor instead initialises a base `NonPressureForceBase` (RigidBody.cpp:15). Neither base, nor the empty destructor, carries behaviour that is modelled here.
- Concurrency is not modelled. The code is sequential.
