/**
 * The RigidBody force module of RigidBody.cpp: an object over the host's
 * particle arrays with its own per-particle scratch arrays and scalar
 * fields. Every method works in place, by the same loops as the source, and
 * its postcondition says that the new state is the corresponding pass of
 * module Cluster applied to the old state; the inactive tail of the host
 * arrays is never touched.
 */
module RigidBodies {
  import opened Vectors
  import opened Host
  import Cluster

  class RigidBody {
    const model: FluidModel

    // Per-particle scratch arrays, sized once by the constructor.
    const penaltyForce: array<Vec3>
    const force: array<Vec3>
    const radiusVector: array<Vec3>
    const oldPosition: array<Vec3>

    var barycenter: Vec3
    var totalMass: real

    /** The first-call counter of step. */
    var steps: nat

    /**
     * The scratch arrays have one entry per active particle, so every
     * indexed access below is in bounds while the host's active count
     * stays what it was at construction.
     */
    ghost predicate Valid()
      reads this, model
    {
      model.Valid() &&
      penaltyForce.Length == model.numActive && force.Length == model.numActive &&
      radiusVector.Length == model.numActive && oldPosition.Length == model.numActive &&
      penaltyForce != radiusVector && penaltyForce != oldPosition && radiusVector != oldPosition &&
      penaltyForce != model.position && penaltyForce != model.velocity &&
      radiusVector != model.position && radiusVector != model.velocity &&
      oldPosition != model.position && oldPosition != model.velocity
    }

    /** The active particles and this object's state, as a value. */
    ghost function Abstract(): (s: Cluster.State)
      reads this, model, model.position, model.velocity, model.mass, model.state
      reads penaltyForce, radiusVector, oldPosition
      requires Valid()
      ensures s.WellSized() && s.Count() == model.numActive
      ensures model.PositiveMasses() ==> s.PositiveMasses()
    {
      var n := model.numActive;
      Cluster.State(model.position[..n], model.velocity[..n], model.mass[..n], model.state[..n],
                    penaltyForce[..], radiusVector[..], oldPosition[..],
                    barycenter, totalMass, steps)
    }

    /** The host's inactive particles, which no method changes. */
    ghost function Inactive(): (seq<Vec3>, seq<Vec3>, seq<ParticleState>)
      reads model, model.position, model.velocity, model.state
      requires model.Valid()
    {
      var n := model.numActive;
      (model.position[n..], model.velocity[n..], model.state[n..])
    }

    /** Sizes the scratch arrays to the host's active count. */
    constructor (model: FluidModel)
      requires model.Valid()
      ensures Valid() && this.model == model
      ensures fresh(penaltyForce) && fresh(force) && fresh(radiusVector) && fresh(oldPosition)
      ensures barycenter == Zero && totalMass == 0.0 && steps == 0
    {
      this.model := model;
      var n := model.numActive;
      penaltyForce := new Vec3[n];
      force := new Vec3[n];
      radiusVector := new Vec3[n];
      oldPosition := new Vec3[n];
      barycenter := Zero;
      totalMass := 0.0;
      steps := 0;
    }

    /** setStates */
    method SetStates()
      requires Valid()
      modifies model.state
      ensures Valid()
      ensures Abstract() == Cluster.SetStates(old(Abstract()))
      ensures Inactive() == old(Inactive())
    {
      var n := model.numActive;
      for i := 0 to n
        invariant forall k :: 0 <= k < i ==> model.state[k] == RigidBody
        invariant forall k :: i <= k < model.state.Length ==> model.state[k] == old(model.state[k])
      {
        model.state[i] := RigidBody;
      }
      assert model.state[..n] == Cluster.SetStates(old(Abstract())).state;
      assert model.state[n..] == old(model.state[n..]);
    }

    /** step: the per-tick entry point. */
    method Step(dt: real)
      requires Valid() && model.PositiveMasses() && dt > 0.0
      modifies this`barycenter, this`totalMass, this`steps
      modifies model.position, model.velocity, model.state, penaltyForce, radiusVector, oldPosition
      ensures Valid()
      ensures Abstract() == Cluster.Step(old(Abstract()), dt)
      ensures Inactive() == old(Inactive())
    {
      if steps == 0 {
        SetStates();
        ComputeBarycenter();
      }
      CollisionResponse();
      ShapeMatching(dt);
      steps := steps + 1;
    }

    /** shapeMatching, with the rotation R fixed to the identity. */
    method ShapeMatching(dt: real)
      requires Valid() && model.PositiveMasses() && dt > 0.0
      modifies model.position, model.velocity, oldPosition
      ensures Valid()
      ensures Abstract() == Cluster.ShapeMatching(old(Abstract()), dt)
      ensures Inactive() == old(Inactive())
    {
      IntegrateRigid(dt);
      var c := RigidCentroid();
      SnapToReference(c, dt);
    }

    /** The first loop of shapeMatching: a semi-implicit Euler step of every rigid particle. */
    method IntegrateRigid(dt: real)
      requires Valid() && model.PositiveMasses()
      modifies model.position, model.velocity, oldPosition
      ensures Valid()
      ensures Abstract() == Cluster.Integrate(old(Abstract()), dt)
      ensures Inactive() == old(Inactive())
    {
      var n := model.numActive;
      ghost var s0 := Abstract();
      ghost var s1 := Cluster.Integrate(s0, dt);
      for i := 0 to n
        invariant forall k :: 0 <= k < i ==>
          model.velocity[k] == (if model.state[k] == RigidBody
            then Cluster.Accelerate(old(model.velocity[k]), penaltyForce[k], model.mass[k], dt) else old(model.velocity[k])) &&
          model.position[k] == (if model.state[k] == RigidBody
            then Cluster.Advance(old(model.position[k]), model.velocity[k], dt) else old(model.position[k])) &&
          oldPosition[k] == (if model.state[k] == RigidBody then old(model.position[k]) else old(oldPosition[k]))
        invariant forall k :: i <= k < n ==> oldPosition[k] == old(oldPosition[k])
        invariant forall k :: i <= k < model.position.Length ==> model.position[k] == old(model.position[k])
        invariant forall k :: i <= k < model.velocity.Length ==> model.velocity[k] == old(model.velocity[k])
      {
        if model.state[i] == RigidBody {
          IntegrateParticle(i, dt);
        }
      }
      assert forall k :: 0 <= k < n ==>
        model.position[k] == s1.position[k] && model.velocity[k] == s1.velocity[k] &&
        oldPosition[k] == s1.oldPosition[k];
      assert model.position[..n] == s1.position;
      assert model.velocity[..n] == s1.velocity;
      assert oldPosition[..] == s1.oldPosition;
      assert model.position[n..] == old(model.position[n..]);
      assert model.velocity[n..] == old(model.velocity[n..]);
    }

    /** The body of the first loop of shapeMatching for one rigid particle i. */
    method IntegrateParticle(i: nat, dt: real)
      requires Valid() && model.PositiveMasses() && i < model.numActive
      modifies model.position, model.velocity, oldPosition
      ensures model.velocity[i] == Cluster.Accelerate(old(model.velocity[i]), penaltyForce[i], model.mass[i], dt)
      ensures model.position[i] == Cluster.Advance(old(model.position[i]), model.velocity[i], dt)
      ensures oldPosition[i] == old(model.position[i])
      ensures forall k :: 0 <= k < model.position.Length && k != i ==> model.position[k] == old(model.position[k])
      ensures forall k :: 0 <= k < model.velocity.Length && k != i ==> model.velocity[k] == old(model.velocity[k])
      ensures forall k :: 0 <= k < oldPosition.Length && k != i ==> oldPosition[k] == old(oldPosition[k])
    {
      var pos := model.position[i];
      var vel := model.velocity[i];
      var mass := model.mass[i];
      var massInv := 1.0 / mass;
      oldPosition[i] := pos;
      var f := Add(Cluster.Gravity, penaltyForce[i]);
      vel := Add(vel, Scale(dt, Scale(massInv, f)));
      model.velocity[i] := vel;
      model.position[i] := Add(pos, Scale(dt, vel));
    }

    /**
     * The second loop of shapeMatching: the sum of the rigid particles'
     * positions divided by the active count.
     */
    method RigidCentroid() returns (c: Vec3)
      requires Valid()
      ensures c == Cluster.Centroid(Abstract().position, Abstract().state)
    {
      var n := model.numActive;
      c := Zero;
      for i := 0 to n
        invariant c == Cluster.RigidSum(model.position[..i], model.state[..i])
      {
        assert model.position[..i + 1][..i] == model.position[..i];
        assert model.state[..i + 1][..i] == model.state[..i];
        if model.state[i] == RigidBody {
          c := Add(c, model.position[i]);
        }
      }
      // with no active particle c is never used, so the division is skipped
      if n > 0 {
        c := Div(c, n as real);
      }
    }

    /**
     * The last loop of shapeMatching: every rigid particle is placed at
     * c + R * radius_vector[i], R being the identity, and its velocity is
     * rebuilt from its displacement since oldPosition.
     */
    method SnapToReference(c: Vec3, dt: real)
      requires Valid() && dt > 0.0
      requires c == Cluster.Centroid(Abstract().position, Abstract().state)
      modifies model.position, model.velocity
      ensures Valid()
      ensures Abstract() == Cluster.Matching(old(Abstract()), dt)
      ensures Inactive() == old(Inactive())
    {
      var n := model.numActive;
      ghost var s1 := Abstract();
      ghost var s2 := Cluster.Matching(s1, dt);
      for i := 0 to n
        invariant forall k :: 0 <= k < i ==>
          model.position[k] == (if model.state[k] == RigidBody then Add(c, radiusVector[k]) else old(model.position[k])) &&
          model.velocity[k] == (if model.state[k] == RigidBody
            then Div(Sub(Add(c, radiusVector[k]), oldPosition[k]), dt) else old(model.velocity[k]))
        invariant forall k :: i <= k < model.position.Length ==> model.position[k] == old(model.position[k])
        invariant forall k :: i <= k < model.velocity.Length ==> model.velocity[k] == old(model.velocity[k])
      {
        if model.state[i] == RigidBody {
          SnapParticle(i, c, dt);
        }
      }
      assert forall k :: 0 <= k < n ==> model.position[k] == s2.position[k] && model.velocity[k] == s2.velocity[k];
      assert model.position[..n] == s2.position;
      assert model.velocity[..n] == s2.velocity;
      assert model.position[n..] == old(model.position[n..]);
      assert model.velocity[n..] == old(model.velocity[n..]);
    }

    /** The body of the last loop of shapeMatching for one rigid particle i. */
    method SnapParticle(i: nat, c: Vec3, dt: real)
      requires Valid() && dt > 0.0 && i < model.numActive
      modifies model.position, model.velocity
      ensures model.position[i] == Add(c, radiusVector[i])
      ensures model.velocity[i] == Div(Sub(model.position[i], oldPosition[i]), dt)
      ensures forall k :: 0 <= k < model.position.Length && k != i ==> model.position[k] == old(model.position[k])
      ensures forall k :: 0 <= k < model.velocity.Length && k != i ==> model.velocity[k] == old(model.velocity[k])
    {
      var pos := Add(c, radiusVector[i]);
      model.position[i] := pos;
      model.velocity[i] := Div(Sub(pos, oldPosition[i]), dt);
    }

    /** collision_response: the penalty force against the plane y = 0. */
    method CollisionResponse()
      requires Valid()
      modifies penaltyForce
      ensures Valid()
      ensures Abstract() == Cluster.CollisionResponse(old(Abstract()))
    {
      var eps := Cluster.Padding;
      var k := Cluster.Stiffness;
      var n := model.numActive;
      ghost var r := Cluster.CollisionResponse(Abstract());
      for i := 0 to n
        invariant forall j :: 0 <= j < i ==> penaltyForce[j] == r.penaltyForce[j]
        invariant forall j :: i <= j < n ==> penaltyForce[j] == old(penaltyForce[j])
      {
        var pos := model.position[i];
        if pos.y < eps {
          var nDir := Vec3(0.0, 1.0, 0.0);
          var phi := pos.y;
          penaltyForce[i] := Scale(k * Abs(phi), nDir);
        }
      }
      assert penaltyForce[..] == r.penaltyForce;
    }

    /** animateParticles: an explicit integration pass of the rigid particles. */
    method AnimateParticles(h: real)
      requires Valid() && model.PositiveMasses()
      modifies model.position, model.velocity
      ensures Valid()
      ensures Abstract() == Cluster.AnimateParticles(old(Abstract()), h)
      ensures Inactive() == old(Inactive())
    {
      var n := model.numActive;
      if n == 0 {
        return;
      }
      ghost var s0 := Abstract();
      ghost var r := Cluster.AnimateParticles(s0, h);
      for i := 0 to n
        invariant forall k :: 0 <= k < i ==>
          model.position[k] == r.position[k] && model.velocity[k] == r.velocity[k]
        invariant forall k :: i <= k < n ==>
          model.position[k] == s0.position[k] && model.velocity[k] == s0.velocity[k]
        invariant forall k :: n <= k < model.position.Length ==> model.position[k] == old(model.position[k])
        invariant forall k :: n <= k < model.velocity.Length ==> model.velocity[k] == old(model.velocity[k])
      {
        if model.state[i] == RigidBody {
          AnimateParticle(i, h);
        }
      }
      assert model.position[..n] == r.position;
      assert model.velocity[..n] == r.velocity;
      assert model.position[n..] == old(model.position[n..]);
      assert model.velocity[n..] == old(model.velocity[n..]);
    }

    /** The loop body of animateParticles for one rigid particle i. */
    method AnimateParticle(i: nat, h: real)
      requires Valid() && model.PositiveMasses() && i < model.numActive
      modifies model.position, model.velocity
      ensures model.velocity[i] ==
        Add(old(model.velocity[i]), Div(Scale(h, Add(Cluster.Gravity, penaltyForce[i])), model.mass[i]))
      ensures model.position[i] == Add(old(model.position[i]), Scale(h, model.velocity[i]))
      ensures forall k :: 0 <= k < model.position.Length && k != i ==> model.position[k] == old(model.position[k])
      ensures forall k :: 0 <= k < model.velocity.Length && k != i ==> model.velocity[k] == old(model.velocity[k])
    {
      var mass := model.mass[i];
      var vel := Add(model.velocity[i], Div(Scale(h, Add(Cluster.Gravity, penaltyForce[i])), mass));
      model.velocity[i] := vel;
      model.position[i] := Add(model.position[i], Scale(h, vel));
    }

    /**
     * computeBarycenter: total mass, mass-weighted barycenter and radius
     * vectors of the active particles (the inverse shape matrix is not
     * modelled).
     */
    method ComputeBarycenter()
      requires Valid() && model.PositiveMasses()
      modifies this`barycenter, this`totalMass, radiusVector
      ensures Valid()
      ensures Abstract() == Cluster.ComputeBarycenter(old(Abstract()))
    {
      var n := model.numActive;
      if n == 0 {
        return;
      }
      ghost var s0 := Abstract();
      var sumMass, sumMassPos := MassSums();
      Cluster.TotalMassPositive(s0.mass);
      totalMass := sumMass;
      barycenter := Div(sumMassPos, sumMass);
      ghost var r := Cluster.ComputeBarycenter(s0);
      for i := 0 to n
        invariant barycenter == r.barycenter && totalMass == r.totalMass
        invariant forall k :: 0 <= k < i ==> radiusVector[k] == Sub(s0.position[k], barycenter)
      {
        var xi := model.position[i];
        radiusVector[i] := Sub(xi, barycenter);
      }
      forall k | 0 <= k < n
        ensures radiusVector[k] == r.radiusVector[k]
      {
        assert Add(r.barycenter, r.radiusVector[k]) == s0.position[k];
      }
      assert radiusVector[..] == r.radiusVector;
    }

    /** The first loop of computeBarycenter: sum_mass and sum_mass_pos. */
    method MassSums() returns (sumMass: real, sumMassPos: Vec3)
      requires Valid()
      ensures sumMass == Cluster.TotalMass(Abstract().mass)
      ensures sumMassPos == Cluster.WeightedSum(Abstract().mass, Abstract().position)
    {
      var n := model.numActive;
      sumMassPos := Zero;
      sumMass := 0.0;
      for i := 0 to n
        invariant sumMass == Cluster.TotalMass(model.mass[..i])
        invariant sumMassPos == Cluster.WeightedSum(model.mass[..i], model.position[..i])
      {
        assert model.mass[..i + 1][..i] == model.mass[..i];
        assert model.position[..i + 1][..i] == model.position[..i];
        var xi := model.position[i];
        var mass := model.mass[i];
        sumMass := sumMass + mass;
        sumMassPos := Add(sumMassPos, Scale(mass, xi));
      }
    }
  }
}
