/**
 * What the passes of module Cluster guarantee together: the integration is
 * Newton's law, matching makes the cluster exactly its reference shape
 * translated to the centroid, the step builds that reference once and then
 * keeps it, so the shape never changes from one tick to the next.
 */
module ClusterProperties {
  import opened Vectors
  import opened Host
  import opened Cluster

  // ---------------------------------------------------------------------
  // Integration

  /** One component of the velocity update: m * (dt * ((1 / m) * f)) == dt * f. */
  lemma ImpulseComponent(m: real, dt: real, f: real)
    requires m != 0.0
    ensures m * (dt * ((1.0 / m) * f)) == dt * f
  {
    calc {
      m * (dt * ((1.0 / m) * f));
      dt * ((m * (1.0 / m)) * f);
      { assert m * (1.0 / m) == 1.0; }
      dt * f;
    }
  }

  /** The velocity update of one particle, as vectors: m * (dt * ((1 / m) * f)) == dt * f. */
  lemma ImpulseVec(m: real, dt: real, f: Vec3)
    requires m != 0.0
    ensures Scale(m, Scale(dt, Scale(1.0 / m, f))) == Scale(dt, f)
  {
    ImpulseComponent(m, dt, f.x);
    ImpulseComponent(m, dt, f.y);
    ImpulseComponent(m, dt, f.z);
  }

  /** Dividing h * f by m is the same as scaling (1 / m) * f by h. */
  lemma DivAsScale(h: real, f: Vec3, m: real)
    requires m != 0.0
    ensures Div(Scale(h, f), m) == Scale(h, Scale(1.0 / m, f))
  {
    assert h * f.x / m == h * ((1.0 / m) * f.x);
    assert h * f.y / m == h * ((1.0 / m) * f.y);
    assert h * f.z / m == h * ((1.0 / m) * f.z);
  }

  /**
   * The velocity update of shapeMatching is Newton's second law over one
   * time step: mass times the change of velocity equals dt times the force
   * (gravity plus penalty), for every rigid particle.
   */
  lemma IntegrateObeysNewton(s: State, dt: real)
    requires s.WellSized() && s.PositiveMasses()
    ensures forall i :: s.Rigid(i) ==>
      Scale(s.mass[i], Sub(Integrate(s, dt).velocity[i], s.velocity[i])) == Scale(dt, Add(Gravity, s.penaltyForce[i]))
  {
    var r := Integrate(s, dt);
    forall i | s.Rigid(i)
      ensures Scale(s.mass[i], Sub(r.velocity[i], s.velocity[i])) == Scale(dt, Add(Gravity, s.penaltyForce[i]))
    {
      var v := s.velocity[i];
      var f := Add(Gravity, s.penaltyForce[i]);
      var d := Scale(dt, Scale(1.0 / s.mass[i], f));
      assert r.velocity[i] == Add(v, d);
      assert Sub(Add(v, d), v) == d;
      ImpulseVec(s.mass[i], dt, f);
    }
  }

  /**
   * animateParticles performs the same update of velocity and position as
   * the first loop of shapeMatching; it only leaves oldPosition alone.
   */
  lemma AnimateAgreesWithIntegrate(s: State, h: real)
    requires s.WellSized() && s.PositiveMasses()
    ensures AnimateParticles(s, h) == Integrate(s, h).(oldPosition := s.oldPosition)
  {
    var a := AnimateParticles(s, h);
    var r := Integrate(s, h);
    if s.Count() > 0 {
      forall i | 0 <= i < s.Count()
        ensures a.velocity[i] == r.velocity[i]
      {
        if s.state[i] == RigidBody {
          var f := Add(Gravity, s.penaltyForce[i]);
          var m := s.mass[i];
          assert a.velocity[i] == Add(s.velocity[i], Div(Scale(h, f), m));
          assert r.velocity[i] == Add(s.velocity[i], Scale(h, Scale(1.0 / m, f)));
          DivAsScale(h, f, m);
        }
      }
      assert a.velocity == r.velocity;
      assert a.position == r.position;
    } else {
      assert r.position == s.position && r.velocity == s.velocity;
    }
  }

  // ---------------------------------------------------------------------
  // Shape matching

  /**
   * After shapeMatching every rigid particle sits at c + radius_vector[i],
   * c being the centroid of the integrated positions; so any two rigid
   * particles are exactly as far apart as in the reference shape.
   */
  lemma MatchedShapeIsRigid(s: State, dt: real)
    requires s.WellSized() && s.PositiveMasses() && dt > 0.0
    ensures forall i :: s.Rigid(i) ==>
      ShapeMatching(s, dt).position[i] ==
        Add(Centroid(Integrate(s, dt).position, s.state), s.radiusVector[i])
    ensures forall i, j :: s.Rigid(i) && s.Rigid(j) ==>
      Sub(ShapeMatching(s, dt).position[i], ShapeMatching(s, dt).position[j]) ==
        Sub(s.radiusVector[i], s.radiusVector[j])
  {
    var t := Integrate(s, dt);
    var r := ShapeMatching(s, dt);
    assert t.state == s.state && t.radiusVector == s.radiusVector;
    assert forall i :: s.Rigid(i) ==> t.Rigid(i);
  }

  /**
   * The velocity shapeMatching leaves a rigid particle with is its whole
   * displacement during the tick divided by dt: moving from its position
   * before the tick at that velocity for dt lands exactly on its new
   * position. A particle that is not rigid keeps position and velocity.
   */
  lemma ShapeMatchingVelocity(s: State, dt: real)
    requires s.WellSized() && s.PositiveMasses() && dt > 0.0
    ensures forall i :: s.Rigid(i) ==>
      Add(s.position[i], Scale(dt, ShapeMatching(s, dt).velocity[i])) == ShapeMatching(s, dt).position[i]
    ensures forall i :: 0 <= i < s.Count() && !s.Rigid(i) ==>
      ShapeMatching(s, dt).position[i] == s.position[i] &&
      ShapeMatching(s, dt).velocity[i] == s.velocity[i] &&
      ShapeMatching(s, dt).oldPosition[i] == s.oldPosition[i]
  {
    var t := Integrate(s, dt);
    assert t.state == s.state;
    assert forall i :: s.Rigid(i) ==> t.Rigid(i) && t.oldPosition[i] == s.position[i];
  }

  // ---------------------------------------------------------------------
  // The step

  /**
   * The first step marks every particle rigid and builds a reference shape
   * that balances around the mass-weighted barycenter; the cluster leaves
   * it in exactly that shape.
   */
  lemma FirstStepBuildsReference(s: State, dt: real)
    requires s.WellSized() && s.PositiveMasses() && dt > 0.0
    requires s.steps == 0 && s.Count() > 0
    ensures Step(s, dt).AllRigid()
    ensures Step(s, dt).totalMass == TotalMass(s.mass)
    ensures WeightedSum(s.mass, Step(s, dt).radiusVector) == Zero
    ensures forall i :: 0 <= i < s.Count() ==>
      Add(Step(s, dt).barycenter, Step(s, dt).radiusVector[i]) == s.position[i]
  {
    var a := SetStates(s);
    var b := ComputeBarycenter(a);
    var c := CollisionResponse(b);
    var r := Step(s, dt);
    assert r == ShapeMatching(c, dt).(steps := s.steps + 1);
    assert a.mass == s.mass && a.position == s.position;
    ReferenceShapeBalanced(a);
  }

  /** Every later step leaves the states and the reference shape as they were. */
  lemma LaterStepKeepsReference(s: State, dt: real)
    requires s.WellSized() && s.PositiveMasses() && dt > 0.0
    requires s.steps > 0
    ensures Step(s, dt).state == s.state
    ensures Step(s, dt).radiusVector == s.radiusVector
    ensures Step(s, dt).barycenter == s.barycenter && Step(s, dt).totalMass == s.totalMass
  {
    var c := CollisionResponse(s);
    assert Step(s, dt) == ShapeMatching(c, dt).(steps := s.steps + 1);
  }

  /** After every step, any two rigid particles are as far apart as in the reference shape. */
  lemma StepKeepsShape(s: State, dt: real)
    requires s.WellSized() && s.PositiveMasses() && dt > 0.0
    ensures forall i, j :: Step(s, dt).Rigid(i) && Step(s, dt).Rigid(j) ==>
      Sub(Step(s, dt).position[i], Step(s, dt).position[j]) ==
        Sub(Step(s, dt).radiusVector[i], Step(s, dt).radiusVector[j])
  {
    var init := if s.steps == 0 then ComputeBarycenter(SetStates(s)) else s;
    var c := CollisionResponse(init);
    var r := Step(s, dt);
    assert r == ShapeMatching(c, dt).(steps := s.steps + 1);
    MatchedShapeIsRigid(c, dt);
    assert r.state == c.state && r.radiusVector == c.radiusVector;
  }

  /**
   * From one tick to the next the rigid cluster keeps its shape exactly:
   * only a common translation separates its positions after two
   * consecutive steps (the rotation is the identity).
   */
  lemma ShapeConstantAcrossTicks(s: State, dt1: real, dt2: real)
    requires s.WellSized() && s.PositiveMasses() && dt1 > 0.0 && dt2 > 0.0
    ensures Step(Step(s, dt1), dt2).state == Step(s, dt1).state
    ensures forall i, j :: Step(s, dt1).Rigid(i) && Step(s, dt1).Rigid(j) ==>
      Sub(Step(Step(s, dt1), dt2).position[i], Step(Step(s, dt1), dt2).position[j]) ==
        Sub(Step(s, dt1).position[i], Step(s, dt1).position[j])
  {
    var r1 := Step(s, dt1);
    var r2 := Step(r1, dt2);
    LaterStepKeepsReference(r1, dt2);
    StepKeepsShape(s, dt1);
    StepKeepsShape(r1, dt2);
    assert forall i :: r1.Rigid(i) ==> r2.Rigid(i);
  }

  // ---------------------------------------------------------------------
  // Contact

  /**
   * A single particle at (0, -1, 0) receives the penalty force (0, 100, 0).
   */
  lemma ContactScenario(s: State)
    requires s.WellSized() && s.position == [Vec3(0.0, -1.0, 0.0)]
    ensures CollisionResponse(s).penaltyForce == [Vec3(0.0, 100.0, 0.0)]
  {
    var r := CollisionResponse(s);
    assert r.penaltyForce[0] == Vec3(0.0, -100.0 * -1.0, 0.0);
  }

  /**
   * A particle that has left the ground keeps the penalty force it last
   * received: collision_response does not reset it to zero.
   */
  lemma PenaltyPersistsAboveGround(s: State)
    requires s.WellSized()
    requires s.position == [Vec3(0.0, 2.0, 0.0)] && s.penaltyForce == [Vec3(0.0, 100.0, 0.0)]
    ensures CollisionResponse(s).penaltyForce[0] == Vec3(0.0, 100.0, 0.0)
    ensures CollisionResponse(s).penaltyForce[0] != Zero
  {
  }

  // ---------------------------------------------------------------------
  // The two centroids: mass-weighted for the reference, unweighted for matching

  lemma {:induction false} RigidCountAll(s: seq<ParticleState>)
    requires forall i :: 0 <= i < |s| ==> s[i] == RigidBody
    ensures RigidCount(s) == |s|
  {
    if |s| > 0 {
      RigidCountAll(s[..|s| - 1]);
    }
  }

  /** Translating every rigid position by c adds (rigid count) * c to their sum. */
  lemma {:induction false} RigidSumOfTranslates(p: seq<Vec3>, q: seq<Vec3>, s: seq<ParticleState>, c: Vec3)
    requires |p| == |s| && |q| == |s|
    requires forall i :: 0 <= i < |s| && s[i] == RigidBody ==> q[i] == Add(c, p[i])
    ensures RigidSum(q, s) == Add(Scale(RigidCount(s) as real, c), RigidSum(p, s))
  {
    if |s| > 0 {
      var k := |s| - 1;
      assert forall i :: 0 <= i < k && s[..k][i] == RigidBody ==> q[..k][i] == Add(c, p[..k][i]);
      RigidSumOfTranslates(p[..k], q[..k], s[..k], c);
      var n := RigidCount(s[..k]) as real;
      var rp := RigidSum(p[..k], s[..k]);
      if s[k] == RigidBody {
        assert RigidSum(q, s) == Add(Add(Scale(n, c), rp), Add(c, p[k]));
        assert RigidCount(s) as real == n + 1.0;
        assert RigidSum(p, s) == Add(rp, p[k]);
        TranslateStep(n, c, rp, p[k]);
      } else {
        assert RigidSum(q, s) == Add(Scale(n, c), rp);
        assert RigidCount(s) as real == n;
        assert RigidSum(p, s) == rp;
      }
    }
  }

  lemma TranslateStep(n: real, c: Vec3, rp: Vec3, pk: Vec3)
    ensures Add(Add(Scale(n, c), rp), Add(c, pk)) == Add(Scale(n + 1.0, c), Add(rp, pk))
  {
    assert (n + 1.0) * c.x == n * c.x + c.x;
    assert (n + 1.0) * c.y == n * c.y + c.y;
    assert (n + 1.0) * c.z == n * c.z + c.z;
  }

  /** (n * c + v) / n == c + v / n, component by component. */
  lemma DivOfTranslate(c: Vec3, v: Vec3, n: real)
    requires n != 0.0
    ensures Div(Add(Scale(n, c), v), n) == Add(c, Div(v, n))
  {
    assert (n * c.x + v.x) / n == c.x + v.x / n;
    assert (n * c.y + v.y) / n == c.y + v.y / n;
    assert (n * c.z + v.z) / n == c.z + v.z / n;
  }

  /**
   * When every active particle is rigid, matching moves the unweighted
   * centroid by the unweighted mean of the radius vectors. The radius
   * vectors are balanced by mass, not by count, so this mean is zero only
   * in special cases such as equal masses.
   */
  lemma MatchedCentroid(s: State, dt: real)
    requires s.WellSized() && dt > 0.0 && s.AllRigid() && s.Count() > 0
    ensures Centroid(Matching(s, dt).position, s.state) ==
      Add(Centroid(s.position, s.state), Centroid(s.radiusVector, s.state))
  {
    var r := Matching(s, dt);
    var c := Centroid(s.position, s.state);
    var n := s.Count() as real;
    assert forall i :: 0 <= i < s.Count() ==> s.Rigid(i);
    RigidSumOfTranslates(s.radiusVector, r.position, s.state, c);
    RigidCountAll(s.state);
    DivOfTranslate(c, RigidSum(s.radiusVector, s.state), n);
  }

  /** With a single mass mu for all particles, the weighted sum is mu times the plain sum. */
  lemma {:induction false} UniformWeightedSum(m: seq<real>, p: seq<Vec3>, s: seq<ParticleState>, mu: real)
    requires |m| == |p| && |s| == |p|
    requires forall i :: 0 <= i < |m| ==> m[i] == mu && s[i] == RigidBody
    ensures WeightedSum(m, p) == Scale(mu, RigidSum(p, s))
  {
    if |m| > 0 {
      var k := |m| - 1;
      UniformWeightedSum(m[..k], p[..k], s[..k], mu);
      var w := RigidSum(p[..k], s[..k]);
      assert mu * (w.x + p[k].x) == mu * w.x + mu * p[k].x;
      assert mu * (w.y + p[k].y) == mu * w.y + mu * p[k].y;
      assert mu * (w.z + p[k].z) == mu * w.z + mu * p[k].z;
    }
  }

  lemma ScaleZero(mu: real, v: Vec3)
    requires mu > 0.0 && Scale(mu, v) == Zero
    ensures v == Zero
  {
    assert mu * v.x == 0.0 && mu * v.y == 0.0 && mu * v.z == 0.0;
  }

  /**
   * With equal masses the two centroids agree: a rigid cluster whose radius
   * vectors balance by mass is put back with its unweighted centroid
   * exactly at c.
   */
  lemma EqualMassesKeepCentroid(s: State, dt: real, mu: real)
    requires s.WellSized() && dt > 0.0 && s.AllRigid() && s.Count() > 0 && mu > 0.0
    requires forall i :: 0 <= i < s.Count() ==> s.mass[i] == mu
    requires WeightedSum(s.mass, s.radiusVector) == Zero
    ensures Centroid(Matching(s, dt).position, s.state) == Centroid(s.position, s.state)
  {
    UniformWeightedSum(s.mass, s.radiusVector, s.state, mu);
    var v := RigidSum(s.radiusVector, s.state);
    ScaleZero(mu, v);
    assert Centroid(s.radiusVector, s.state) == Zero by {
      assert v == Zero;
    }
    MatchedCentroid(s, dt);
  }

  /**
   * Two particles resting side by side at height 10, masses 1 and 3, with
   * zero penalty forces to start with: the first step moves them sideways
   * by -0.25 although no horizontal force acts on them, because the
   * reference offsets are taken from the mass-weighted barycenter
   * (x = 0.75) while matching places them around the unweighted centroid
   * (x = 0.5). The velocity rebuilt from that jump carries the drift on.
   */
  lemma UnequalMassesDrift(s: State, dt: real)
    requires s.WellSized() && dt > 0.0 && s.steps == 0
    requires s.position == [Vec3(0.0, 10.0, 0.0), Vec3(1.0, 10.0, 0.0)]
    requires s.mass == [1.0, 3.0] && s.velocity == [Zero, Zero] && s.penaltyForce == [Zero, Zero]
    ensures Step(s, dt).position[0].x == -0.25 && Step(s, dt).position[1].x == 0.75
    ensures dt * Step(s, dt).velocity[0].x == -0.25 && dt * Step(s, dt).velocity[1].x == -0.25
    ensures Step(s, dt).state == [RigidBody, RigidBody] && Step(s, dt).penaltyForce == [Zero, Zero]
    ensures Step(s, dt).radiusVector[0].x == -0.75 && Step(s, dt).radiusVector[1].x == 0.25
  {
    var b := ComputeBarycenter(SetStates(s));
    DriftReference(s);
    var c := CollisionResponse(b);
    assert c.penaltyForce == b.penaltyForce;
    assert c == b;
    DriftMatch(b, dt, 0.0);
    assert Step(s, dt) == ShapeMatching(b, dt).(steps := 1);
  }

  /**
   * The drift of UnequalMassesDrift grows: the second step moves the pair
   * by a further -0.5, to x = -0.75 and x = 0.25, since integration first
   * carries the -0.25 of the rebuilt velocity and matching then adds the
   * same -0.25 offset again.
   */
  lemma DriftAccelerates(s: State, dt: real)
    requires s.WellSized() && dt > 0.0 && s.steps == 0
    requires s.position == [Vec3(0.0, 10.0, 0.0), Vec3(1.0, 10.0, 0.0)]
    requires s.mass == [1.0, 3.0] && s.velocity == [Zero, Zero] && s.penaltyForce == [Zero, Zero]
    ensures Step(Step(s, dt), dt).position[0].x == -0.75 && Step(Step(s, dt), dt).position[1].x == 0.25
  {
    UnequalMassesDrift(s, dt);
    DriftLaterStep(Step(s, dt), dt, -0.25);
  }

  /**
   * A later step of the example of UnequalMassesDrift, along x: the pair,
   * each particle moving by u per tick, is recentred on the mean of its
   * drifted positions.
   */
  lemma DriftLaterStep(s: State, dt: real, u: real)
    requires s.WellSized() && s.PositiveMasses() && dt > 0.0 && s.steps > 0
    requires s.state == [RigidBody, RigidBody] && s.penaltyForce == [Zero, Zero]
    requires dt * s.velocity[0].x == u && dt * s.velocity[1].x == u
    requires s.radiusVector[0].x == -0.75 && s.radiusVector[1].x == 0.25
    ensures Step(s, dt).position[0].x == (s.position[0].x + s.position[1].x) / 2.0 + u - 0.75
    ensures Step(s, dt).position[1].x == (s.position[0].x + s.position[1].x) / 2.0 + u + 0.25
  {
    var r := CollisionResponse(s);
    NoHorizontalPenalty(s);
    LaterStep(s, dt);
    DriftMatch(r, dt, u);
  }

  /** A later step is the contact response followed by shape matching. */
  lemma LaterStep(s: State, dt: real)
    requires s.WellSized() && s.PositiveMasses() && dt > 0.0 && s.steps > 0
    ensures CollisionResponse(s).WellSized() && CollisionResponse(s).PositiveMasses()
    ensures Step(s, dt) == ShapeMatching(CollisionResponse(s), dt).(steps := s.steps + 1)
  {
    assert CollisionResponse(s).mass == s.mass;
  }

  /** The contact response of a pair that has no penalty force yet acts along y only. */
  lemma NoHorizontalPenalty(s: State)
    requires s.WellSized() && s.penaltyForce == [Zero, Zero]
    ensures CollisionResponse(s).state == s.state
    ensures CollisionResponse(s).velocity == s.velocity && CollisionResponse(s).position == s.position
    ensures CollisionResponse(s).radiusVector == s.radiusVector
    ensures CollisionResponse(s).penaltyForce[0].x == 0.0 && CollisionResponse(s).penaltyForce[1].x == 0.0
  {
    var r := CollisionResponse(s);
    assert r.(penaltyForce := s.penaltyForce) == s;
  }

  /** The reference shape of the example of UnequalMassesDrift. */
  lemma DriftReference(s: State)
    requires s.WellSized()
    requires s.position == [Vec3(0.0, 10.0, 0.0), Vec3(1.0, 10.0, 0.0)]
    requires s.mass == [1.0, 3.0] && s.velocity == [Zero, Zero] && s.penaltyForce == [Zero, Zero]
    ensures ComputeBarycenter(SetStates(s)).position == s.position
    ensures ComputeBarycenter(SetStates(s)).mass == s.mass
    ensures ComputeBarycenter(SetStates(s)).velocity == s.velocity
    ensures ComputeBarycenter(SetStates(s)).penaltyForce == s.penaltyForce
    ensures ComputeBarycenter(SetStates(s)).state == [RigidBody, RigidBody]
    ensures ComputeBarycenter(SetStates(s)).radiusVector[0].x == -0.75
    ensures ComputeBarycenter(SetStates(s)).radiusVector[1].x == 0.25
  {
    var a := SetStates(s);
    var b := ComputeBarycenter(a);
    assert a.position == s.position && a.mass == s.mass;
    DriftSums(s.mass, s.position);
    assert 4.0 * b.barycenter.x == 3.0;
    assert a.state == [RigidBody, RigidBody];
  }

  /** The sums of the example of UnequalMassesDrift. */
  lemma DriftSums(m: seq<real>, p: seq<Vec3>)
    requires m == [1.0, 3.0] && p == [Vec3(0.0, 10.0, 0.0), Vec3(1.0, 10.0, 0.0)]
    ensures TotalMass(m) == 4.0 && WeightedSum(m, p).x == 3.0
  {
    assert m[..1] == [1.0] && m[..1][..0] == [];
    assert p[..1] == [p[0]] && p[..1][..0] == [];
    assert TotalMass(m[..1][..0]) == 0.0;
    assert TotalMass(m[..1]) == 1.0;
    assert WeightedSum(m[..1][..0], p[..1][..0]) == Zero;
    assert WeightedSum(m[..1], p[..1]).x == 0.0;
  }

  /**
   * Shape matching of the example of UnequalMassesDrift, along x: with no
   * horizontal force each particle first drifts by u = dt * velocity.x;
   * matching then centres the pair on the mean of those positions.
   */
  lemma DriftMatch(s: State, dt: real, u: real)
    requires s.WellSized() && s.PositiveMasses() && dt > 0.0
    requires s.state == [RigidBody, RigidBody]
    requires s.penaltyForce[0].x == 0.0 && s.penaltyForce[1].x == 0.0
    requires dt * s.velocity[0].x == u && dt * s.velocity[1].x == u
    requires s.radiusVector[0].x == -0.75 && s.radiusVector[1].x == 0.25
    ensures ShapeMatching(s, dt).position[0].x == (s.position[0].x + s.position[1].x) / 2.0 + u - 0.75
    ensures ShapeMatching(s, dt).position[1].x == (s.position[0].x + s.position[1].x) / 2.0 + u + 0.25
    ensures dt * ShapeMatching(s, dt).velocity[0].x == ShapeMatching(s, dt).position[0].x - s.position[0].x
    ensures dt * ShapeMatching(s, dt).velocity[1].x == ShapeMatching(s, dt).position[1].x - s.position[1].x
  {
    var t := Integrate(s, dt);
    assert t.state == s.state;
    assert s.Rigid(0) && s.Rigid(1);
    assert t.velocity[0].x == s.velocity[0].x by {
      assert t.velocity[0] == Accelerate(s.velocity[0], s.penaltyForce[0], s.mass[0], dt);
    }
    assert t.velocity[1].x == s.velocity[1].x by {
      assert t.velocity[1] == Accelerate(s.velocity[1], s.penaltyForce[1], s.mass[1], dt);
    }
    assert t.position[0].x == s.position[0].x + u;
    assert t.position[1].x == s.position[1].x + u;
    assert RigidSum(t.position, t.state).x == t.position[0].x + t.position[1].x by {
      assert t.position[..1] == [t.position[0]] && t.state[..1] == [RigidBody];
      assert t.position[..1][..0] == [] && t.state[..1][..0] == [];
      assert RigidSum(t.position[..1][..0], t.state[..1][..0]) == Zero;
      assert RigidSum(t.position[..1], t.state[..1]).x == t.position[0].x;
    }
    assert Centroid(t.position, s.state).x == (t.position[0].x + t.position[1].x) / 2.0;
    MatchedShapeIsRigid(s, dt);
    ShapeMatchingVelocity(s, dt);
  }
}
