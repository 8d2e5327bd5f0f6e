/**
 * The rigid cluster of RigidBody.cpp as a value: the active prefix of the
 * host arrays, the kernel's own per-particle scratch arrays and its scalar
 * fields, and one function per pass of the per-tick pipeline. The class in
 * RigidBody.dfy runs these passes in place and is proved to produce exactly
 * the values computed here.
 */
module Cluster {
  import opened Vectors
  import opened Host

  /** The gravity vector g of shapeMatching and animateParticles. */
  const Gravity: Vec3 := Vec3(0.0, -9.8, 0.0)

  /** Stiffness k of the penalty force. */
  const Stiffness: real := 100.0

  /** Padding eps: the height of the contact plane. */
  const Padding: real := 0.0

  /** Contact normal n_dir. */
  const Up: Vec3 := Vec3(0.0, 1.0, 0.0)

  // ---------------------------------------------------------------------
  // Running sums, accumulated front to back exactly as the source's loops do

  /** sum_mass: the sum of the masses. */
  function TotalMass(m: seq<real>): real
  {
    if |m| == 0 then 0.0 else TotalMass(m[..|m| - 1]) + m[|m| - 1]
  }

  /** sum_mass_pos: the sum of mass_i * x_i. */
  function WeightedSum(m: seq<real>, p: seq<Vec3>): Vec3
    requires |m| == |p|
  {
    if |m| == 0 then Zero
    else Add(WeightedSum(m[..|m| - 1], p[..|p| - 1]), Scale(m[|m| - 1], p[|p| - 1]))
  }

  /** The sum of the positions of the particles whose state is RigidBody. */
  function RigidSum(p: seq<Vec3>, s: seq<ParticleState>): Vec3
    requires |p| == |s|
  {
    if |p| == 0 then Zero
    else
      var rest := RigidSum(p[..|p| - 1], s[..|s| - 1]);
      if s[|s| - 1] == RigidBody then Add(rest, p[|p| - 1]) else rest
  }

  /** The number of particles whose state is RigidBody. */
  function RigidCount(s: seq<ParticleState>): nat
  {
    if |s| == 0 then 0
    else RigidCount(s[..|s| - 1]) + (if s[|s| - 1] == RigidBody then 1 else 0)
  }

  // ---------------------------------------------------------------------
  // Per-particle quantities

  /** Offsets of every position from b: the radius vectors. */
  function Offsets(p: seq<Vec3>, b: Vec3): (r: seq<Vec3>)
    ensures |r| == |p|
    ensures forall i :: 0 <= i < |p| ==> Add(b, r[i]) == p[i]
  {
    seq(|p|, i requires 0 <= i < |p| => Sub(p[i], b))
  }

  /** The mass-weighted centroid sum_mass_pos / sum_mass. */
  function Barycenter(m: seq<real>, p: seq<Vec3>): (b: Vec3)
    requires |m| == |p| && TotalMass(m) != 0.0
    ensures Scale(TotalMass(m), b) == WeightedSum(m, p)
  {
    Div(WeightedSum(m, p), TotalMass(m))
  }

  /**
   * The centroid c of shapeMatching: the sum of the rigid particles'
   * positions divided by the number of ALL active particles, unweighted by
   * mass. With no active particle c is never used; it is Zero here.
   */
  function Centroid(p: seq<Vec3>, s: seq<ParticleState>): (c: Vec3)
    requires |p| == |s|
    ensures |p| > 0 ==> Scale(|p| as real, c) == RigidSum(p, s)
  {
    if |p| == 0 then Zero else Div(RigidSum(p, s), |p| as real)
  }

  /** The penalty force k * |phi| * n_dir on a particle at height phi. */
  function Penalty(phi: real): (r: Vec3)
    ensures r.x == 0.0 && r.z == 0.0 && r.y >= 0.0
  {
    Scale(Stiffness * Abs(phi), Up)
  }

  /** vel + (g + penalty) * (1 / mass) * dt */
  function Accelerate(v: Vec3, pf: Vec3, m: real, dt: real): Vec3
    requires m != 0.0
  {
    Add(v, Scale(dt, Scale(1.0 / m, Add(Gravity, pf))))
  }

  /** pos + vel * dt */
  function Advance(x: Vec3, v: Vec3, dt: real): Vec3
  {
    Add(x, Scale(dt, v))
  }

  // ---------------------------------------------------------------------
  // The cluster state

  /**
   * position, velocity, mass and state are the active particles of the
   * host; penaltyForce, radiusVector and oldPosition are the kernel's
   * scratch arrays; barycenter, totalMass and steps its scalar fields.
   */
  datatype State = State(
    position: seq<Vec3>,
    velocity: seq<Vec3>,
    mass: seq<real>,
    state: seq<ParticleState>,
    penaltyForce: seq<Vec3>,
    radiusVector: seq<Vec3>,
    oldPosition: seq<Vec3>,
    barycenter: Vec3,
    totalMass: real,
    steps: nat)
  {
    /** numActiveParticles() */
    function Count(): nat
    {
      |position|
    }

    /** Every per-particle sequence has one entry per active particle. */
    predicate WellSized()
    {
      |velocity| == |position| && |mass| == |position| && |state| == |position| &&
      |penaltyForce| == |position| && |radiusVector| == |position| && |oldPosition| == |position|
    }

    predicate PositiveMasses()
    {
      forall i :: 0 <= i < |mass| ==> mass[i] > 0.0
    }

    /** Particle i is active and its state is RigidBody. */
    predicate Rigid(i: int)
    {
      0 <= i < |state| && state[i] == RigidBody
    }

    predicate AllRigid()
    {
      forall i :: 0 <= i < |state| ==> state[i] == RigidBody
    }
  }

  // ---------------------------------------------------------------------
  // The passes of one tick

  /** setStates: every active particle becomes RigidBody; nothing else changes. */
  function SetStates(s: State): (r: State)
    requires s.WellSized()
    ensures r.WellSized() && r.Count() == s.Count()
    ensures forall i :: 0 <= i < r.Count() ==> r.Rigid(i)
    ensures r.(state := s.state) == s
  {
    s.(state := seq(|s.state|, _ => RigidBody))
  }

  /**
   * computeBarycenter: nothing happens without active particles; otherwise
   * the total mass, the mass-weighted barycenter and every particle's
   * radius vector (its offset from the barycenter) are recorded.
   */
  function ComputeBarycenter(s: State): (r: State)
    requires s.WellSized() && s.PositiveMasses()
    ensures r.WellSized() && r.Count() == s.Count()
    ensures s.Count() == 0 ==> r == s
    ensures s.Count() > 0 ==>
      r.totalMass == TotalMass(s.mass) && r.totalMass > 0.0 &&
      Scale(r.totalMass, r.barycenter) == WeightedSum(s.mass, s.position) &&
      (forall i :: 0 <= i < s.Count() ==> Add(r.barycenter, r.radiusVector[i]) == s.position[i])
    ensures r.(barycenter := s.barycenter, totalMass := s.totalMass, radiusVector := s.radiusVector) == s
  {
    if s.Count() == 0 then s
    else
      TotalMassPositive(s.mass);
      var b := Barycenter(s.mass, s.position);
      s.(totalMass := TotalMass(s.mass), barycenter := b, radiusVector := Offsets(s.position, b))
  }

  /**
   * collision_response: a particle below the plane y = 0, whatever its
   * state, gets the upward force 100 * depth; every other particle keeps
   * the penalty force it had. Nothing else changes.
   */
  function CollisionResponse(s: State): (r: State)
    requires s.WellSized()
    ensures r.WellSized() && r.Count() == s.Count()
    ensures forall i :: 0 <= i < s.Count() && s.position[i].y < 0.0 ==>
      r.penaltyForce[i] == Vec3(0.0, -100.0 * s.position[i].y, 0.0)
    ensures forall i :: 0 <= i < s.Count() && s.position[i].y >= 0.0 ==>
      r.penaltyForce[i] == s.penaltyForce[i]
    ensures r.(penaltyForce := s.penaltyForce) == s
  {
    s.(penaltyForce := seq(s.Count(), i requires 0 <= i < s.Count() =>
      if s.position[i].y < Padding then Penalty(s.position[i].y) else s.penaltyForce[i]))
  }

  /**
   * The first loop of shapeMatching: each rigid particle records its
   * position in oldPosition, then takes one semi-implicit Euler step under
   * gravity plus its penalty force. Other particles are untouched.
   */
  function Integrate(s: State, dt: real): (r: State)
    requires s.WellSized() && s.PositiveMasses()
    ensures r.WellSized() && r.Count() == s.Count()
    ensures forall i :: s.Rigid(i) ==>
      r.oldPosition[i] == s.position[i] && r.position[i] == Add(s.position[i], Scale(dt, r.velocity[i]))
    ensures forall i :: 0 <= i < s.Count() && !s.Rigid(i) ==>
      r.position[i] == s.position[i] && r.velocity[i] == s.velocity[i] &&
      r.oldPosition[i] == s.oldPosition[i]
    ensures r.(position := s.position, velocity := s.velocity, oldPosition := s.oldPosition) == s
  {
    var n := s.Count();
    var v := seq(n, i requires 0 <= i < n =>
      if s.state[i] == RigidBody then Accelerate(s.velocity[i], s.penaltyForce[i], s.mass[i], dt)
      else s.velocity[i]);
    s.(oldPosition := seq(n, i requires 0 <= i < n =>
         if s.state[i] == RigidBody then s.position[i] else s.oldPosition[i]),
       velocity := v,
       position := seq(n, i requires 0 <= i < n =>
         if s.state[i] == RigidBody then Advance(s.position[i], v[i], dt) else s.position[i]))
  }

  /**
   * The rest of shapeMatching, with the rotation R fixed to the identity:
   * each rigid particle is placed at c + radius_vector[i] and its velocity
   * is rebuilt from its displacement since oldPosition.
   */
  function Matching(s: State, dt: real): (r: State)
    requires s.WellSized() && dt > 0.0
    ensures r.WellSized() && r.Count() == s.Count()
    ensures forall i :: s.Rigid(i) ==>
      r.position[i] == Add(Centroid(s.position, s.state), s.radiusVector[i]) &&
      Add(s.oldPosition[i], Scale(dt, r.velocity[i])) == r.position[i]
    ensures forall i :: 0 <= i < s.Count() && !s.Rigid(i) ==>
      r.position[i] == s.position[i] && r.velocity[i] == s.velocity[i]
    ensures r.(position := s.position, velocity := s.velocity) == s
  {
    var n := s.Count();
    var c := Centroid(s.position, s.state);
    var p := seq(n, i requires 0 <= i < n =>
      if s.state[i] == RigidBody then Add(c, s.radiusVector[i]) else s.position[i]);
    s.(position := p,
       velocity := seq(n, i requires 0 <= i < n =>
         if s.state[i] == RigidBody then Div(Sub(p[i], s.oldPosition[i]), dt) else s.velocity[i]))
  }

  /** shapeMatching: integration followed by matching. */
  function ShapeMatching(s: State, dt: real): (r: State)
    requires s.WellSized() && s.PositiveMasses() && dt > 0.0
    ensures r.WellSized() && r.Count() == s.Count()
    ensures r.mass == s.mass && r.state == s.state && r.radiusVector == s.radiusVector
    ensures r.penaltyForce == s.penaltyForce
    ensures r.barycenter == s.barycenter && r.totalMass == s.totalMass && r.steps == s.steps
  {
    Matching(Integrate(s, dt), dt)
  }

  /**
   * animateParticles: the explicit integration pass that the step does not
   * run: vel += h * (g + penalty) / mass; pos += h * vel for each rigid
   * particle, and nothing at all without active particles.
   */
  function AnimateParticles(s: State, h: real): (r: State)
    requires s.WellSized() && s.PositiveMasses()
    ensures r.WellSized() && r.Count() == s.Count()
    ensures r.(position := s.position, velocity := s.velocity) == s
  {
    var n := s.Count();
    if n == 0 then s
    else
      var v := seq(n, i requires 0 <= i < n =>
        if s.state[i] == RigidBody then Add(s.velocity[i], Div(Scale(h, Add(Gravity, s.penaltyForce[i])), s.mass[i]))
        else s.velocity[i]);
      s.(velocity := v,
         position := seq(n, i requires 0 <= i < n =>
           if s.state[i] == RigidBody then Add(s.position[i], Scale(h, v[i])) else s.position[i]))
  }

  /**
   * step: on the first call (the counter is 0) mark every particle rigid
   * and build the reference shape; on every call run the contact response
   * and then shape matching; count the call.
   */
  function Step(s: State, dt: real): (r: State)
    requires s.WellSized() && s.PositiveMasses() && dt > 0.0
    ensures r.WellSized() && r.PositiveMasses() && r.Count() == s.Count()
    ensures r.steps == s.steps + 1 && r.mass == s.mass
  {
    var init := if s.steps == 0 then ComputeBarycenter(SetStates(s)) else s;
    ShapeMatching(CollisionResponse(init), dt).(steps := s.steps + 1)
  }

  // ---------------------------------------------------------------------
  // Reference shape

  /** The total mass of a non-empty set of positive masses is positive. */
  lemma {:induction false} TotalMassPositive(m: seq<real>)
    requires |m| > 0
    requires forall i :: 0 <= i < |m| ==> m[i] > 0.0
    ensures TotalMass(m) > 0.0
  {
    if |m| > 1 {
      TotalMassPositive(m[..|m| - 1]);
    }
  }

  /** One step of WeightedSumOfOffsets: distributivity, then regrouping. */
  lemma ShiftStep(w: Vec3, t: real, mk: real, pk: Vec3, b: Vec3)
    ensures Add(Sub(w, Scale(t, b)), Scale(mk, Sub(pk, b))) == Sub(Add(w, Scale(mk, pk)), Scale(t + mk, b))
  {
    var tb, mb, mp := Scale(t, b), Scale(mk, b), Scale(mk, pk);
    ScaleSub(mk, pk, b);
    ScaleSum(t, mk, b);
    Regroup(w, tb, mp, mb);
  }

  /** k * (a - b) == k * a - k * b */
  lemma ScaleSub(k: real, a: Vec3, b: Vec3)
    ensures Scale(k, Sub(a, b)) == Sub(Scale(k, a), Scale(k, b))
  {
    assert k * (a.x - b.x) == k * a.x - k * b.x;
    assert k * (a.y - b.y) == k * a.y - k * b.y;
    assert k * (a.z - b.z) == k * a.z - k * b.z;
  }

  /** (s + t) * a == s * a + t * a */
  lemma ScaleSum(s: real, t: real, a: Vec3)
    ensures Scale(s + t, a) == Add(Scale(s, a), Scale(t, a))
  {
    assert (s + t) * a.x == s * a.x + t * a.x;
    assert (s + t) * a.y == s * a.y + t * a.y;
    assert (s + t) * a.z == s * a.z + t * a.z;
  }

  /** (w - a) + (p - b) == (w + p) - (a + b) */
  lemma Regroup(w: Vec3, a: Vec3, p: Vec3, b: Vec3)
    ensures Add(Sub(w, a), Sub(p, b)) == Sub(Add(w, p), Add(a, b))
  {
  }

  /** Shifting every position by -b shifts the weighted sum by -(total mass) * b. */
  lemma {:induction false} WeightedSumOfOffsets(m: seq<real>, p: seq<Vec3>, b: Vec3)
    requires |m| == |p|
    ensures WeightedSum(m, Offsets(p, b)) == Sub(WeightedSum(m, p), Scale(TotalMass(m), b))
  {
    if |m| > 0 {
      var k := |m| - 1;
      var o := Offsets(p, b);
      assert o[..k] == Offsets(p[..k], b);
      WeightedSumOfOffsets(m[..k], p[..k], b);
      calc {
        WeightedSum(m, o);
        Add(WeightedSum(m[..k], o[..k]), Scale(m[k], o[k]));
        Add(Sub(WeightedSum(m[..k], p[..k]), Scale(TotalMass(m[..k]), b)), Scale(m[k], Sub(p[k], b)));
        { ShiftStep(WeightedSum(m[..k], p[..k]), TotalMass(m[..k]), m[k], p[k], b); }
        Sub(Add(WeightedSum(m[..k], p[..k]), Scale(m[k], p[k])), Scale(TotalMass(m[..k]) + m[k], b));
      }
    }
  }

  /**
   * The radius vectors built by computeBarycenter balance: the
   * mass-weighted sum of the offsets from the barycenter is zero.
   */
  lemma ReferenceShapeBalanced(s: State)
    requires s.WellSized() && s.PositiveMasses() && s.Count() > 0
    ensures WeightedSum(s.mass, ComputeBarycenter(s).radiusVector) == Zero
  {
    var r := ComputeBarycenter(s);
    assert r.radiusVector == Offsets(s.position, r.barycenter);
    WeightedSumOfOffsets(s.mass, s.position, r.barycenter);
  }
}
