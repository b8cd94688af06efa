/**
 * The closed-form velocity responses that the physics step applies to a started contact:
 * reflection of a velocity about a contact normal (used when either shape is a cuboid), and a
 * one-dimensional elastic collision along the centre line of two discs, whose change is added
 * back to each disc's full velocity.
 */
module Collision {
  import opened Vectors

  // ---------------------------------------------------------------------------------------
  // Reflection off a contact normal: v' = v - 2 (v . n) n
  // ---------------------------------------------------------------------------------------

  /** The new normal component is the old one times 1 - 2|n|², so -1 times it for a unit n. */
  function Reflect(v: Vec2, n: Vec2): (r: Vec2)
    ensures Dot(r, n) == Dot(v, n) * (1.0 - 2.0 * NormSq(n))
  {
    DotSubScale(v, 2.0 * Dot(v, n), n, n);
    Sub(v, Scale(2.0 * Dot(v, n), n))
  }

  /** Against a unit normal, the normal component of the velocity changes sign. */
  lemma ReflectFlipsNormal(v: Vec2, n: Vec2)
    requires IsUnit(n)
    ensures Dot(Reflect(v, n), n) == -Dot(v, n)
  {
    DotSubScale(v, 2.0 * Dot(v, n), n, n);
  }

  /** Every component orthogonal to the normal is left as it was. */
  lemma ReflectKeepsTangent(v: Vec2, n: Vec2, t: Vec2)
    requires Dot(n, t) == 0.0
    ensures Dot(Reflect(v, n), t) == Dot(v, t)
  {
    DotSubScale(v, 2.0 * Dot(v, n), n, t);
  }

  /** Reflecting twice about the same unit normal gives back the original velocity. */
  lemma ReflectInvolutive(v: Vec2, n: Vec2)
    requires IsUnit(n)
    ensures Reflect(Reflect(v, n), n) == v
  {
    var w := Reflect(v, n);
    ReflectFlipsNormal(v, n);
    assert Dot(w, n) == -Dot(v, n);
    calc {
      Reflect(w, n);
      Sub(w, Scale(2.0 * Dot(w, n), n));
      Sub(Sub(v, Scale(2.0 * Dot(v, n), n)), Scale(-2.0 * Dot(v, n), n));
      v;
    }
  }

  /** Reflection about a unit normal keeps the speed. */
  lemma ReflectKeepsSpeed(v: Vec2, n: Vec2)
    requires IsUnit(n)
    ensures NormSq(Reflect(v, n)) == NormSq(v)
  {
    var d := Dot(v, n);
    NormSqAlong(v, -2.0 * d, n);
    assert Reflect(v, n) == Add(v, Scale(-2.0 * d, n));
    assert NormSq(Reflect(v, n)) == NormSq(v) - 4.0 * d * d + 4.0 * d * d;
  }

  /** A body at rest (such as a static wall) stays at rest. */
  lemma ReflectZero(n: Vec2)
    ensures Reflect(ZERO, n) == ZERO
  {
  }

  // ---------------------------------------------------------------------------------------
  // One-dimensional elastic collision along the centre line of two discs
  // ---------------------------------------------------------------------------------------

  /**
   * Final axial velocities (v1cf, v2cf) of two bodies with masses m1, m2 and initial axial
   * velocities u1, u2. The total mass is the divisor, hence the precondition.
   */
  function AxialElastic(m1: real, m2: real, u1: real, u2: real): (r: (real, real))
    requires m1 + m2 > 0.0
    ensures m1 * r.0 + m2 * r.1 == m1 * u1 + m2 * u2
  {
    var w1 := (u1 * (m1 - m2) + 2.0 * m2 * u2) / (m1 + m2);
    var w2 := (u2 * (m2 - m1) + 2.0 * m1 * u1) / (m1 + m2);
    AxialImpulse(m1, m2, u1, u2, w1, w2);
    (w1, w2)
  }

  /**
   * The elastic formulas exchange an impulse 2 m1 m2 q with q = (u2 - u1) / (m1 + m2):
   * the first body gains 2 m2 q of velocity and the second loses 2 m1 q.
   */
  lemma AxialImpulse(m1: real, m2: real, u1: real, u2: real, w1: real, w2: real)
    requires m1 + m2 > 0.0
    requires w1 == (u1 * (m1 - m2) + 2.0 * m2 * u2) / (m1 + m2)
    requires w2 == (u2 * (m2 - m1) + 2.0 * m1 * u1) / (m1 + m2)
    ensures w1 == u1 + 2.0 * m2 * ((u2 - u1) / (m1 + m2))
    ensures w2 == u2 - 2.0 * m1 * ((u2 - u1) / (m1 + m2))
  {
    var total := m1 + m2;
    var q := (u2 - u1) / total;
    assert q * total == u2 - u1;
    assert (u1 + 2.0 * m2 * q) * total == u1 * (m1 - m2) + 2.0 * m2 * u2;
    assert (u2 - 2.0 * m1 * q) * total == u2 * (m2 - m1) + 2.0 * m1 * u1;
    QuotientUnique(u1 * (m1 - m2) + 2.0 * m2 * u2, total, u1 + 2.0 * m2 * q);
    QuotientUnique(u2 * (m2 - m1) + 2.0 * m1 * u1, total, u2 - 2.0 * m1 * q);
  }

  lemma QuotientUnique(a: real, d: real, b: real)
    requires d != 0.0 && b * d == a
    ensures a / d == b
  {
  }

  /** The axial formulas conserve kinetic energy (written without the factor 1/2). */
  lemma AxialElasticKeepsEnergy(m1: real, m2: real, u1: real, u2: real)
    requires m1 + m2 > 0.0
    ensures var r := AxialElastic(m1, m2, u1, u2);
      m1 * r.0 * r.0 + m2 * r.1 * r.1 == m1 * u1 * u1 + m2 * u2 * u2
  {
    var r := AxialElastic(m1, m2, u1, u2);
    var q := (u2 - u1) / (m1 + m2);
    AxialImpulse(m1, m2, u1, u2, r.0, r.1);
    assert q * (m1 + m2) == u2 - u1;
    calc {
      m1 * r.0 * r.0 + m2 * r.1 * r.1;
      m1 * (u1 + 2.0 * m2 * q) * (u1 + 2.0 * m2 * q) + m2 * (u2 - 2.0 * m1 * q) * (u2 - 2.0 * m1 * q);
      m1 * u1 * u1 + m2 * u2 * u2 + 4.0 * m1 * m2 * q * ((u1 - u2) + (m1 + m2) * q);
      m1 * u1 * u1 + m2 * u2 * u2;
    }
  }

  /** Two bodies of equal mass exchange their axial velocities. */
  lemma AxialElasticEqualMassSwaps(m: real, u1: real, u2: real)
    requires m > 0.0
    ensures AxialElastic(m, m, u1, u2) == (u2, u1)
  {
    var r := AxialElastic(m, m, u1, u2);
    AxialImpulse(m, m, u1, u2, r.0, r.1);
    assert 2.0 * m * ((u2 - u1) / (m + m)) == u2 - u1;
  }

  // ---------------------------------------------------------------------------------------
  // The disc-disc response on full 2D velocities
  // ---------------------------------------------------------------------------------------

  /**
   * New velocities of two discs meeting along the collision axis `axis` (the normalised vector
   * from the second centre to the first). Both results are computed from the velocities before
   * the collision; each disc's velocity changes only along the axis.
   */
  function DiscResponse(v1: Vec2, v2: Vec2, m1: real, m2: real, axis: Vec2): (r: (Vec2, Vec2))
    requires m1 + m2 > 0.0
    ensures Cross(Sub(r.0, v1), axis) == 0.0 && Cross(Sub(r.1, v2), axis) == 0.0
  {
    var u1 := Dot(v1, axis);
    var u2 := Dot(v2, axis);
    var w := AxialElastic(m1, m2, u1, u2);
    var k1 := w.0 - u1;
    var k2 := w.1 - u2;
    ShiftIsAlong(v1, k1, axis);
    ShiftIsAlong(v2, k2, axis);
    (Add(v1, Scale(k1, axis)), Add(v2, Scale(k2, axis)))
  }

  /** Moving v by k along a leaves a difference parallel to a. */
  lemma ShiftIsAlong(v: Vec2, k: real, a: Vec2)
    ensures Cross(Sub(Add(v, Scale(k, a)), v), a) == 0.0
  {
    assert Sub(Add(v, Scale(k, a)), v) == Scale(k, a);
    assert k * a.x * a.y - k * a.y * a.x == k * (a.x * a.y - a.y * a.x);
  }

  /** Along a unit axis, the new velocities have exactly the axial values of the 1-D formulas. */
  lemma DiscResponseAxial(v1: Vec2, v2: Vec2, m1: real, m2: real, axis: Vec2)
    requires m1 + m2 > 0.0 && IsUnit(axis)
    ensures var r := DiscResponse(v1, v2, m1, m2, axis);
      (Dot(r.0, axis), Dot(r.1, axis)) == AxialElastic(m1, m2, Dot(v1, axis), Dot(v2, axis))
  {
    var u1, u2 := Dot(v1, axis), Dot(v2, axis);
    var w := AxialElastic(m1, m2, u1, u2);
    DotAddScale(v1, w.0 - u1, axis, axis);
    DotAddScale(v2, w.1 - u2, axis, axis);
  }

  /** Velocity components perpendicular to the axis are preserved. */
  lemma DiscResponseKeepsPerpendicular(v1: Vec2, v2: Vec2, m1: real, m2: real, axis: Vec2, t: Vec2)
    requires m1 + m2 > 0.0 && Dot(axis, t) == 0.0
    ensures var r := DiscResponse(v1, v2, m1, m2, axis);
      Dot(r.0, t) == Dot(v1, t) && Dot(r.1, t) == Dot(v2, t)
  {
    var u1, u2 := Dot(v1, axis), Dot(v2, axis);
    var w := AxialElastic(m1, m2, u1, u2);
    DotAddScale(v1, w.0 - u1, axis, t);
    DotAddScale(v2, w.1 - u2, axis, t);
  }

  /** The pair's total momentum m1 v1 + m2 v2 is conserved. */
  lemma DiscResponseKeepsMomentum(v1: Vec2, v2: Vec2, m1: real, m2: real, axis: Vec2)
    requires m1 + m2 > 0.0
    ensures var r := DiscResponse(v1, v2, m1, m2, axis);
      Add(Scale(m1, r.0), Scale(m2, r.1)) == Add(Scale(m1, v1), Scale(m2, v2))
  {
    var u1, u2 := Dot(v1, axis), Dot(v2, axis);
    var w := AxialElastic(m1, m2, u1, u2);
    DiscResponseShape(v1, v2, m1, m2, axis);
    ShiftsBalance(m1, m2, u1, u2, w.0, w.1);
    PairShift(m1, m2, v1, v2, w.0 - u1, w.1 - u2, axis, DiscResponse(v1, v2, m1, m2, axis));
  }

  /** The response moves each velocity along the axis by its change of axial velocity. */
  lemma DiscResponseShape(v1: Vec2, v2: Vec2, m1: real, m2: real, axis: Vec2)
    requires m1 + m2 > 0.0
    ensures var w := AxialElastic(m1, m2, Dot(v1, axis), Dot(v2, axis));
      DiscResponse(v1, v2, m1, m2, axis)
        == (Add(v1, Scale(w.0 - Dot(v1, axis), axis)), Add(v2, Scale(w.1 - Dot(v2, axis), axis)))
  {
  }

  /** Velocity changes that conserve axial momentum have zero weighted sum. */
  lemma ShiftsBalance(m1: real, m2: real, u1: real, u2: real, w1: real, w2: real)
    requires m1 * w1 + m2 * w2 == m1 * u1 + m2 * u2
    ensures m1 * (w1 - u1) + m2 * (w2 - u2) == 0.0
  {
  }

  /** Moving two velocities along a common direction by balanced amounts keeps their momentum. */
  lemma PairShift(m1: real, m2: real, v1: Vec2, v2: Vec2, k1: real, k2: real, a: Vec2, r: (Vec2, Vec2))
    requires m1 * k1 + m2 * k2 == 0.0
    requires r == (Add(v1, Scale(k1, a)), Add(v2, Scale(k2, a)))
    ensures Add(Scale(m1, r.0), Scale(m2, r.1)) == Add(Scale(m1, v1), Scale(m2, v2))
  {
    WeightedShift(m1, m2, v1.x, v2.x, k1, k2, a.x, r.0.x, r.1.x);
    WeightedShift(m1, m2, v1.y, v2.y, k1, k2, a.y, r.0.y, r.1.y);
  }

  /** Shifts along a common direction c whose weighted sum is zero leave the weighted sum alone. */
  lemma WeightedShift(m1: real, m2: real, a1: real, a2: real, k1: real, k2: real, c: real, b1: real, b2: real)
    requires m1 * k1 + m2 * k2 == 0.0
    requires b1 == a1 + k1 * c && b2 == a2 + k2 * c
    ensures m1 * b1 + m2 * b2 == m1 * a1 + m2 * a2
  {
    assert m1 * b1 + m2 * b2 == m1 * a1 + m2 * a2 + (m1 * k1 + m2 * k2) * c;
  }

  /** With a unit axis, the pair's total kinetic energy m1 |v1|² + m2 |v2|² is conserved. */
  lemma DiscResponseKeepsEnergy(v1: Vec2, v2: Vec2, m1: real, m2: real, axis: Vec2)
    requires m1 + m2 > 0.0 && IsUnit(axis)
    ensures var r := DiscResponse(v1, v2, m1, m2, axis);
      m1 * NormSq(r.0) + m2 * NormSq(r.1) == m1 * NormSq(v1) + m2 * NormSq(v2)
  {
    var u1, u2 := Dot(v1, axis), Dot(v2, axis);
    var w := AxialElastic(m1, m2, u1, u2);
    AxialElasticKeepsEnergy(m1, m2, u1, u2);
    var r := DiscResponse(v1, v2, m1, m2, axis);
    DiscResponseShape(v1, v2, m1, m2, axis);
    AxialShiftSpeed(v1, w.0, axis, r.0);
    AxialShiftSpeed(v2, w.1, axis, r.1);
    EnergyShift(m1, m2, NormSq(v1), NormSq(v2), u1, u2, w.0, w.1, NormSq(r.0), NormSq(r.1));
  }

  /** Giving v the axial component w along a unit axis changes its squared speed by w² - u². */
  lemma AxialShiftSpeed(v: Vec2, w: real, a: Vec2, r: Vec2)
    requires IsUnit(a) && r == Add(v, Scale(w - Dot(v, a), a))
    ensures NormSq(r) == NormSq(v) + w * w - Dot(v, a) * Dot(v, a)
  {
    var u := Dot(v, a);
    NormSqAlong(v, w - u, a);
    assert 2.0 * (w - u) * u + (w - u) * (w - u) == w * w - u * u;
  }

  /** Adding w² - u² to each squared speed keeps the weighted sum when the axial energies agree. */
  lemma EnergyShift(m1: real, m2: real, n1: real, n2: real, u1: real, u2: real, w1: real, w2: real,
                    e1: real, e2: real)
    requires m1 * w1 * w1 + m2 * w2 * w2 == m1 * u1 * u1 + m2 * u2 * u2
    requires e1 == n1 + w1 * w1 - u1 * u1 && e2 == n2 + w2 * w2 - u2 * u2
    ensures m1 * e1 + m2 * e2 == m1 * n1 + m2 * n2
  {
  }

  /** Two discs of equal mass exchange the axial components of their velocities. */
  lemma DiscResponseEqualMassSwaps(v1: Vec2, v2: Vec2, m: real, axis: Vec2)
    requires m > 0.0 && IsUnit(axis)
    ensures var r := DiscResponse(v1, v2, m, m, axis);
      Dot(r.0, axis) == Dot(v2, axis) && Dot(r.1, axis) == Dot(v1, axis)
  {
    DiscResponseAxial(v1, v2, m, m, axis);
    AxialElasticEqualMassSwaps(m, Dot(v1, axis), Dot(v2, axis));
  }

  // ---------------------------------------------------------------------------------------
  // The collision axis: the centre difference divided by its length
  // ---------------------------------------------------------------------------------------

  /**
   * `axis` is (p1 - p2) / |p1 - p2|: a unit vector parallel to p1 - p2 and pointing the same
   * way. This replaces the square root and the division by the distance.
   */
  predicate IsCollisionAxis(p1: Vec2, p2: Vec2, axis: Vec2) {
    IsUnit(axis) && Cross(Sub(p1, p2), axis) == 0.0 && Dot(Sub(p1, p2), axis) > 0.0
  }

  /** A collision axis is the centre difference scaled down by a positive length. */
  lemma CollisionAxisIsCentreLine(p1: Vec2, p2: Vec2, axis: Vec2)
    requires IsCollisionAxis(p1, p2, axis)
    ensures p1 != p2
    ensures Sub(p1, p2) == Scale(Dot(Sub(p1, p2), axis), axis)
  {
    var d := Sub(p1, p2);
    var a := axis;
    assert d.x == Dot(d, a) * a.x + Cross(d, a) * a.y by {
      assert Dot(d, a) * a.x + Cross(d, a) * a.y == d.x * (a.x * a.x + a.y * a.y);
    }
    assert d.y == Dot(d, a) * a.y - Cross(d, a) * a.x by {
      assert Dot(d, a) * a.y - Cross(d, a) * a.x == d.y * (a.x * a.x + a.y * a.y);
    }
  }

  /** Conversely, every unit vector that is a positive rescaling of p1 - p2 is a collision axis. */
  lemma CentreLineIsCollisionAxis(p1: Vec2, p2: Vec2, axis: Vec2, len: real)
    requires IsUnit(axis) && len > 0.0 && Sub(p1, p2) == Scale(len, axis)
    ensures IsCollisionAxis(p1, p2, axis)
  {
    assert Dot(Sub(p1, p2), axis) == len * NormSq(axis);
    assert Cross(Sub(p1, p2), axis) == len * (axis.x * axis.y - axis.y * axis.x);
  }
}
