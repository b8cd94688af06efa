/** Two-dimensional vectors over the reals, standing in for nalgebra's Vector2<f32>. */
module Vectors {

  datatype Vec2 = Vec2(x: real, y: real)

  const ZERO: Vec2 := Vec2(0.0, 0.0)

  function Add(a: Vec2, b: Vec2): Vec2 {
    Vec2(a.x + b.x, a.y + b.y)
  }

  function Sub(a: Vec2, b: Vec2): Vec2 {
    Vec2(a.x - b.x, a.y - b.y)
  }

  function Scale(k: real, a: Vec2): Vec2 {
    Vec2(k * a.x, k * a.y)
  }

  function Dot(a: Vec2, b: Vec2): real {
    a.x * b.x + a.y * b.y
  }

  /** The z-component of the 3D cross product; zero exactly when a and b are parallel. */
  function Cross(a: Vec2, b: Vec2): real {
    a.x * b.y - a.y * b.x
  }

  function NormSq(a: Vec2): real {
    Dot(a, a)
  }

  predicate IsUnit(n: Vec2) {
    NormSq(n) == 1.0
  }

  lemma DotAddScale(v: Vec2, k: real, a: Vec2, t: Vec2)
    ensures Dot(Add(v, Scale(k, a)), t) == Dot(v, t) + k * Dot(a, t)
  {
  }

  lemma DotSubScale(v: Vec2, k: real, a: Vec2, t: Vec2)
    ensures Dot(Sub(v, Scale(k, a)), t) == Dot(v, t) - k * Dot(a, t)
  {
  }

  /** Moving v by k along a unit vector a changes its squared length by 2k(v·a) + k². */
  lemma NormSqAlong(v: Vec2, k: real, a: Vec2)
    requires IsUnit(a)
    ensures NormSq(Add(v, Scale(k, a))) == NormSq(v) + 2.0 * k * Dot(v, a) + k * k
  {
    var w := Add(v, Scale(k, a));
    calc {
      NormSq(w);
      (v.x + k * a.x) * (v.x + k * a.x) + (v.y + k * a.y) * (v.y + k * a.y);
      NormSq(v) + 2.0 * k * Dot(v, a) + k * k * (a.x * a.x + a.y * a.y);
      NormSq(v) + 2.0 * k * Dot(v, a) + k * k;
    }
  }
}
