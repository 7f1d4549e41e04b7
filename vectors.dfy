/** Kratos `array_1d<double, 3>` modelled over the reals. */
module Vectors {
  datatype Vec3 = Vec3(x: real, y: real, z: real)

  const Zero: Vec3 := Vec3(0.0, 0.0, 0.0)

  function Add(a: Vec3, b: Vec3): (r: Vec3) { Vec3(a.x + b.x, a.y + b.y, a.z + b.z) }

  function Sub(a: Vec3, b: Vec3): (r: Vec3) { Vec3(a.x - b.x, a.y - b.y, a.z - b.z) }

  function Scale(k: real, a: Vec3): (r: Vec3) { Vec3(k * a.x, k * a.y, k * a.z) }

  function Neg(a: Vec3): (r: Vec3) { Vec3(-a.x, -a.y, -a.z) }

  function Dot(a: Vec3, b: Vec3): (r: real) { a.x * b.x + a.y * b.y + a.z * b.z }

  function Cross(a: Vec3, b: Vec3): (r: Vec3) {
    Vec3(a.y * b.z - a.z * b.y, a.z * b.x - a.x * b.z, a.x * b.y - a.y * b.x)
  }

  /** Component `c` (0 = x, 1 = y, 2 = z), as `v[c]` in the source. */
  function At(v: Vec3, c: nat): (r: real)
    requires c < 3
  {
    if c == 0 then v.x else if c == 1 then v.y else v.z
  }

  /** `v` with component `c` replaced by `r`. */
  function With(v: Vec3, c: nat, r: real): (w: Vec3)
    requires c < 3
    ensures At(w, c) == r
    ensures forall d :: 0 <= d < 3 && d != c ==> At(w, d) == At(v, d)
  {
    if c == 0 then v.(x := r) else if c == 1 then v.(y := r) else v.(z := r)
  }

  /** Two vectors that agree on every component are equal. */
  lemma {:induction false} Extensionality(a: Vec3, b: Vec3)
    requires forall c :: 0 <= c < 3 ==> At(a, c) == At(b, c)
    ensures a == b
  {
    assert a.x == At(a, 0) && a.y == At(a, 1) && a.z == At(a, 2);
    assert b.x == At(b, 0) && b.y == At(b, 1) && b.z == At(b, 2);
  }

  /** The cross product is perpendicular to both factors. */
  lemma {:induction false} CrossIsPerpendicular(a: Vec3, b: Vec3)
    ensures Dot(Cross(a, b), a) == 0.0 && Dot(Cross(a, b), b) == 0.0
  {
  }

  lemma {:induction false} AddAssociative(a: Vec3, b: Vec3, c: Vec3)
    ensures Add(Add(a, b), c) == Add(a, Add(b, c))
  {
  }

  lemma {:induction false} DotScaleLeft(k: real, a: Vec3, b: Vec3)
    ensures Dot(Scale(k, a), b) == k * Dot(a, b)
  {
  }

  lemma {:induction false} DotNeg(a: Vec3, b: Vec3)
    ensures Dot(Neg(a), b) == -Dot(a, b)
  {
  }
}
