/**
 * Three-component vectors and triangles over exact reals: the `{x, y, z}`
 * objects and `{v0, v1, v2}` triangles the worker receives, with the
 * vector arithmetic the intersection test spells out component by component.
 */
module Geometry {

  datatype Vec3 = Vec3(x: real, y: real, z: real)

  datatype Triangle = Triangle(v0: Vec3, v1: Vec3, v2: Vec3)

  datatype Axis = X | Y | Z

  function Coord(v: Vec3, a: Axis): real {
    match a
    case X => v.x
    case Y => v.y
    case Z => v.z
  }

  function Add(a: Vec3, b: Vec3): Vec3 {
    Vec3(a.x + b.x, a.y + b.y, a.z + b.z)
  }

  function Sub(a: Vec3, b: Vec3): Vec3 {
    Vec3(a.x - b.x, a.y - b.y, a.z - b.z)
  }

  function Scale(k: real, a: Vec3): Vec3 {
    Vec3(k * a.x, k * a.y, k * a.z)
  }

  function Dot(a: Vec3, b: Vec3): real {
    a.x * b.x + a.y * b.y + a.z * b.z
  }

  function Cross(a: Vec3, b: Vec3): Vec3 {
    Vec3(a.y * b.z - a.z * b.y, a.z * b.x - a.x * b.z, a.x * b.y - a.y * b.x)
  }

  /** The cross product is orthogonal to both of its factors. */
  lemma CrossOrthogonal(a: Vec3, b: Vec3)
    ensures Dot(Cross(a, b), a) == 0.0
    ensures Dot(Cross(a, b), b) == 0.0
  {
  }

  /** The dot product distributes over `a + s*b + u*c`. */
  lemma DotAffine(n: Vec3, a: Vec3, s: real, b: Vec3, u: real, c: Vec3)
    ensures Dot(n, Add(a, Add(Scale(s, b), Scale(u, c))))
         == Dot(n, a) + s * Dot(n, b) + u * Dot(n, c)
  {
  }

  /**
   * The point of triangle `t` with barycentric weights `1 - s - u`, `s`, `u`
   * (it lies on the triangle when `s, u >= 0` and `s + u <= 1`).
   */
  function PointOf(t: Triangle, s: real, u: real): Vec3 {
    Add(t.v0, Add(Scale(s, Sub(t.v1, t.v0)), Scale(u, Sub(t.v2, t.v0))))
  }

  predicate OnTriangle(s: real, u: real) {
    s >= 0.0 && u >= 0.0 && s + u <= 1.0
  }

  /** `p` lies in the closed box with corners `lo` and `hi`. */
  predicate InClosedBox(p: Vec3, lo: Vec3, hi: Vec3) {
    lo.x <= p.x <= hi.x && lo.y <= p.y <= hi.y && lo.z <= p.z <= hi.z
  }
}
