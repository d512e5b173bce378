/**
 * The worker's `triangleIntersectsAABB(v0, v1, v2, min, max)`: a per-axis
 * extent rejection followed by a test of the triangle's plane against the
 * box. Only these two separating-axis families are tested; the nine
 * edge-cross-product axes are not, so the test is conservative: it never
 * misses a box the triangle touches, but may accept one it misses.
 */
module Intersection {
  import opened RealMath
  import opened Geometry

  function Center(lo: Vec3, hi: Vec3): Vec3 {
    Vec3((lo.x + hi.x) * 0.5, (lo.y + hi.y) * 0.5, (lo.z + hi.z) * 0.5)
  }

  function Extents(lo: Vec3, hi: Vec3): Vec3 {
    Vec3((hi.x - lo.x) * 0.5, (hi.y - lo.y) * 0.5, (hi.z - lo.z) * 0.5)
  }

  /** The (unnormalised) face normal `(v1 - v0) x (v2 - v0)`. */
  function Normal(v0: Vec3, v1: Vec3, v2: Vec3): Vec3 {
    Cross(Sub(v1, v0), Sub(v2, v0))
  }

  /** Half the width of the box's projection onto the direction `n`. */
  function Radius(n: Vec3, e: Vec3): real {
    e.x * Abs(n.x) + e.y * Abs(n.y) + e.z * Abs(n.z)
  }

  /**
   * On axis `a`, all three vertices (relative to the box centre) lie beyond
   * the box's half extent on the same side.
   */
  predicate SeparatedOn(v0: Vec3, v1: Vec3, v2: Vec3, lo: Vec3, hi: Vec3, a: Axis) {
    var c := Coord(Center(lo, hi), a);
    var e := Coord(Extents(lo, hi), a);
    (Coord(v0, a) - c > e && Coord(v1, a) - c > e && Coord(v2, a) - c > e)
    || (Coord(v0, a) - c < -e && Coord(v1, a) - c < -e && Coord(v2, a) - c < -e)
  }

  predicate SeparatedOnSomeAxis(v0: Vec3, v1: Vec3, v2: Vec3, lo: Vec3, hi: Vec3) {
    SeparatedOn(v0, v1, v2, lo, hi, X) || SeparatedOn(v0, v1, v2, lo, hi, Y)
    || SeparatedOn(v0, v1, v2, lo, hi, Z)
  }

  /** The box straddles (or touches) the plane through the triangle. */
  predicate PlaneMeetsBox(v0: Vec3, v1: Vec3, v2: Vec3, lo: Vec3, hi: Vec3) {
    var n := Normal(v0, v1, v2);
    Abs(Dot(n, Sub(v0, Center(lo, hi)))) <= Radius(n, Extents(lo, hi))
  }

  function TriangleIntersectsAABB(v0: Vec3, v1: Vec3, v2: Vec3, lo: Vec3, hi: Vec3): (r: bool)
    ensures SeparatedOnSomeAxis(v0, v1, v2, lo, hi) ==> !r
    ensures !SeparatedOnSomeAxis(v0, v1, v2, lo, hi) ==> (r <==> PlaneMeetsBox(v0, v1, v2, lo, hi))
  {
    var center := Center(lo, hi);
    var extents := Extents(lo, hi);
    var v0p := Sub(v0, center);
    var v1p := Sub(v1, center);
    var v2p := Sub(v2, center);
    var e0 := Sub(v1p, v0p);
    var e1 := Sub(v2p, v0p);
    AxisTest(v0, v1, v2, lo, hi, X);
    AxisTest(v0, v1, v2, lo, hi, Y);
    AxisTest(v0, v1, v2, lo, hi, Z);
    if Min3(v0p.x, v1p.x, v2p.x) > extents.x || Max3(v0p.x, v1p.x, v2p.x) < -extents.x then false
    else if Min3(v0p.y, v1p.y, v2p.y) > extents.y || Max3(v0p.y, v1p.y, v2p.y) < -extents.y then false
    else if Min3(v0p.z, v1p.z, v2p.z) > extents.z || Max3(v0p.z, v1p.z, v2p.z) < -extents.z then false
    else
      var normal := Cross(e0, e1);
      PlaneTestAgrees(v0, v1, v2, lo, hi);
      PlaneTest(v0p, normal, extents)
  }

  /** The body's plane-distance step: `|v0p . normal| <= sum of extent_i * |normal_i|`. */
  function PlaneTest(v0p: Vec3, normal: Vec3, extents: Vec3): bool {
      var p := Dot(v0p, normal);
      var d := Max(Abs(p), Abs(p));
      var r := extents.x * Abs(normal.x) + extents.y * Abs(normal.y) + extents.z * Abs(normal.z);
      d <= r
  }
  /** The body's plane test, computed from centred vertices, is `PlaneMeetsBox`. */
  lemma PlaneTestAgrees(v0: Vec3, v1: Vec3, v2: Vec3, lo: Vec3, hi: Vec3)
    ensures var c, e := Center(lo, hi), Extents(lo, hi);
      var v0p := Sub(v0, c);
      var normal := Cross(Sub(Sub(v1, c), v0p), Sub(Sub(v2, c), v0p));
      PlaneTest(v0p, normal, e)
      <==> PlaneMeetsBox(v0, v1, v2, lo, hi)
  {
    var c, e := Center(lo, hi), Extents(lo, hi);
    var v0p := Sub(v0, c);
    var normal := Cross(Sub(Sub(v1, c), v0p), Sub(Sub(v2, c), v0p));
    CentredNormal(v0, v1, v2, c);
    assert normal == Normal(v0, v1, v2);
    DotSymmetric(v0p, normal);
  }

  /** The body's per-axis rejection is exactly `SeparatedOn`. */
  lemma AxisTest(v0: Vec3, v1: Vec3, v2: Vec3, lo: Vec3, hi: Vec3, a: Axis)
    ensures var c, e := Center(lo, hi), Extents(lo, hi);
      var p0, p1, p2 := Coord(Sub(v0, c), a), Coord(Sub(v1, c), a), Coord(Sub(v2, c), a);
      SeparatedOn(v0, v1, v2, lo, hi, a)
      <==> (Min3(p0, p1, p2) > Coord(e, a) || Max3(p0, p1, p2) < -Coord(e, a))
  {
  }

  /** Edges taken between centred vertices are the uncentred edges. */
  lemma CentredNormal(v0: Vec3, v1: Vec3, v2: Vec3, c: Vec3)
    ensures Cross(Sub(Sub(v1, c), Sub(v0, c)), Sub(Sub(v2, c), Sub(v0, c))) == Normal(v0, v1, v2)
  {
    assert Sub(Sub(v1, c), Sub(v0, c)) == Sub(v1, v0);
    assert Sub(Sub(v2, c), Sub(v0, c)) == Sub(v2, v0);
  }

  lemma DotSymmetric(a: Vec3, b: Vec3)
    ensures Dot(a, b) == Dot(b, a)
  {
  }

  /**
   * The test never misses a box that some point of the triangle lies in:
   * whatever it skips, it only ever errs towards marking a cell.
   */
  lemma NoFalseNegatives(t: Triangle, lo: Vec3, hi: Vec3, s: real, u: real)
    requires OnTriangle(s, u)
    requires InClosedBox(PointOf(t, s, u), lo, hi)
    ensures TriangleIntersectsAABB(t.v0, t.v1, t.v2, lo, hi)
  {
    NotSeparated(t, lo, hi, s, u);
    PlaneMeets(t, lo, hi, s, u);
  }

  /** A point of the triangle inside the box defeats every axis rejection. */
  lemma NotSeparated(t: Triangle, lo: Vec3, hi: Vec3, s: real, u: real)
    requires OnTriangle(s, u)
    requires InClosedBox(PointOf(t, s, u), lo, hi)
    ensures !SeparatedOnSomeAxis(t.v0, t.v1, t.v2, lo, hi)
  {
    var c := Center(lo, hi);
    var p := PointOf(t, s, u);
    AxisNotSeparated(t.v0.x, t.v1.x, t.v2.x, p.x, lo.x, hi.x, s, u);
    AxisNotSeparated(t.v0.y, t.v1.y, t.v2.y, p.y, lo.y, hi.y, s, u);
    AxisNotSeparated(t.v0.z, t.v1.z, t.v2.z, p.z, lo.z, hi.z, s, u);
  }

  /** One axis of `NotSeparated`, on the coordinates alone. */
  lemma AxisNotSeparated(w0: real, w1: real, w2: real, p: real, lo: real, hi: real, s: real, u: real)
    requires OnTriangle(s, u)
    requires p == w0 + (s * (w1 - w0) + u * (w2 - w0))
    requires lo <= p <= hi
    ensures var c, e := (lo + hi) * 0.5, (hi - lo) * 0.5;
      !(w0 - c > e && w1 - c > e && w2 - c > e) && !(w0 - c < -e && w1 - c < -e && w2 - c < -e)
  {
    var c, e := (lo + hi) * 0.5, (hi - lo) * 0.5;
    CentredCombination(w0, w1, w2, c, s, u);
    ConvexBetween(1.0 - s - u, s, u, w0 - c, w1 - c, w2 - c);
    var lowest, highest := Min3(w0 - c, w1 - c, w2 - c), Max3(w0 - c, w1 - c, w2 - c);
    assert lowest <= p - c <= highest;
    assert -e <= p - c <= e;
  }

  /** A point of the triangle inside the box puts the box across the triangle's plane. */
  lemma PlaneMeets(t: Triangle, lo: Vec3, hi: Vec3, s: real, u: real)
    requires OnTriangle(s, u)
    requires InClosedBox(PointOf(t, s, u), lo, hi)
    ensures PlaneMeetsBox(t.v0, t.v1, t.v2, lo, hi)
  {
    var c := Center(lo, hi);
    var e := Extents(lo, hi);
    var pp := Sub(PointOf(t, s, u), c);
    var n := Normal(t.v0, t.v1, t.v2);
    InPlane(t, c, s, u);
    assert Abs(pp.x) <= e.x && Abs(pp.y) <= e.y && Abs(pp.z) <= e.z;
    WithinRadius(pp, e, n);
  }

  /** Every point of the triangle has the same offset along the normal as `v0`. */
  lemma InPlane(t: Triangle, c: Vec3, s: real, u: real)
    ensures var n := Normal(t.v0, t.v1, t.v2);
      Dot(n, Sub(PointOf(t, s, u), c)) == Dot(n, Sub(t.v0, c))
  {
    var n := Normal(t.v0, t.v1, t.v2);
    var d1, d2 := Sub(t.v1, t.v0), Sub(t.v2, t.v0);
    var v0p := Sub(t.v0, c);
    assert Sub(PointOf(t, s, u), c) == Add(v0p, Add(Scale(s, d1), Scale(u, d2)));
    DotAffine(n, v0p, s, d1, u, d2);
    CrossOrthogonal(d1, d2);
  }

  /** A point within the half extents projects within the box's radius. */
  lemma WithinRadius(q: Vec3, e: Vec3, n: Vec3)
    requires Abs(q.x) <= e.x && Abs(q.y) <= e.y && Abs(q.z) <= e.z
    ensures Abs(Dot(n, q)) <= Radius(n, e)
  {
    ProjectionBound(q.x, q.y, q.z, e.x, e.y, e.z, n.x, n.y, n.z);
    Expanded(q, e, n);
  }

  lemma Expanded(q: Vec3, e: Vec3, n: Vec3)
    ensures Dot(n, q) == n.x * q.x + n.y * q.y + n.z * q.z
    ensures Radius(n, e) == e.x * Abs(n.x) + e.y * Abs(n.y) + e.z * Abs(n.z)
  {
  }

  /** `WithinRadius` on the nine coordinates. */
  lemma ProjectionBound(qx: real, qy: real, qz: real, ex: real, ey: real, ez: real, nx: real, ny: real, nz: real)
    requires Abs(qx) <= ex && Abs(qy) <= ey && Abs(qz) <= ez
    ensures Abs(nx * qx + ny * qy + nz * qz) <= ex * Abs(nx) + ey * Abs(ny) + ez * Abs(nz)
  {
    AbsProductBound(nx, qx, ex);
    AbsProductBound(ny, qy, ey);
    AbsProductBound(nz, qz, ez);
    SumBound(nx * qx, ny * qy, nz * qz, ex * Abs(nx), ey * Abs(ny), ez * Abs(nz));
  }

  lemma SumBound(a: real, b: real, d: real, ra: real, rb: real, rd: real)
    requires Abs(a) <= ra && Abs(b) <= rb && Abs(d) <= rd
    ensures Abs(a + b + d) <= ra + rb + rd
  {
  }

  /** Subtracting the centre commutes with taking an affine combination. */
  lemma CentredCombination(w0: real, w1: real, w2: real, c: real, s: real, u: real)
    ensures (w0 + (s * (w1 - w0) + u * (w2 - w0))) - c
         == (1.0 - s - u) * (w0 - c) + s * (w1 - c) + u * (w2 - c)
  {
  }
}
