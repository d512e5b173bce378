/**
 * Real-number helpers standing in for the JavaScript `Math` functions the
 * voxelizer and the schematic builder use: `Math.min`, `Math.max`,
 * `Math.abs`, `Math.floor` and `Math.ceil`, on exact reals.
 */
module RealMath {

  function Min(a: real, b: real): real {
    if a <= b then a else b
  }

  function Max(a: real, b: real): real {
    if a >= b then a else b
  }

  /** `Math.min(a, b, c)`: the least of three values. */
  function Min3(a: real, b: real, c: real): (m: real)
    ensures m <= a && m <= b && m <= c
    ensures m == a || m == b || m == c
  {
    Min(Min(a, b), c)
  }

  /** `Math.max(a, b, c)`: the greatest of three values. */
  function Max3(a: real, b: real, c: real): (m: real)
    ensures m >= a && m >= b && m >= c
    ensures m == a || m == b || m == c
  {
    Max(Max(a, b), c)
  }

  function Abs(a: real): (r: real)
    ensures r >= 0.0
    ensures r == a || r == -a
  {
    if a < 0.0 then -a else a
  }

  function IntMin(a: int, b: int): int {
    if a <= b then a else b
  }

  function IntMax(a: int, b: int): int {
    if a >= b then a else b
  }

  /** `Math.floor`: the greatest integer not above `r`. */
  function Floor(r: real): (k: int)
    ensures k as real <= r < k as real + 1.0
  {
    r.Floor
  }

  /** `Math.ceil`: the least integer not below `r`. */
  function Ceil(r: real): (k: int)
    ensures k as real - 1.0 < r <= k as real
  {
    -((-r).Floor)
  }

  /** Floor and ceiling are monotonic. */
  lemma FloorCeilMonotonic(a: real, b: real)
    requires a <= b
    ensures Floor(a) <= Floor(b)
    ensures Ceil(a) <= Ceil(b)
  {
  }

  /** A value lying between the least and the greatest of three values. */
  lemma ConvexBetween(a: real, s: real, t: real, u0: real, u1: real, u2: real)
    requires a >= 0.0 && s >= 0.0 && t >= 0.0 && a + s + t == 1.0
    ensures Min3(u0, u1, u2) <= a * u0 + s * u1 + t * u2 <= Max3(u0, u1, u2)
  {
    ConvexAbove(a, s, t, Min3(u0, u1, u2), u0, u1, u2);
    ConvexBelow(a, s, t, Max3(u0, u1, u2), u0, u1, u2);
  }

  lemma ConvexAbove(a: real, s: real, t: real, lo: real, u0: real, u1: real, u2: real)
    requires a >= 0.0 && s >= 0.0 && t >= 0.0 && a + s + t == 1.0
    requires lo <= u0 && lo <= u1 && lo <= u2
    ensures lo <= a * u0 + s * u1 + t * u2
  {
    MulMonotonic(a, lo, u0);
    MulMonotonic(s, lo, u1);
    MulMonotonic(t, lo, u2);
    var l0, l1, l2 := a * lo, s * lo, t * lo;
    var p0, p1, p2 := a * u0, s * u1, t * u2;
    assert l0 <= p0 && l1 <= p1 && l2 <= p2;
    assert l0 + l1 + l2 == lo by {
      assert l0 + l1 + l2 == (a + s + t) * lo;
    }
    assert l0 + l1 + l2 <= p0 + p1 + p2;
  }

  lemma ConvexBelow(a: real, s: real, t: real, hi: real, u0: real, u1: real, u2: real)
    requires a >= 0.0 && s >= 0.0 && t >= 0.0 && a + s + t == 1.0
    requires u0 <= hi && u1 <= hi && u2 <= hi
    ensures a * u0 + s * u1 + t * u2 <= hi
  {
    MulMonotonic(a, u0, hi);
    MulMonotonic(s, u1, hi);
    MulMonotonic(t, u2, hi);
    var h0, h1, h2 := a * hi, s * hi, t * hi;
    var p0, p1, p2 := a * u0, s * u1, t * u2;
    assert p0 <= h0 && p1 <= h1 && p2 <= h2;
    assert h0 + h1 + h2 == hi by {
      assert h0 + h1 + h2 == (a + s + t) * hi;
    }
    assert p0 + p1 + p2 <= h0 + h1 + h2;
  }

  /** Multiplying by a non-negative factor keeps an ordering. */
  lemma MulMonotonic(k: real, x: real, y: real)
    requires k >= 0.0 && x <= y
    ensures k * x <= k * y
  {
    assert k * y - k * x == k * (y - x);
  }

  /** `|u| <= e` bounds the product `|w * u|` by `e * |w|`. */
  lemma AbsProductBound(w: real, u: real, e: real)
    requires Abs(u) <= e
    ensures Abs(w * u) <= e * Abs(w)
  {
    assert Abs(w * u) == Abs(w) * Abs(u) by {
      if u < 0.0 && w < 0.0 { assert w * u == (-w) * (-u); }
      else if u < 0.0 { assert -(w * u) == w * (-u); }
      else if w < 0.0 { assert -(w * u) == (-w) * u; }
    }
    MulMonotonic(Abs(w), Abs(u), e);
    assert Abs(w) * e == e * Abs(w);
  }
}
