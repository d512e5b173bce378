/**
 * Integer grid coordinates `{x, y, z}` shared by the voxelizer's boolean
 * grid and the schematic's block grid, and the rectangular blocks of cells
 * those grids span.
 */
module Cells {

  datatype Cell = Cell(x: int, y: int, z: int)

  /** `c` indexes a `w` x `h` x `l` grid: `0 <= x < w`, `0 <= y < h`, `0 <= z < l`. */
  predicate InBlock(c: Cell, w: int, h: int, l: int) {
    0 <= c.x < w && 0 <= c.y < h && 0 <= c.z < l
  }

  /** All cells of a `w` x `h` x `l` grid. */
  function Block(w: nat, h: nat, l: nat): (b: set<Cell>)
    ensures forall c :: c in b <==> InBlock(c, w, h, l)
  {
    set x, y, z | 0 <= x < w && 0 <= y < h && 0 <= z < l :: Cell(x, y, z)
  }

  /** The grid holds exactly `w * h * l` cells. */
  lemma {:induction false} BlockSize(w: nat, h: nat, l: nat)
    ensures |Block(w, h, l)| == w * h * l
  {
    if w > 0 {
      BlockSize(w - 1, h, l);
      SliceSize(w - 1, h, l);
      BlockSplit(w, h, l);
      VolumeStep(w, h, l);
    } else {
      assert Block(w, h, l) == {} by {
        forall c | c in Block(w, h, l) ensures false { }
      }
    }
  }

  /** A set of cells inside the grid has at most `w * h * l` members. */
  lemma BlockBound(s: set<Cell>, w: nat, h: nat, l: nat)
    requires forall c :: c in s ==> InBlock(c, w, h, l)
    ensures |s| <= w * h * l
  {
    assert s <= Block(w, h, l);
    SubsetSize(s, Block(w, h, l));
    BlockSize(w, h, l);
  }

  /** A subset is no larger than its superset. */
  lemma {:induction false} SubsetSize<T>(a: set<T>, b: set<T>)
    requires a <= b
    ensures |a| <= |b|
    decreases a
  {
    if a != {} {
      var x :| x in a;
      SubsetSize(a - {x}, b - {x});
    }
  }

  /** The grid is the grid one layer thinner plus its last layer. */
  lemma BlockSplit(w: nat, h: nat, l: nat)
    requires w > 0
    ensures |Block(w, h, l)| == |Block(w - 1, h, l)| + |Slice(w - 1, h, l)|
  {
    var below, last := Block(w - 1, h, l), Slice(w - 1, h, l);
    assert Block(w, h, l) == below + last;
    DisjointUnionSize(below, last);
  }

  lemma DisjointUnionSize(a: set<Cell>, b: set<Cell>)
    requires a !! b
    ensures |a + b| == |a| + |b|
  {
    assert a * b == {};
  }

  lemma ProductStep(k: int, m: int, n: int)
    requires n == k + 1
    ensures k * m + m == n * m
  {
  }

  /** One more layer of `h * l` cells. */
  lemma VolumeStep(w: int, h: int, l: int)
    ensures (w - 1) * h * l + h * l == w * h * l
  {
    var m := h * l;
    assert (w - 1) * h * l == (w - 1) * m;
    assert w * h * l == w * m;
    ProductStep(w - 1, m, w);
  }

  /** The cells of the grid whose first coordinate is `x`. */
  function Slice(x: int, h: nat, l: nat): (s: set<Cell>)
    ensures forall c :: c in s <==> c.x == x && 0 <= c.y < h && 0 <= c.z < l
  {
    set y, z | 0 <= y < h && 0 <= z < l :: Cell(x, y, z)
  }

  lemma {:induction false} SliceSize(x: int, h: nat, l: nat)
    ensures |Slice(x, h, l)| == h * l
  {
    if h > 0 {
      SliceSize(x, h - 1, l);
      RowSize(x, h - 1, l);
      SliceSplit(x, h, l);
      ProductStep(h - 1, l, h);
    } else {
      assert Slice(x, h, l) == {} by {
        forall c | c in Slice(x, h, l) ensures false { }
      }
    }
  }

  lemma SliceSplit(x: int, h: nat, l: nat)
    requires h > 0
    ensures |Slice(x, h, l)| == |Slice(x, h - 1, l)| + |Row(x, h - 1, l)|
  {
    var below, last := Slice(x, h - 1, l), Row(x, h - 1, l);
    assert Slice(x, h, l) == below + last;
    DisjointUnionSize(below, last);
  }

  /** The cells of the grid whose first two coordinates are `x` and `y`. */
  function Row(x: int, y: int, l: nat): (s: set<Cell>)
    ensures forall c :: c in s <==> c.x == x && c.y == y && 0 <= c.z < l
  {
    set z | 0 <= z < l :: Cell(x, y, z)
  }

  lemma {:induction false} RowSize(x: int, y: int, l: nat)
    ensures |Row(x, y, l)| == l
  {
    if l > 0 {
      RowSize(x, y, l - 1);
      assert Row(x, y, l) == Row(x, y, l - 1) + {Cell(x, y, l - 1)};
    } else {
      assert Row(x, y, l) == {};
    }
  }

  /** The union of a list of sets. */
  function Union<T>(ss: seq<set<T>>): set<T> {
    if |ss| == 0 then {} else ss[0] + Union(ss[1..])
  }

  /** An element of the union is an element of one of the sets, and conversely. */
  lemma {:induction false} UnionMember<T>(ss: seq<set<T>>, a: T)
    ensures a in Union(ss) <==> exists i :: 0 <= i < |ss| && a in ss[i]
  {
    if |ss| > 0 {
      UnionMember(ss[1..], a);
      if a in Union(ss[1..]) {
        var i :| 0 <= i < |ss| - 1 && a in ss[1..][i];
        assert a in ss[i + 1];
      }
      if i :| 1 <= i < |ss| && a in ss[i] {
        assert a in ss[1..][i - 1];
      }
    }
  }
}
