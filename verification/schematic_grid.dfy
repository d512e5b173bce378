/**
 * The block grid of the schematic builder: the per-axis resolution derived
 * from the bounding box and the voxel size, the 0/1 grid filled from the
 * voxel positions, and its Y-outer, Z-middle, X-inner linearisation into
 * `BlockData`.
 */
module SchematicGrid {
  import opened RealMath
  import opened Cells

  /**
   * `Math.ceil(size / voxelSize) || 1`: a ceiling of zero falls back to one.
   * The ceiling of a quotient in `(-1, 0]` is zero, so those give one too.
   */
  function AxisResolution(size: real, voxelSize: real): (r: int)
    requires voxelSize != 0.0
    ensures var q := size / voxelSize;
      && (r >= 1 <==> q > -1.0)
      && (q > 0.0 ==> r as real - 1.0 < q <= r as real)
      && (-1.0 < q <= 0.0 ==> r == 1)
      && (q <= -1.0 ==> r as real - 1.0 < q <= r as real)
  {
    var c := Ceil(size / voxelSize);
    if c == 0 then 1 else c
  }

  /** The length `Array.from({length: k})` gives: a negative length is taken as zero. */
  function ArrayLength(k: int): (n: nat)
    ensures k >= 0 ==> n == k
    ensures k < 0 ==> n == 0
  {
    if k < 0 then 0 else k
  }

  type Grid = seq<seq<seq<int>>>

  /** `g` is a `w` x `h` x `l` nested array. */
  predicate Shaped(g: Grid, w: nat, h: nat, l: nat) {
    && |g| == w
    && (forall x :: 0 <= x < w ==> |g[x]| == h)
    && (forall x, y :: 0 <= x < w && 0 <= y < h ==> |g[x][y]| == l)
  }

  /** The nested arrays of zeros (air). */
  function ZeroGrid(w: nat, h: nat, l: nat): (g: Grid)
    ensures Shaped(g, w, h, l)
    ensures forall x, y, z :: 0 <= x < w && 0 <= y < h && 0 <= z < l ==> g[x][y][z] == 0
  {
    seq(w, x => seq(h, y => seq(l, z => 0)))
  }

  /** `grid[x][y][z] = 1` for one position, when it lies inside the grid; otherwise nothing. */
  function MarkPosition(g: Grid, w: nat, h: nat, l: nat, p: Cell): (out: Grid)
    requires Shaped(g, w, h, l)
    ensures Shaped(out, w, h, l)
    ensures forall c :: InBlock(c, w, h, l) ==>
      out[c.x][c.y][c.z] == if c == p then 1 else g[c.x][c.y][c.z]
  {
    if 0 <= p.x < w && 0 <= p.y < h && 0 <= p.z < l then
      g[p.x := g[p.x][p.y := g[p.x][p.y][p.z := 1]]]
    else g
  }

  /** The `voxelPositions.forEach` loop, in order. */
  function MarkAll(g: Grid, w: nat, h: nat, l: nat, ps: seq<Cell>): (out: Grid)
    requires Shaped(g, w, h, l)
    ensures Shaped(out, w, h, l)
    ensures forall c :: InBlock(c, w, h, l) ==>
      out[c.x][c.y][c.z] == if c in ps then 1 else g[c.x][c.y][c.z]
    decreases |ps|
  {
    if |ps| == 0 then g
    else
      var out := MarkAll(MarkPosition(g, w, h, l, ps[0]), w, h, l, ps[1..]);
      assert forall c :: c in ps <==> c == ps[0] || c in ps[1..];
      out
  }

  /** The filled grid: zeros, then a 1 at every position inside the grid. */
  function FilledGrid(w: nat, h: nat, l: nat, ps: seq<Cell>): (g: Grid)
    ensures Shaped(g, w, h, l)
    ensures forall c :: InBlock(c, w, h, l) ==> g[c.x][c.y][c.z] == if c in ps then 1 else 0
  {
    MarkAll(ZeroGrid(w, h, l), w, h, l, ps)
  }

  /** Every cell of the filled grid is 0 or 1, and it is 1 exactly at the positions listed. */
  lemma FilledCells(w: nat, h: nat, l: nat, ps: seq<Cell>, x: int, y: int, z: int)
    requires 0 <= x < w && 0 <= y < h && 0 <= z < l
    ensures var g := FilledGrid(w, h, l, ps);
      && (g[x][y][z] == 0 || g[x][y][z] == 1)
      && (g[x][y][z] == 1 <==> exists i :: 0 <= i < |ps| && ps[i] == Cell(x, y, z))
  {
    var c := Cell(x, y, z);
    assert InBlock(c, w, h, l);
    if c in ps {
      var i :| 0 <= i < |ps| && ps[i] == c;
    }
  }

  // ---------------------------------------------------------------------
  // The YZX linearisation
  // ---------------------------------------------------------------------

  /** The position of cell `(x, y, z)` in `BlockData`: `x + w * (z + l * y)`. */
  function Index(w: nat, l: nat, x: int, y: int, z: int): int {
    x + w * (z + l * y)
  }

  /** The `x` coordinate stored at position `i`. */
  function XOf(w: nat, i: int): int
    requires w > 0
  {
    i % w
  }

  /** The `z` coordinate stored at position `i`. */
  function ZOf(w: nat, l: nat, i: int): int
    requires w > 0 && l > 0
  {
    (i / w) % l
  }

  /** The `y` coordinate stored at position `i`. */
  function YOf(w: nat, l: nat, i: int): int
    requires w > 0 && l > 0
  {
    (i / w) / l
  }

  /** The linearisation as a whole: position `i` holds the cell `i` decodes to. */
  function BlockDataOf(g: Grid, w: nat, h: nat, l: nat): (bd: seq<int>)
    requires Shaped(g, w, h, l)
    ensures |bd| == w * h * l
  {
    Volume(w, h, l);
    seq(w * h * l, i requires 0 <= i < w * h * l && Shaped(g, w, h, l) =>
      DecodeInRange(w, h, l, i);
      g[XOf(w, i)][YOf(w, l, i)][ZOf(w, l, i)])
  }

  /** The three nested loops that push `grid[x][y][z]` for `y`, then `z`, then `x`. */
  method LinearizeYZX(g: Grid, w: nat, h: nat, l: nat) returns (bd: seq<int>)
    requires Shaped(g, w, h, l)
    ensures |bd| == w * h * l
    ensures bd == BlockDataOf(g, w, h, l)
  {
    var all := BlockDataOf(g, w, h, l);
    bd := [];
    var y := 0;
    while y < h
      invariant 0 <= y <= h
      invariant |bd| == Index(w, l, 0, y, 0) && |bd| <= |all| && bd == all[..|bd|]
    {
      var z := 0;
      while z < l
        invariant 0 <= z <= l
        invariant |bd| == Index(w, l, 0, y, z) && |bd| <= |all| && bd == all[..|bd|]
      {
        var x := 0;
        while x < w
          invariant 0 <= x <= w
          invariant |bd| == Index(w, l, x, y, z) && |bd| <= |all| && bd == all[..|bd|]
        {
          IndexBounds(w, h, l, x, y, z);
          DecodeIndex(w, l, x, y, z);
          assert all[|bd|] == g[x][y][z];
          assert all[..|bd| + 1] == all[..|bd|] + [all[|bd|]];
          bd := bd + [g[x][y][z]];
          x := x + 1;
        }
        RowStep(w, l, y, z);
        z := z + 1;
      }
      LayerStep(w, l, y);
      y := y + 1;
    }
    Volume(w, h, l);
    assert |bd| == |all|;
  }

  /** `BlockData[x + w * (z + l * y)] = grid[x][y][z]` for every cell of the grid. */
  lemma BlockDataAt(g: Grid, w: nat, h: nat, l: nat, x: int, y: int, z: int)
    requires Shaped(g, w, h, l)
    requires 0 <= x < w && 0 <= y < h && 0 <= z < l
    ensures 0 <= Index(w, l, x, y, z) < |BlockDataOf(g, w, h, l)|
    ensures BlockDataOf(g, w, h, l)[Index(w, l, x, y, z)] == g[x][y][z]
  {
    IndexBounds(w, h, l, x, y, z);
    DecodeIndex(w, l, x, y, z);
  }

  /** Reading `BlockData` back with the same index reproduces the grid. */
  function DecodeGrid(bd: seq<int>, w: nat, h: nat, l: nat): (g: Grid)
    requires |bd| == w * h * l
    ensures Shaped(g, w, h, l)
  {
    seq(w, x requires 0 <= x < w => seq(h, y requires 0 <= y < h => seq(l, z requires 0 <= z < l =>
      IndexBounds(w, h, l, x, y, z);
      bd[Index(w, l, x, y, z)])))
  }

  /** Decoding the linearisation gives back the grid. */
  lemma DecodeLinearized(g: Grid, w: nat, h: nat, l: nat)
    requires Shaped(g, w, h, l)
    ensures DecodeGrid(BlockDataOf(g, w, h, l), w, h, l) == g
  {
    var d := DecodeGrid(BlockDataOf(g, w, h, l), w, h, l);
    forall x | 0 <= x < w ensures d[x] == g[x] {
      forall y | 0 <= y < h ensures d[x][y] == g[x][y] {
        forall z | 0 <= z < l ensures d[x][y][z] == g[x][y][z] {
          IndexBounds(w, h, l, x, y, z);
          DecodeIndex(w, l, x, y, z);
        }
      }
    }
  }

  /** Encoding the decoded grid gives back the array: `BlockData` determines the grid and conversely. */
  lemma LinearizeDecoded(bd: seq<int>, w: nat, h: nat, l: nat)
    requires |bd| == w * h * l
    ensures BlockDataOf(DecodeGrid(bd, w, h, l), w, h, l) == bd
  {
    var e := BlockDataOf(DecodeGrid(bd, w, h, l), w, h, l);
    forall i | 0 <= i < |bd| ensures e[i] == bd[i] {
      DecodeInRange(w, h, l, i);
      EncodeDecoded(w, l, i);
    }
  }

  /** Distinct cells of the grid occupy distinct positions of `BlockData`. */
  lemma IndexInjective(w: nat, h: nat, l: nat, a: Cell, b: Cell)
    requires InBlock(a, w, h, l) && InBlock(b, w, h, l)
    requires Index(w, l, a.x, a.y, a.z) == Index(w, l, b.x, b.y, b.z)
    ensures a == b
  {
    DecodeIndex(w, l, a.x, a.y, a.z);
    DecodeIndex(w, l, b.x, b.y, b.z);
  }

  /** Every position of `BlockData` holds some cell of the grid. */
  lemma IndexOnto(w: nat, h: nat, l: nat, i: int)
    requires 0 <= i < w * h * l
    ensures exists c :: InBlock(c, w, h, l) && Index(w, l, c.x, c.y, c.z) == i
  {
    DecodeInRange(w, h, l, i);
    EncodeDecoded(w, l, i);
    var c := Cell(XOf(w, i), YOf(w, l, i), ZOf(w, l, i));
    assert InBlock(c, w, h, l) && Index(w, l, c.x, c.y, c.z) == i;
  }

  // ---------------------------------------------------------------------
  // Index arithmetic
  // ---------------------------------------------------------------------

  /** The position after the last cell of a row is the first of the next row. */
  lemma RowStep(w: nat, l: nat, y: int, z: int)
    ensures Index(w, l, w, y, z) == Index(w, l, 0, y, z + 1)
  {
    assert w * (z + 1 + l * y) == w * (z + l * y) + w;
  }

  /** The position after the last row of a layer is the first of the next layer. */
  lemma LayerStep(w: nat, l: nat, y: int)
    ensures Index(w, l, 0, y, l) == Index(w, l, 0, y + 1, 0)
  {
    assert l + l * y == l * (y + 1);
  }

  lemma Volume(w: nat, h: nat, l: nat)
    ensures w * h * l == w * (l * h) && w * h * l >= 0
  {
    var lh := l * h;
    assert h * l == lh;
    assert w * h * l == w * (h * l);
  }

  /** A cell of the grid has a position inside `BlockData`. */
  lemma IndexBounds(w: nat, h: nat, l: nat, x: int, y: int, z: int)
    requires 0 <= x < w && 0 <= y < h && 0 <= z < l
    ensures 0 <= Index(w, l, x, y, z) < w * h * l
  {
    var row := z + l * y;
    assert 0 <= row < l * h by {
      assert l * y + l == l * (y + 1);
      MulMono(l, y + 1, h);
    }
    assert x + w * row < w * (row + 1) by {
      assert w * (row + 1) == w * row + w;
    }
    MulMono(w, row + 1, l * h);
    Volume(w, h, l);
  }

  lemma MulMono(k: nat, a: int, b: int)
    requires a <= b
    ensures k * a <= k * b
  {
    assert k * b - k * a == k * (b - a);
  }

  /** The position of `(x, y, z)` decodes to `x`, `y` and `z`. */
  lemma DecodeIndex(w: nat, l: nat, x: int, y: int, z: int)
    requires 0 <= x < w && 0 <= z < l && 0 <= y
    ensures var i := Index(w, l, x, y, z);
      XOf(w, i) == x && ZOf(w, l, i) == z && YOf(w, l, i) == y
  {
    var row := z + l * y;
    DivModOf(row, w, x);
    DivModOf(y, l, z);
  }

  /** A position inside `BlockData` decodes to a cell of the grid. */
  lemma DecodeInRange(w: nat, h: nat, l: nat, i: int)
    requires 0 <= i < w * h * l
    ensures w > 0 && l > 0 && h > 0
    ensures 0 <= XOf(w, i) < w && 0 <= YOf(w, l, i) < h && 0 <= ZOf(w, l, i) < l
  {
    Volume(w, h, l);
    NonZeroFactors(w, h, l);
    var q := i / w;
    assert q < l * h by {
      DivBelow(i, w, l * h);
    }
    DivBelow(q, l, h);
  }

  /** The cell a position decodes to sits at that position. */
  lemma EncodeDecoded(w: nat, l: nat, i: int)
    requires w > 0 && l > 0 && i >= 0
    ensures Index(w, l, XOf(w, i), YOf(w, l, i), ZOf(w, l, i)) == i
  {
    var q := i / w;
    assert i == XOf(w, i) + w * q;
    assert q == ZOf(w, l, i) + l * YOf(w, l, i);
  }

  lemma NonZeroFactors(w: nat, h: nat, l: nat)
    ensures w * h * l > 0 ==> w > 0 && h > 0 && l > 0
  {
    if w == 0 || h == 0 || l == 0 {
      assert w * h == 0 || l == 0;
    }
  }

  /** `i < d * n` puts `i / d` below `n`. */
  lemma DivBelow(i: int, d: nat, n: nat)
    requires d > 0 && 0 <= i < d * n
    ensures i / d < n
  {
    var q := i / d;
    assert d * q <= i;
    if q >= n {
      MulMono(d, n, q);
    }
  }

  /** Euclidean division of `r + d * q` by `d`, for `0 <= r < d`. */
  lemma DivModOf(q: int, d: nat, r: int)
    requires 0 <= r < d
    ensures (r + d * q) % d == r && (r + d * q) / d == q
  {
    var a := r + d * q;
    var k := a / d - q;
    assert d * k == r - a % d;
    if k > 0 {
      MulMono(d, 1, k);
    } else if k < 0 {
      MulMono(d, k, -1);
    }
  }
}
