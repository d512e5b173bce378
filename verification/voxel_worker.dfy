/**
 * The voxelization loop of the worker's `onmessage` handler: it divides the
 * box into `voxelResolution` cells per axis, clamps each triangle's index
 * range to the grid, tests every not-yet-marked candidate cell with
 * `triangleIntersectsAABB`, marks the cells that pass, counts them and
 * reports progress every 1000 tests.
 *
 * The worker's boolean grid is represented by the set of its `true` cells.
 * The geometry the worker builds from the marked cells afterwards (one box
 * per cell, merged by a library) is not part of this model; the completion
 * message carries the marked cells instead.
 */
module VoxelWorker {
  import opened RealMath
  import opened Geometry
  import opened Intersection
  import opened Cells

  /** The region to voxelize, as posted: `box.min` and the box's size. */
  datatype Box = Box(min: Vec3, size: Vec3)

  /** The message the worker receives. */
  datatype Request = Request(voxelResolution: nat, box: Box, triangles: seq<Triangle>)

  /** The box divided into `n` cells along each axis. */
  datatype Frame = Frame(box: Box, n: nat)

  function FrameOf(r: Request): Frame {
    Frame(r.box, r.voxelResolution)
  }

  /** `c` indexes the worker's `n` x `n` x `n` grid. */
  predicate InCube(c: Cell, n: int) {
    InBlock(c, n, n, n)
  }

  // ---------------------------------------------------------------------
  // Candidate index ranges
  // ---------------------------------------------------------------------

  /**
   * `Math.floor` or `Math.ceil` of a quotient in double arithmetic. Dividing
   * by a zero cell size (a flat box axis) gives an infinity or, for `0 / 0`,
   * NaN; this model has no other source of non-finite values.
   */
  datatype Bound = Finite(k: int) | PosInf | NegInf | NaN

  function FloorQuotient(a: real, d: real): (r: Bound)
    ensures d != 0.0 ==> r.Finite? && r.k as real <= a / d < r.k as real + 1.0
    ensures d == 0.0 ==> !r.Finite? && (r == PosInf <==> a > 0.0) && (r == NaN <==> a == 0.0)
  {
    if d != 0.0 then Finite(Floor(a / d))
    else if a > 0.0 then PosInf
    else if a < 0.0 then NegInf
    else NaN
  }

  function CeilQuotient(a: real, d: real): (r: Bound)
    ensures d != 0.0 ==> r.Finite? && r.k as real - 1.0 < a / d <= r.k as real
    ensures d == 0.0 ==> !r.Finite? && (r == PosInf <==> a > 0.0) && (r == NaN <==> a == 0.0)
  {
    if d != 0.0 then Finite(Ceil(a / d))
    else if a > 0.0 then PosInf
    else if a < 0.0 then NegInf
    else NaN
  }

  /** `Math.max(0, b)`: NaN stays NaN. */
  function ClampBelow(b: Bound): (r: Bound)
    ensures r != NegInf
    ensures r.Finite? ==> r.k >= 0
  {
    match b
    case Finite(k) => Finite(IntMax(0, k))
    case PosInf => PosInf
    case NegInf => Finite(0)
    case NaN => NaN
  }

  /** `Math.min(top, b)`: NaN stays NaN. */
  function ClampAbove(top: int, b: Bound): (r: Bound)
    ensures r != PosInf
    ensures r.Finite? ==> r.k <= top
  {
    match b
    case Finite(k) => Finite(IntMin(top, k))
    case PosInf => Finite(top)
    case NegInf => NegInf
    case NaN => NaN
  }

  /** The indices `lo..hi` (inclusive) a `for (i = lo; i <= hi; i++)` loop visits. */
  datatype Span = Span(lo: int, hi: int) {
    predicate Contains(i: int) {
      lo <= i <= hi
    }
  }

  /**
   * The indices `for (i = lo; i <= hi; i++)` visits for clamped bounds: all
   * of `lo..hi` when both are finite; none when the start is NaN or
   * +Infinity or the end is NaN or -Infinity, since `i <= hi` is then false
   * at once.
   */
  function LoopSpan(lo: Bound, hi: Bound): Span
    requires lo != NegInf && hi != PosInf
  {
    if lo.Finite? && hi.Finite? then Span(lo.k, hi.k) else Span(0, -1)
  }

  /**
   * The candidate indices along one axis for a triangle whose coordinates on
   * that axis range over `[low, high]`: `floor((low - origin) / cell)` up to
   * `ceil((high - origin) / cell)`, clamped to `[0, n - 1]`, where the cell
   * size is `size / n`. With `n = 0` the upper clamp `min(-1, ...)` leaves
   * nothing to visit.
   */
  function AxisSpan(low: real, high: real, origin: real, size: real, n: nat): (s: Span)
    ensures 0 <= s.lo && s.hi < n
    ensures size == 0.0 && low >= origin ==> s.hi < s.lo
  {
    if n == 0 then Span(0, -1)
    else
      var cell := size / n as real;
      LoopSpan(ClampBelow(FloorQuotient(low - origin, cell)), ClampAbove(n - 1, CeilQuotient(high - origin, cell)))
  }

  /**
   * On an axis of non-zero size the candidate range is exactly the indices
   * of the grid from the floor of the low bound's quotient to the ceiling of
   * the high bound's.
   */
  lemma AxisSpanMember(low: real, high: real, origin: real, size: real, n: nat, i: int)
    requires n > 0 && size != 0.0
    ensures AxisSpan(low, high, origin, size, n).Contains(i) <==>
      0 <= i < n && Floor((low - origin) / (size / n as real)) <= i <= Ceil((high - origin) / (size / n as real))
  {
  }

  /** `voxelSize`: the box's size on each axis divided by the resolution. */
  function CellSize(box: Box, n: nat): Vec3
    requires n > 0
  {
    Vec3(box.size.x / n as real, box.size.y / n as real, box.size.z / n as real)
  }

  /** The low end of the `k`-th of `n` cells dividing `[origin, origin + size]`. */
  function Lower(origin: real, size: real, n: nat, k: int): real
    requires n > 0
  {
    origin + k as real * (size / n as real)
  }

  /** `voxelMin`: the low corner of cell `c`. */
  function CellMin(box: Box, n: nat, c: Cell): (r: Vec3)
    requires n > 0
    ensures c == Cell(0, 0, 0) ==> r == box.min
    ensures c == Cell(n, n, n) ==> r == Add(box.min, box.size)
  {
    LowerEnds(box.min.x, box.size.x, n);
    LowerEnds(box.min.y, box.size.y, n);
    LowerEnds(box.min.z, box.size.z, n);
    Vec3(Lower(box.min.x, box.size.x, n, c.x), Lower(box.min.y, box.size.y, n, c.y), Lower(box.min.z, box.size.z, n, c.z))
  }

  /** `voxelMax`: the low corner plus one cell size. */
  function CellMax(box: Box, n: nat, c: Cell): (r: Vec3)
    requires n > 0
    ensures r == CellMin(box, n, Cell(c.x + 1, c.y + 1, c.z + 1))
  {
    LowerStep(box.min.x, box.size.x, n, c.x);
    LowerStep(box.min.y, box.size.y, n, c.y);
    LowerStep(box.min.z, box.size.z, n, c.z);
    Add(CellMin(box, n, c), CellSize(box, n))
  }

  /** The first cell starts at the origin and the `n`-th ends at `origin + size`. */
  lemma LowerEnds(origin: real, size: real, n: nat)
    requires n > 0
    ensures Lower(origin, size, n, 0) == origin
    ensures Lower(origin, size, n, n) == origin + size
  {
    var q := size / n as real;
    assert n as real * q == size;
  }

  /** One cell size on from the low end of cell `k` is the low end of cell `k + 1`. */
  lemma LowerStep(origin: real, size: real, n: nat, k: int)
    requires n > 0
    ensures Lower(origin, size, n, k) + size / n as real == Lower(origin, size, n, k + 1)
  {
    var q := size / n as real;
    assert (k + 1) as real * q == k as real * q + q;
  }

  /** The clamped candidate range of triangle `t` on axis `a`. */
  function TriangleSpan(f: Frame, t: Triangle, a: Axis): Span {
    AxisSpan(Min3(Coord(t.v0, a), Coord(t.v1, a), Coord(t.v2, a)),
             Max3(Coord(t.v0, a), Coord(t.v1, a), Coord(t.v2, a)),
             Coord(f.box.min, a), Coord(f.box.size, a), f.n)
  }

  /** `triangleIntersectsAABB(v0, v1, v2, voxelMin, voxelMax)` for cell `c`. */
  predicate CellHit(f: Frame, t: Triangle, c: Cell)
    requires InCube(c, f.n)
  {
    TriangleIntersectsAABB(t.v0, t.v1, t.v2, CellMin(f.box, f.n, c), CellMax(f.box, f.n, c))
  }

  // ---------------------------------------------------------------------
  // The occupied cells, independent of any visiting order
  // ---------------------------------------------------------------------

  /** The cells of the block `[x0, x1] x [y0, y1] x [z0, z1]` the test accepts for `t`. */
  function HitsIn(f: Frame, t: Triangle, x0: int, x1: int, y0: int, y1: int, z0: int, z1: int): (cells: set<Cell>)
    requires 0 <= x0 && 0 <= y0 && 0 <= z0
    requires x1 < f.n && y1 < f.n && z1 < f.n
    ensures forall c :: c in cells ==> InCube(c, f.n)
  {
    set x, y, z | x0 <= x <= x1 && y0 <= y <= y1 && z0 <= z <= z1 && CellHit(f, t, Cell(x, y, z)) :: Cell(x, y, z)
  }

  /** The cells triangle `t` marks: those in its clamped ranges that pass the test. */
  function Hits(f: Frame, t: Triangle): (cells: set<Cell>)
    ensures forall c :: c in cells ==> InCube(c, f.n)
  {
    var sx, sy, sz := TriangleSpan(f, t, X), TriangleSpan(f, t, Y), TriangleSpan(f, t, Z);
    HitsIn(f, t, sx.lo, sx.hi, sy.lo, sy.hi, sz.lo, sz.hi)
  }

  /** The cells each triangle of `ts` marks, in order. */
  function HitSets(f: Frame, ts: seq<Triangle>): (hs: seq<set<Cell>>)
    ensures |hs| == |ts|
    ensures forall i :: 0 <= i < |ts| ==> hs[i] == Hits(f, ts[i])
  {
    seq(|ts|, i requires 0 <= i < |ts| => Hits(f, ts[i]))
  }

  /** The cells some triangle of `ts` marks. */
  function Covered(f: Frame, ts: seq<Triangle>): set<Cell> {
    Union(HitSets(f, ts))
  }

  /** A cell is covered exactly when some triangle of the list marks it. */
  lemma CoveredMember(f: Frame, ts: seq<Triangle>, c: Cell)
    ensures c in Covered(f, ts) <==> exists i :: 0 <= i < |ts| && c in Hits(f, ts[i])
  {
    UnionMember(HitSets(f, ts), c);
  }

  /** Covering by a list is covering by its head and then its tail. */
  lemma CoveredCons(f: Frame, ts: seq<Triangle>)
    requires |ts| > 0
    ensures Covered(f, ts) == Hits(f, ts[0]) + Covered(f, ts[1..])
  {
    assert HitSets(f, ts)[1..] == HitSets(f, ts[1..]);
  }

  // ---------------------------------------------------------------------
  // The sequential scan
  // ---------------------------------------------------------------------

  /** The worker's mutable state: the `true` cells, `voxelCount`, `processedVoxels`, posted progress. */
  datatype WorkerState = WorkerState(grid: set<Cell>, voxelCount: nat, processedVoxels: nat, reports: seq<real>)

  function Initial(): WorkerState {
    WorkerState({}, 0, 0, [])
  }

  /** `totalVoxels`. */
  function TotalVoxels(n: nat): nat {
    n * n * n
  }

  /**
   * The posted progress `Math.min(100, processed / total * 100)`. The
   * processed count can exceed the total (a cell rejected for one triangle
   * is tested again for the next), which the clamp absorbs. The `total == 0`
   * branch is never reached by the scan: with a resolution of zero every
   * candidate range is empty, so no cell is processed and no value is
   * posted; it returns 100 only to keep the function total.
   */
  function Percent(processed: nat, total: nat): (p: real)
    ensures 0.0 <= p <= 100.0
  {
    if total == 0 then 100.0 else Min(100.0, (processed as real / total as real) * 100.0)
  }

  lemma PercentMonotonic(p: nat, q: nat, total: nat)
    requires p <= q
    ensures Percent(p, total) <= Percent(q, total)
  {
    if total > 0 {
      var t := total as real;
      assert p as real / t <= q as real / t;
    }
  }

  /** The invariant the scan keeps. */
  predicate Consistent(st: WorkerState, n: nat) {
    && (forall c :: c in st.grid ==> InCube(c, n))
    && st.voxelCount == |st.grid|
    && (forall i :: 0 <= i < |st.reports| ==> st.reports[i] <= Percent(st.processedVoxels, TotalVoxels(n)))
    && (forall i :: 0 <= i < |st.reports| ==> 0.0 <= st.reports[i] <= 100.0)
    && (forall i, j :: 0 <= i < j < |st.reports| ==> st.reports[i] <= st.reports[j])
  }

  /** The body of the innermost loop for cell `c`. */
  function Visit(st: WorkerState, f: Frame, t: Triangle, c: Cell): (out: WorkerState)
    requires InCube(c, f.n)
    ensures st.grid <= out.grid <= st.grid + {c}
    ensures c in st.grid ==> out == st
    ensures c !in st.grid ==>
      out.processedVoxels == st.processedVoxels + 1 && (c in out.grid <==> CellHit(f, t, c))
    ensures Consistent(st, f.n) ==> Consistent(out, f.n)
  {
    if c in st.grid then st
    else
      var hit := CellHit(f, t, c);
      var processed := st.processedVoxels + 1;
      var reports :=
        if processed % 1000 == 0 then st.reports + [Percent(processed, TotalVoxels(f.n))]
        else st.reports;
      var out := WorkerState(
        if hit then st.grid + {c} else st.grid,
        if hit then st.voxelCount + 1 else st.voxelCount,
        processed,
        reports);
      PercentMonotonic(st.processedVoxels, processed, TotalVoxels(f.n));
      out
  }

  /** The `z` loop: cells `(x, y, z..hiZ)`. */
  function ScanZ(st: WorkerState, f: Frame, t: Triangle, x: int, y: int, z: int, hiZ: int): (out: WorkerState)
    requires 0 <= x < f.n && 0 <= y < f.n && 0 <= z && hiZ < f.n
    ensures out.grid == st.grid + HitsIn(f, t, x, x, y, y, z, hiZ)
    ensures Consistent(st, f.n) ==> Consistent(out, f.n)
    decreases hiZ - z
  {
    if z > hiZ then
      EmptyHits(f, t, x, x, y, y, z, hiZ);
      st
    else
      PeelZ(f, t, x, y, z, hiZ);
      ScanZ(Visit(st, f, t, Cell(x, y, z)), f, t, x, y, z + 1, hiZ)
  }

  /** The `y` loop: rows `(x, y..hiY, zs)`. */
  function ScanY(st: WorkerState, f: Frame, t: Triangle, x: int, y: int, hiY: int, zs: Span): (out: WorkerState)
    requires 0 <= x < f.n && 0 <= y && hiY < f.n
    requires 0 <= zs.lo && zs.hi < f.n
    ensures out.grid == st.grid + HitsIn(f, t, x, x, y, hiY, zs.lo, zs.hi)
    ensures Consistent(st, f.n) ==> Consistent(out, f.n)
    decreases hiY - y
  {
    if y > hiY then
      EmptyHits(f, t, x, x, y, hiY, zs.lo, zs.hi);
      st
    else
      PeelY(f, t, x, y, hiY, zs.lo, zs.hi);
      ScanY(ScanZ(st, f, t, x, y, zs.lo, zs.hi), f, t, x, y + 1, hiY, zs)
  }

  /** The `x` loop: slices `(x..hiX, ys, zs)`. */
  function ScanX(st: WorkerState, f: Frame, t: Triangle, x: int, hiX: int, ys: Span, zs: Span): (out: WorkerState)
    requires 0 <= x && hiX < f.n
    requires 0 <= ys.lo && ys.hi < f.n && 0 <= zs.lo && zs.hi < f.n
    ensures out.grid == st.grid + HitsIn(f, t, x, hiX, ys.lo, ys.hi, zs.lo, zs.hi)
    ensures Consistent(st, f.n) ==> Consistent(out, f.n)
    decreases hiX - x
  {
    if x > hiX then
      EmptyHits(f, t, x, hiX, ys.lo, ys.hi, zs.lo, zs.hi);
      st
    else
      PeelX(f, t, x, hiX, ys.lo, ys.hi, zs.lo, zs.hi);
      ScanX(ScanY(st, f, t, x, ys.lo, ys.hi, zs), f, t, x + 1, hiX, ys, zs)
  }

  /** One iteration of `for (const triangle of triangles)`. */
  function ScanTriangle(st: WorkerState, f: Frame, t: Triangle): (out: WorkerState)
    ensures out.grid == st.grid + Hits(f, t)
    ensures Consistent(st, f.n) ==> Consistent(out, f.n)
  {
    var sx, sy, sz := TriangleSpan(f, t, X), TriangleSpan(f, t, Y), TriangleSpan(f, t, Z);
    ScanX(st, f, t, sx.lo, sx.hi, sy, sz)
  }

  /** The triangle loop over `ts`, in order. */
  function ScanAll(st: WorkerState, f: Frame, ts: seq<Triangle>): (out: WorkerState)
    ensures out.grid == st.grid + Covered(f, ts)
    ensures Consistent(st, f.n) ==> Consistent(out, f.n)
    decreases |ts|
  {
    if |ts| == 0 then st
    else
      CoveredCons(f, ts);
      ScanAll(ScanTriangle(st, f, ts[0]), f, ts[1..])
  }

  // ---------------------------------------------------------------------
  // Splitting blocks of candidate cells
  // ---------------------------------------------------------------------

  lemma EmptyHits(f: Frame, t: Triangle, x0: int, x1: int, y0: int, y1: int, z0: int, z1: int)
    requires 0 <= x0 && 0 <= y0 && 0 <= z0
    requires x1 < f.n && y1 < f.n && z1 < f.n
    requires x1 < x0 || y1 < y0 || z1 < z0
    ensures HitsIn(f, t, x0, x1, y0, y1, z0, z1) == {}
  {
    forall c | c in HitsIn(f, t, x0, x1, y0, y1, z0, z1) ensures false { }
  }

  lemma PeelZ(f: Frame, t: Triangle, x: int, y: int, z: int, hiZ: int)
    requires 0 <= x < f.n && 0 <= y < f.n && 0 <= z <= hiZ < f.n
    ensures HitsIn(f, t, x, x, y, y, z, hiZ)
         == (if CellHit(f, t, Cell(x, y, z)) then {Cell(x, y, z)} else {}) + HitsIn(f, t, x, x, y, y, z + 1, hiZ)
  {
  }

  lemma PeelY(f: Frame, t: Triangle, x: int, y: int, hiY: int, z0: int, z1: int)
    requires 0 <= x < f.n && 0 <= y <= hiY < f.n
    requires 0 <= z0 && z1 < f.n
    ensures HitsIn(f, t, x, x, y, hiY, z0, z1) == HitsIn(f, t, x, x, y, y, z0, z1) + HitsIn(f, t, x, x, y + 1, hiY, z0, z1)
  {
  }

  lemma PeelX(f: Frame, t: Triangle, x: int, hiX: int, y0: int, y1: int, z0: int, z1: int)
    requires 0 <= x <= hiX < f.n
    requires 0 <= y0 && y1 < f.n && 0 <= z0 && z1 < f.n
    ensures HitsIn(f, t, x, hiX, y0, y1, z0, z1) == HitsIn(f, t, x, x, y0, y1, z0, z1) + HitsIn(f, t, x + 1, hiX, y0, y1, z0, z1)
  {
  }

  // ---------------------------------------------------------------------
  // The worker's messages
  // ---------------------------------------------------------------------

  /** What the worker posts back: `{progress}`, `{error}`, or the completion message. */
  datatype Message =
    | Progress(progress: real)
    | Failure(error: string)
    | Complete(voxelCount: nat, cells: set<Cell>)

  const NoVoxelsError := "Aucun voxel g\U{e9}n\U{e9}r\U{e9} dans le Worker."

  function Last(ms: seq<Message>): Message
    requires |ms| > 0
  {
    ms[|ms| - 1]
  }

  /** The progress values posted so far lie in `[0, 100]` and never decrease. */
  predicate ProgressSoFar(ms: seq<Message>, k: int)
    requires 0 <= k <= |ms|
  {
    && (forall i :: 0 <= i < k ==> ms[i].Progress? && 0.0 <= ms[i].progress <= 100.0)
    && (forall i, j :: 0 <= i < j < k ==> ms[i].Progress? && ms[j].Progress? && ms[i].progress <= ms[j].progress)
  }

  /**
   * The messages posted once the loops are done: the periodic progress
   * reports, then the no-voxel error or a final `progress: 100` followed by
   * the completion message.
   */
  function Outcome(st: WorkerState, n: nat): (ms: seq<Message>)
    requires Consistent(st, n)
    ensures |ms| >= 1 && ProgressSoFar(ms, |ms| - 1)
    ensures Last(ms) == if st.grid == {} then Failure(NoVoxelsError) else Complete(|st.grid|, st.grid)
  {
    var progress := seq(|st.reports|, i requires 0 <= i < |st.reports| => Progress(st.reports[i]));
    if st.voxelCount == 0 then progress + [Failure(NoVoxelsError)]
    else progress + [Progress(100.0), Complete(st.voxelCount, st.grid)]
  }

  /** The messages the worker posts for a request. */
  function RunWorker(r: Request): (ms: seq<Message>)
    ensures |ms| >= 1 && ProgressSoFar(ms, |ms| - 1)
    ensures var cells := Covered(FrameOf(r), r.triangles);
      Last(ms) == if cells == {} then Failure(NoVoxelsError) else Complete(|cells|, cells)
    ensures Last(ms).Complete? ==> forall c :: c in Last(ms).cells ==> InCube(c, r.voxelResolution)
  {
    var st := ScanAll(Initial(), FrameOf(r), r.triangles);
    Outcome(st, r.voxelResolution)
  }

  // ---------------------------------------------------------------------
  // Properties of the voxelization
  // ---------------------------------------------------------------------

  /** Covering depends only on which triangles occur, not on their order or repetition. */
  lemma CoveredBySameTriangles(f: Frame, ts: seq<Triangle>, us: seq<Triangle>)
    requires forall t :: t in ts <==> t in us
    ensures Covered(f, ts) == Covered(f, us)
  {
    forall c ensures c in Covered(f, ts) <==> c in Covered(f, us) {
      CoveredMember(f, ts, c);
      CoveredMember(f, us, c);
      if c in Covered(f, ts) {
        var i :| 0 <= i < |ts| && c in Hits(f, ts[i]);
        assert ts[i] in us;
      }
      if c in Covered(f, us) {
        var i :| 0 <= i < |us| && c in Hits(f, us[i]);
        assert us[i] in ts;
      }
    }
  }

  /**
   * Reordering or repeating the triangles of a request leaves the outcome
   * unchanged: the same error, or the same count and the same cells.
   */
  lemma OrderIndependent(r1: Request, r2: Request)
    requires r1.box == r2.box && r1.voxelResolution == r2.voxelResolution
    requires forall t :: t in r1.triangles <==> t in r2.triangles
    ensures Last(RunWorker(r1)) == Last(RunWorker(r2))
  {
    CoveredBySameTriangles(FrameOf(r1), r1.triangles, r2.triangles);
  }

  /**
   * A box with no extent along some axis, holding its triangles, yields no
   * cell: the index bounds along that axis are `0 / 0` or `+x / 0`, and the
   * loop over them never runs. The request ends with the no-voxel error.
   */
  lemma FlatBoxMarksNothing(r: Request, a: Axis)
    requires Coord(r.box.size, a) == 0.0
    requires forall t :: t in r.triangles ==>
      Coord(t.v0, a) >= Coord(r.box.min, a) && Coord(t.v1, a) >= Coord(r.box.min, a) && Coord(t.v2, a) >= Coord(r.box.min, a)
    ensures Covered(FrameOf(r), r.triangles) == {}
    ensures Last(RunWorker(r)) == Failure(NoVoxelsError)
  {
    var f := FrameOf(r);
    forall i | 0 <= i < |r.triangles| ensures Hits(f, r.triangles[i]) == {} {
      FlatTriangleMarksNothing(f, r.triangles[i], a);
    }
    forall c ensures c !in Covered(f, r.triangles) {
      CoveredMember(f, r.triangles, c);
    }
  }

  lemma FlatTriangleMarksNothing(f: Frame, t: Triangle, a: Axis)
    requires Coord(f.box.size, a) == 0.0
    requires Coord(t.v0, a) >= Coord(f.box.min, a) && Coord(t.v1, a) >= Coord(f.box.min, a) && Coord(t.v2, a) >= Coord(f.box.min, a)
    ensures Hits(f, t) == {}
  {
    var sx, sy, sz := TriangleSpan(f, t, X), TriangleSpan(f, t, Y), TriangleSpan(f, t, Z);
    assert TriangleSpan(f, t, a).hi < TriangleSpan(f, t, a).lo;
    EmptyHits(f, t, sx.lo, sx.hi, sy.lo, sy.hi, sz.lo, sz.hi);
  }

  /**
   * A request whose triangles all lie in the max face `min + size` of the box
   * on axis `a` marks nothing and ends with the no-voxel error: the floor of
   * `size / (size / n)` is `n`, one past the last index.
   */
  lemma MaxFaceMarksNothing(r: Request, a: Axis)
    requires forall t :: t in r.triangles ==>
      var top := Coord(r.box.min, a) + Coord(r.box.size, a);
      Coord(t.v0, a) == top && Coord(t.v1, a) == top && Coord(t.v2, a) == top
    ensures Covered(FrameOf(r), r.triangles) == {}
    ensures Last(RunWorker(r)) == Failure(NoVoxelsError)
  {
    var f := FrameOf(r);
    forall i | 0 <= i < |r.triangles| ensures Hits(f, r.triangles[i]) == {} {
      MaxFaceTriangleMarksNothing(f, r.triangles[i], a);
    }
    forall c ensures c !in Covered(f, r.triangles) {
      CoveredMember(f, r.triangles, c);
    }
  }

  /** A triangle lying in the max face of the box on axis `a` marks no cell. */
  lemma MaxFaceTriangleMarksNothing(f: Frame, t: Triangle, a: Axis)
    requires var top := Coord(f.box.min, a) + Coord(f.box.size, a);
      Coord(t.v0, a) == top && Coord(t.v1, a) == top && Coord(t.v2, a) == top
    ensures Hits(f, t) == {}
  {
    var origin, size := Coord(f.box.min, a), Coord(f.box.size, a);
    if size == 0.0 {
      FlatTriangleMarksNothing(f, t, a);
    } else {
      var sx, sy, sz := TriangleSpan(f, t, X), TriangleSpan(f, t, Y), TriangleSpan(f, t, Z);
      TopSpanEmpty(origin, size, f.n);
      assert TriangleSpan(f, t, a) == AxisSpan(origin + size, origin + size, origin, size, f.n);
      EmptyHits(f, t, sx.lo, sx.hi, sy.lo, sy.hi, sz.lo, sz.hi);
    }
  }

  /** On an axis of non-zero size, the coordinate `origin + size` has no candidate index. */
  lemma TopSpanEmpty(origin: real, size: real, n: nat)
    requires size != 0.0
    ensures var s := AxisSpan(origin + size, origin + size, origin, size, n); s.hi < s.lo
  {
    if n > 0 {
      var cell := size / n as real;
      assert (origin + size - origin) / cell == n as real;
      assert FloorQuotient(origin + size - origin, cell) == Finite(n);
    }
  }

  /** `p` lies in the half-open box `[min, min + size)`. */
  predicate InsideBox(p: Vec3, box: Box) {
    && box.min.x <= p.x < box.min.x + box.size.x
    && box.min.y <= p.y < box.min.y + box.size.y
    && box.min.z <= p.z < box.min.z + box.size.z
  }

  /** The cell whose half-open extent holds `p`. */
  function CellOf(f: Frame, p: Vec3): Cell
    requires f.n > 0
    requires f.box.size.x > 0.0 && f.box.size.y > 0.0 && f.box.size.z > 0.0
  {
    var cs := CellSize(f.box, f.n);
    Cell(Floor((p.x - f.box.min.x) / cs.x), Floor((p.y - f.box.min.y) / cs.y), Floor((p.z - f.box.min.z) / cs.z))
  }

  /**
   * Every point of every triangle that lies in the half-open box
   * `[min, min + size)` ends up in a marked cell: the cell holding it is in the completion message.
   */
  lemma SurfaceCovered(r: Request, i: int, s: real, u: real)
    requires r.voxelResolution > 0
    requires r.box.size.x > 0.0 && r.box.size.y > 0.0 && r.box.size.z > 0.0
    requires 0 <= i < |r.triangles| && OnTriangle(s, u)
    requires InsideBox(PointOf(r.triangles[i], s, u), r.box)
    ensures Last(RunWorker(r)).Complete?
    ensures CellOf(FrameOf(r), PointOf(r.triangles[i], s, u)) in Last(RunWorker(r)).cells
  {
    var f, t := FrameOf(r), r.triangles[i];
    var c := CellOf(f, PointOf(t, s, u));
    TriangleMarksItsCells(f, t, s, u);
    CoveredMember(f, r.triangles, c);
  }

  /** The cell holding a point of `t` inside the box is one `t` marks. */
  lemma TriangleMarksItsCells(f: Frame, t: Triangle, s: real, u: real)
    requires f.n > 0
    requires f.box.size.x > 0.0 && f.box.size.y > 0.0 && f.box.size.z > 0.0
    requires OnTriangle(s, u)
    requires InsideBox(PointOf(t, s, u), f.box)
    ensures CellOf(f, PointOf(t, s, u)) in Hits(f, t)
  {
    var c := CellOf(f, PointOf(t, s, u));
    CellOfPoint(f, t, s, u);
    NoFalseNegatives(t, CellMin(f.box, f.n, c), CellMax(f.box, f.n, c), s, u);
    assert CellHit(f, t, c);
  }

  /**
   * The cell holding a point of `t` inside the box lies in the triangle's
   * candidate ranges, and its closed extent holds the point.
   */
  lemma CellOfPoint(f: Frame, t: Triangle, s: real, u: real)
    requires f.n > 0
    requires f.box.size.x > 0.0 && f.box.size.y > 0.0 && f.box.size.z > 0.0
    requires OnTriangle(s, u)
    requires InsideBox(PointOf(t, s, u), f.box)
    ensures var c := CellOf(f, PointOf(t, s, u));
      && TriangleSpan(f, t, X).Contains(c.x) && TriangleSpan(f, t, Y).Contains(c.y) && TriangleSpan(f, t, Z).Contains(c.z)
      && InClosedBox(PointOf(t, s, u), CellMin(f.box, f.n, c), CellMax(f.box, f.n, c))
  {
    AxisOfPoint(f, t, s, u, X);
    AxisOfPoint(f, t, s, u, Y);
    AxisOfPoint(f, t, s, u, Z);
  }

  /** `CellOfPoint` along axis `a`. */
  lemma AxisOfPoint(f: Frame, t: Triangle, s: real, u: real, a: Axis)
    requires f.n > 0 && Coord(f.box.size, a) > 0.0 && OnTriangle(s, u)
    requires Coord(f.box.min, a) <= Coord(PointOf(t, s, u), a) < Coord(f.box.min, a) + Coord(f.box.size, a)
    ensures var origin, size, p := Coord(f.box.min, a), Coord(f.box.size, a), Coord(PointOf(t, s, u), a);
      var k := Floor((p - origin) / (size / f.n as real));
      TriangleSpan(f, t, a).Contains(k) && Lower(origin, size, f.n, k) <= p <= Lower(origin, size, f.n, k) + size / f.n as real
  {
    PointCoord(t, s, u, a);
    AxisCell(Coord(t.v0, a), Coord(t.v1, a), Coord(t.v2, a), Coord(PointOf(t, s, u), a), s, u,
             Coord(f.box.min, a), Coord(f.box.size, a), f.n);
  }

  /** A coordinate of `PointOf` is the same combination of the vertices' coordinates. */
  lemma PointCoord(t: Triangle, s: real, u: real, a: Axis)
    ensures var w0, w1, w2 := Coord(t.v0, a), Coord(t.v1, a), Coord(t.v2, a);
      Coord(PointOf(t, s, u), a) == w0 + (s * (w1 - w0) + u * (w2 - w0))
  {
  }

  /**
   * One axis of `CellOfPoint`: the index of the cell holding coordinate `p`
   * is in the triangle's candidate range, and the cell's closed extent holds
   * `p`.
   */
  lemma AxisCell(w0: real, w1: real, w2: real, p: real, s: real, u: real, origin: real, size: real, n: nat)
    requires OnTriangle(s, u)
    requires p == w0 + (s * (w1 - w0) + u * (w2 - w0))
    requires n > 0 && size > 0.0
    requires origin <= p < origin + size
    ensures var k := Floor((p - origin) / (size / n as real));
      && AxisSpan(Min3(w0, w1, w2), Max3(w0, w1, w2), origin, size, n).Contains(k)
      && Lower(origin, size, n, k) <= p <= Lower(origin, size, n, k) + size / n as real
  {
    CoordBetween(w0, w1, w2, p, s, u);
    IndexInSpan(Min3(w0, w1, w2), p, Max3(w0, w1, w2), origin, size, n);
    IndexHolds(p, origin, size, n);
  }

  /** The index of the cell holding `p` lies in the candidate range of any `[lowest, highest]` around `p`. */
  lemma IndexInSpan(lowest: real, p: real, highest: real, origin: real, size: real, n: nat)
    requires lowest <= p <= highest
    requires n > 0 && size > 0.0
    requires origin <= p < origin + size
    ensures AxisSpan(lowest, highest, origin, size, n).Contains(Floor((p - origin) / (size / n as real)))
  {
    var cs := size / n as real;
    var k := Floor((p - origin) / cs);
    AxisSpanMember(lowest, highest, origin, size, n, k);
    QuotientBetween(lowest, p, highest, origin, cs);
    IndexInRange(p - origin, size, n);
  }

  /** The cell whose index is the floor of `p`'s quotient holds `p`. */
  lemma IndexHolds(p: real, origin: real, size: real, n: nat)
    requires n > 0 && size > 0.0
    ensures var k := Floor((p - origin) / (size / n as real));
      Lower(origin, size, n, k) <= p <= Lower(origin, size, n, k) + size / n as real
  {
    var cs := size / n as real;
    CellHolds(p - origin, cs, Floor((p - origin) / cs));
  }

  /** A coordinate of a point of the triangle lies between the vertices' least and greatest. */
  lemma CoordBetween(w0: real, w1: real, w2: real, p: real, s: real, u: real)
    requires OnTriangle(s, u)
    requires p == w0 + (s * (w1 - w0) + u * (w2 - w0))
    ensures Min3(w0, w1, w2) <= p <= Max3(w0, w1, w2)
  {
    CentredCombination(w0, w1, w2, 0.0, s, u);
    ConvexBetween(1.0 - s - u, s, u, w0, w1, w2);
  }

  /** Dividing a range by a positive cell size keeps the floor of the middle inside. */
  lemma QuotientBetween(lowest: real, p: real, highest: real, origin: real, cs: real)
    requires lowest <= p <= highest && cs > 0.0
    ensures Floor((lowest - origin) / cs) <= Floor((p - origin) / cs) <= Ceil((highest - origin) / cs)
  {
    DivMonotonic(lowest - origin, p - origin, cs);
    DivMonotonic(p - origin, highest - origin, cs);
    FloorCeilMonotonic((lowest - origin) / cs, (p - origin) / cs);
    FloorCeilMonotonic((p - origin) / cs, (highest - origin) / cs);
  }

  lemma DivMonotonic(a: real, b: real, d: real)
    requires a <= b && d > 0.0
    ensures a / d <= b / d
  {
  }

  /** `0 <= a < size` puts `floor(a / (size / n))` in `0..n-1`. */
  lemma IndexInRange(a: real, size: real, n: nat)
    requires n > 0 && 0.0 <= a < size
    ensures 0 <= Floor(a / (size / n as real)) < n
  {
    var cs := size / n as real;
    assert size / cs == n as real;
    DivMonotonic(a, size, cs);
    assert a / cs < n as real by {
      assert a / cs * cs == a;
    }
  }

  /** The `k`-th cell of size `cs` holds every offset whose quotient floors to `k`. */
  lemma CellHolds(a: real, cs: real, k: int)
    requires cs > 0.0 && k == Floor(a / cs)
    ensures k as real * cs <= a <= k as real * cs + cs
  {
    var q := a / cs;
    var kr := k as real;
    assert cs * q == a;
    MulMonotonic(cs, kr, q);
    MulMonotonic(cs, q, kr + 1.0);
    assert cs * kr == kr * cs;
    assert cs * (kr + 1.0) == kr * cs + cs;
  }

  /** The marked cells fit in the `n` x `n` x `n` grid. */
  lemma CoveredBounded(f: Frame, ts: seq<Triangle>)
    ensures forall c :: c in Covered(f, ts) ==> InCube(c, f.n)
    ensures |Covered(f, ts)| <= TotalVoxels(f.n)
  {
    var cells := Covered(f, ts);
    forall c | c in cells ensures InBlock(c, f.n, f.n, f.n) {
      CoveredMember(f, ts, c);
      var i :| 0 <= i < |ts| && c in Hits(f, ts[i]);
    }
    BlockBound(cells, f.n, f.n, f.n);
  }

  /** A completed run never reports more voxels than the `n` x `n` x `n` grid holds. */
  lemma VoxelCountBounded(r: Request)
    ensures Last(RunWorker(r)).Complete? ==> Last(RunWorker(r)).voxelCount <= TotalVoxels(r.voxelResolution)
  {
    CoveredBounded(FrameOf(r), r.triangles);
  }
}
