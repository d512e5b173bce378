# Voxelizer and schematic builder, modelled in Dafny

This project models the two computational cores of a browser tool that turns
a 3D mesh into a Minecraft schematic:

* **The voxelizer** that runs inside the inline Web Worker of `script.js`.
  It divides the model's bounding box into a cubic grid of
  `voxelResolution`³ cells. Each cell has the per-axis size
  `box.size / voxelResolution`. For each triangle the worker:
  * clamps the triangle's candidate index ranges to the grid;
  * runs `triangleIntersectsAABB` on every candidate cell that is not yet
    marked, and marks the cell when the test passes;
  * counts the marked cells and posts clamped progress values.

  At the end the worker posts either the no-voxel error or a final
  `progress: 100` followed by the completion message.
* **The main-thread guards** of `updateVoxelModel`, which refuse to post a
  request in three cases:
  * no model is loaded;
  * `voxelResolution³ > 512³`;
  * the model contributes no triangles.
* **`SchematicGenerator.generateSchem`**, in steps:
  1. It derives the per-axis resolutions `Math.ceil(size / voxelSize) || 1`.
  2. It fills a 0/1 grid from the voxel positions and silently drops the ones outside the grid.
  3. It linearises the grid into `BlockData` in Y-outer, Z-middle, X-inner order.
  4. It builds the two-entry palette and the Sponge schematic (version 2) tag tree.
  5. It returns the file name, the dimensions and the block count.

Files:

| file | module | contents |
|---|---|---|
| `real_math.dfy` | `RealMath` | `Math.min/max/abs/floor/ceil` on exact reals |
| `geometry.dfy` | `Geometry` | vectors, triangles, dot and cross products, points of a triangle |
| `intersection.dfy` | `Intersection` | `triangleIntersectsAABB` and its soundness |
| `cells.dfy` | `Cells` | integer cells, rectangular blocks of cells and their sizes, unions |
| `voxel_worker.dfy` | `VoxelWorker` | index ranges, the scan, the messages, and their properties |
| `dispatch.dfy` | `Dispatch` | the guards of `updateVoxelModel` |
| `schematic_grid.dfy` | `SchematicGrid` | resolutions, the filled grid, the YZX linearisation and its inverse |
| `nbt.dfy` | `Nbt` | the NBT tag tree as a datatype, with JavaScript-object assignment and lookup |
| `schematic.dfy` | `Schematic` | `generateSchem`: palette, document, errors and the decoded round trip |
| `wrappers.dfy` | `Wrappers` | `Option` and `Result` |

Behaviour of the code that is easy to get wrong:

* **Separating axes.** `triangleIntersectsAABB` tests only the three box axes and the triangle's plane. It does not test the nine edge-cross-product axes. It is still conservative, as `Intersection.NoFalseNegatives` shows.
* **Cell size.** The cell size is per axis, `box.size / voxelResolution`, on a cubic grid. It is not a single cube size taken from the longest side.
* **Flat box axis.** Along a box axis of size zero, the worker's index bounds divide by zero. The loop over that axis never runs, so the request ends with the no-voxel error (`VoxelWorker.FlatBoxMarksNothing`).
* **Max faces of the box.** The box is closed, but the cells cover it only as a half-open box `[min, min + size)`. A triangle lying in a max face (`min + size` on some axis) has its lower index bound `floor(size / (size / n)) = n`, one past the last index, so on its own it marks nothing (`VoxelWorker.MaxFaceMarksNothing`). So in a box-shaped mesh the triangles of the +x, +y and +z faces mark no cells themselves.
* **Resolution fallback.** The schematic's resolution is `ceil(q) || 1`, not `max(1, ceil(q))`. Only a ceiling of zero falls back to one; a negative ceiling is kept.
* **Air palette entry.** The palette does not always map air to 0. A block type of `minecraft:air` overwrites that entry with 1. Every air cell of `BlockData` then holds id 0, which the palette no longer has (`Schematic.AirIdInPalette`).

Geometry is exact `real` arithmetic. A JavaScript double's division by zero
is modelled explicitly, as `VoxelWorker.Bound`.

## Model

| member | source | states |
|---|---|---|
| Intersection.TriangleIntersectsAABB | script.js:477-519 | The test rejects whenever, on some axis, all three vertices (relative to the box centre) lie beyond the half extent on the same side. Otherwise it accepts exactly when `abs(n · (v0 - c))` is at most `sum of e_i * abs(n_i)`, with `n = (v1 - v0) x (v2 - v0)`. |
| Intersection.AxisTest | script.js:496-506 | On each axis, the body's `min > extent or max < -extent` rejection is exactly "all three centred coordinates beyond the extent on one side". |
| Intersection.PlaneTestAgrees | script.js:508-518 | The body's plane distance, computed from centred vertices, is the distance from the uncentred plane to the centre. The single-argument `Math.min`/`Math.max` pair reduces to one absolute value. |
| Intersection.NoFalseNegatives | script.js:477-519 | Partner property: when some point of the triangle lies in the closed box, the test accepts. Skipping the edge axes only ever errs towards marking a cell. |
| VoxelWorker.FloorQuotient | script.js:360-364 | `Math.floor((low - box.min) / voxelSize)`: for a non-zero cell size, the greatest integer at most the quotient. For a zero cell size it is not finite: +Infinity exactly when the numerator is positive, and NaN exactly when it is zero. |
| VoxelWorker.CeilQuotient | script.js:361-365 | `Math.ceil((high - box.min) / voxelSize)`: for a non-zero cell size, the least integer at least the quotient. For a zero cell size it is +Infinity, -Infinity or NaN by the sign of the numerator. |
| VoxelWorker.ClampBelow | script.js:360-365 | `Math.max(0, b)` never yields -Infinity, and a finite result is at least 0. |
| VoxelWorker.ClampAbove | script.js:360-365 | `Math.min(n - 1, b)` never yields +Infinity, and a finite result is at most `n - 1`. |
| VoxelWorker.AxisSpan | script.js:360-365 | Every index the loop visits lies in `[0, voxelResolution - 1]`, so each `grid[x][y][z]` access is in bounds. On an axis of size zero (with the triangle at or above the box minimum), nothing is visited. |
| VoxelWorker.AxisSpanMember | script.js:360-367 | On an axis of non-zero size, the visited indices are exactly the grid indices from `floor` of the low quotient to `ceil` of the high quotient. |
| VoxelWorker.CellMin | script.js:371-375 | `voxelMin`: cell `(0, 0, 0)` starts at the box minimum, and cell `(n, n, n)` starts at the box maximum `min + size`, so the `n` cells per axis span the box. |
| VoxelWorker.CellMax | script.js:376-380 | `voxelMax`, the low corner plus one cell size, is the low corner of the diagonally next cell: neighbouring cells abut. |
| VoxelWorker.Percent | script.js:386-388 | Every posted progress value lies in `[0, 100]`, even when `processedVoxels` exceeds `totalVoxels`. |
| VoxelWorker.PercentMonotonic | script.js:385-388 | More processed cells never give a smaller progress value. |
| VoxelWorker.Visit | script.js:370-389 | Marking is monotonic: no cell is unmarked, and only `c` can be added. An already-marked cell is skipped without a test and without counting. Otherwise the cell is counted as processed and is marked exactly when the test accepts. The scan invariant is kept: `voxelCount` equals the number of marked cells, and reports are in range and non-decreasing. |
| VoxelWorker.ScanZ | script.js:369-390 | After the z loop, the marked set is the old set plus the cells of the row the test accepts. The invariant is kept. |
| VoxelWorker.ScanY | script.js:368-391 | After the y loop, the marked set gains exactly the accepted cells of the slab. |
| VoxelWorker.ScanX | script.js:367-392 | After the x loop, the marked set gains exactly the accepted cells of the clamped block. |
| VoxelWorker.ScanTriangle | script.js:358-393 | One triangle adds exactly the cells it marks (`Hits`): the cells in its clamped ranges that pass the test. |
| VoxelWorker.ScanAll | script.js:358-393 | After the triangle loop, the marked set is exactly the union, over the triangles, of the cells each marks, independent of visiting order. `voxelCount` equals its size. |
| VoxelWorker.CoveredMember | script.js:358-393 | A cell ends up marked exactly when some triangle of the list marks it. |
| VoxelWorker.Outcome | script.js:386-475 | Every message but the last is a progress value in `[0, 100]`, and these values never decrease. The last message is the no-voxel error when nothing is marked, and otherwise completion with the count and the cells. |
| VoxelWorker.RunWorker | script.js:340-475 | For a whole request: the progress values are in range and non-decreasing. The terminal message is the no-voxel error exactly when no triangle marks a cell. Otherwise it is completion with `voxelCount` equal to the number of marked cells, all inside the `n`³ grid. |
| VoxelWorker.OrderIndependent | script.js:358-393 | Two requests with the same box, resolution and set of triangles end in the same message, whatever the order or repetition of the triangles. |
| VoxelWorker.CoveredBySameTriangles | script.js:358-393 | The marked set depends only on which triangles occur. |
| VoxelWorker.FlatBoxMarksNothing | script.js:346-367 | With a box of size zero on some axis (triangles at or above its minimum), the division by a zero cell size stops the loop, no cell is marked, and the worker posts the no-voxel error. |
| VoxelWorker.SurfaceCovered | script.js:358-399 | For a positive box and resolution, every point of a triangle in the half-open box `[min, min + size)` lies in a cell of the completion message. |
| VoxelWorker.MaxFaceMarksNothing | script.js:358-399 | A request whose triangles all lie in the max face `min + size` of the box on one axis marks no cell and ends with the no-voxel error. |
| VoxelWorker.MaxFaceTriangleMarksNothing | script.js:360-365 | A triangle lying in the max face of the box on one axis marks no cell: on that axis the floor of the quotient is `n`, past the last index. |
| VoxelWorker.TriangleMarksItsCells | script.js:360-384 | The cell holding a point of a triangle in the half-open box is within that triangle's clamped ranges and passes the test. |
| VoxelWorker.CoveredBounded | script.js:351-356 | The marked cells lie in the `n`³ grid, and there are at most `totalVoxels` of them. |
| VoxelWorker.VoxelCountBounded | script.js:354-356 | A completion message never reports more voxels than `voxelResolution³`. |
| Cells.BlockSize | script.js:351-356 | The grid `new Array(n)` of `new Array(n)` of `new Array(n)` has exactly `n * n * n` cells, which is `totalVoxels`. |
| Cells.BlockBound | script.js:351-356 | A set of cells inside a `w` x `h` x `l` grid has at most `w * h * l` members. |
| Dispatch.UpdateVoxelModel | script.js:320-636 | The guards run in order: no model, then `voxelResolution³ > 512³`, then no triangles, each with its message. A request is posted exactly when a model is loaded, the resolution is at most 512 and there is a triangle. It carries the resolution, the box and the triangles, as the `postMessage` at the end does. |
| Dispatch.ResolutionGuard | script.js:529-533 | `voxelResolution ** 3 > 512 * 512 * 512` holds exactly when the resolution exceeds 512. |
| Dispatch.PostedRequestsAreBounded | script.js:529-556 | A posted request has at most `512³` cells and at least one triangle. |
| SchematicGrid.AxisResolution | schematicGenerator.js:18-20 | The resolution is the ceiling of `size / voxelSize`: it exceeds the quotient by less than one. A quotient in `(-1, 0]` falls back to 1. The resolution is at least 1 exactly when the quotient exceeds -1. |
| SchematicGrid.ZeroGrid | schematicGenerator.js:31-35 | The initial grid is `resX` x `resY` x `resZ`, all zeros (air). |
| SchematicGrid.MarkPosition | schematicGenerator.js:38-42 | One position sets its cell to 1 when it lies inside the grid; no other cell changes, and an outside position changes nothing. |
| SchematicGrid.MarkAll | schematicGenerator.js:38-42 | After the `forEach`, a cell holds 1 exactly when it is a listed position, and keeps its old value otherwise. |
| SchematicGrid.FilledGrid | schematicGenerator.js:30-42 | The filled grid has the computed shape. Each cell holds 1 exactly when it is a listed position, and 0 otherwise. |
| SchematicGrid.FilledCells | schematicGenerator.js:30-42 | Every grid cell is 0 or 1, and 1 exactly when some input position equals it. Out-of-range positions are dropped. |
| SchematicGrid.LinearizeYZX | schematicGenerator.js:44-52 | The Y/Z/X loops produce `resX * resY * resZ` bytes, and these are exactly the grid read at `x + resX * (z + resZ * y)`. |
| SchematicGrid.BlockDataAt | schematicGenerator.js:46-49 | For each in-range `(x, y, z)`, `x + resX * (z + resZ * y)` indexes `BlockData`, and the byte there is `grid[x][y][z]`. |
| SchematicGrid.DecodeLinearized | schematicGenerator.js:44-52 | Decoding `BlockData` back with the inverse index map reproduces the grid exactly. |
| SchematicGrid.LinearizeDecoded | schematicGenerator.js:44-52 | Linearising a decoded `BlockData` gives back the same bytes, so the linearisation is a bijection. |
| SchematicGrid.IndexInjective | schematicGenerator.js:46-49 | Distinct cells of the grid have distinct `BlockData` positions. |
| SchematicGrid.IndexOnto | schematicGenerator.js:46-49 | Every `BlockData` position is the position of some grid cell. |
| Nbt.Lookup | schematicGenerator.js:55-78 | A name is found exactly when an entry carries it. The result is the tag of that entry, which is unique when names are distinct. |
| Nbt.Assign | schematicGenerator.js:25-28 | Object assignment: an existing key keeps its place, and a new key is appended. |
| Nbt.AssignLookup | schematicGenerator.js:25-28 | After an assignment the key holds the new value, and every other key its old one. |
| Nbt.AssignUnique | schematicGenerator.js:25-28 | Assignment keeps the keys of an object distinct. |
| Schematic.Palette | schematicGenerator.js:25-28 | The palette is `[air: 0, blockType: 1]`, or the single entry `air: 1` when the block type is air itself. |
| Schematic.PaletteIds | schematicGenerator.js:25-28 | In the palette, keys are distinct, the block type maps to 1, and air maps to 0 unless the block type is air. |
| Schematic.AirIdInPalette | schematicGenerator.js:25-34 | Id 0, which the grid gives every air cell, has a palette entry exactly when the block type is not air. |
| Schematic.DimensionsPositive | schematicGenerator.js:18-35 | For a positive voxel size and a box whose sizes are not negative, every dimension is at least 1, and building the grid raises no RangeError. |
| Schematic.SchematicDocument | schematicGenerator.js:55-78 | The `nbtData` literal: the root compound is unnamed, and its ten keys are distinct, so each is found by lookup. `Schematic.DocumentFields` gives each value. |
| Schematic.DocumentFields | schematicGenerator.js:55-78 | Each top-level name of the document is distinct and holds its value: Version 2, DataVersion 2730, Width/Height/Length as shorts of the dimensions, Offset `[0, 0, 0]`, the palette compound, `BlockData`, and empty compound lists `Entities` and `BlockEntities`. |
| Schematic.DecodeDocument | schematicGenerator.js:55-78 | Reading the document back gives the dimensions, the palette and the grid it was built from. |
| Schematic.SchematicBlockData | schematicGenerator.js:30-52 | The `BlockData` of the document, the linearised filled grid, has `resX * resY * resZ` bytes (negative lengths taken as zero). |
| Schematic.ExportDescribes | schematicGenerator.js:44-99 | The object built from the linearised filled grid has the expected file name, dimensions and block count. Its document is the tag tree of the dimensions, the palette and that block data: every top-level field holds its literal value, and the block data decodes to the filled grid. |
| Schematic.BuildExport | schematicGenerator.js:17-78 | The `try` block up to the document: the dimensions, the palette, the grid, the Y/Z/X loops and the tag tree. The returned object's fields and document are as `Schematic.ExportDescribes` states. |
| Schematic.GenerateSchem | schematicGenerator.js:10-99 | The errors come in the source's order: invalid voxel data (a missing field, or a voxel size of zero), then the RangeError of `Array(resZ)` with a negative `resZ`, then the missing NBT library, then the missing zlib polyfill. Success happens exactly when none applies. It returns `voxel_model.schem`, the dimensions `(resX, resY, resZ)`, `blockCount = voxelPositions.length` and the block type. Its document is the tag tree the literal builds. Version is 2 and DataVersion 2730. Width, Height and Length are the dimensions. Offset is `[0, 0, 0]`. Palette is the palette, and BlockData is the linearised filled grid. Entities and BlockEntities are empty lists. The document decodes back to the filled grid and the palette. |
| Schematic.BlockCountIsNotCellCount | schematicGenerator.js:38-42 | A witness that `blockCount` is not the number of solid cells: three positions (one repeated, one outside the grid) give a count of 3 and a single solid cell. |
| Schematic.BlockDataMarksPositions | schematicGenerator.js:30-52 | The byte of cell `(x, y, z)` in `BlockData` is 1 exactly when the cell is a listed position, and 0 (air) otherwise. |

## Left out

- Rendering, the camera, lights, controls and the UI state (script.js:1-103, 297-318, 660-672): presentation, not computation.
- Model loading and parsing (script.js:105-161): foreign loaders and file I/O.
- The scene-graph traversal that collects world-space triangles and the `Box3` of the model (script.js:163-215, 525-527, 535-549): these are calls into three.js. A loaded model is given as its box and its triangle list (`Dispatch.Scene`).
- The worker's lifecycle (creation, termination, last-request-wins) and the main-thread message handler (script.js:326-336, 558-633): concurrency and UI.
- The geometry merge at the end of the worker (script.js:401-475): library calls. The successful tail is modelled as `progress: 100` followed by a completion message carrying the count and the marked cells. The merge's own error messages are not modelled.
- `nbt.write`, `zlib.gzipSync` and the `Blob` (schematicGenerator.js:80-91): foreign code and byte I/O. The model returns the document value handed to the writer in place of the blob, and the two availability checks are booleans (`Schematic.Env`). In the program `env.nbtLoaded == false` cannot happen, because `nbt` is a static namespace import (schematicGenerator.js:2); only the zlib check can fire.
- Console logging: no effect on results.
- Schematic.GenerateSchem: does not model the short range of Width/Height/Length, because the source performs no range check and the writer's behaviour for out-of-range values is not part of this model.
- Schematic.GenerateSchem: does not model a RangeError from an array length of 2³² or more, because lengths are unbounded integers here.
- Schematic.GenerateSchem: voxel positions are integer triples, so these cases are not modelled:
  - A `NaN` coordinate fails the range check, so the position is dropped.
  - A non-integer `x` or `y` inside the range finds no sub-array. The assignment then throws a TypeError, and the `catch` block re-throws it. This error is not modelled.
  - A non-integer `z` adds a property to the innermost array, which the Y/Z/X loops never read.
- Schematic.Palette: a block type that is an integer-like string (which JavaScript lists before other keys) is not modelled. Entries are kept in insertion order.
- Schematic.Usable: a voxel size of `NaN`, which is also falsy, is not representable with reals. A zero voxel size is modelled as falsy.
- VoxelWorker.AxisSpan: double rounding of the quotients is not modelled; `floor` and `ceil` are exact. Infinities and `NaN` arise only from dividing by a zero cell size.
- Intersection.TriangleIntersectsAABB: exact real arithmetic; floating-point rounding in the products is not modelled.
- VoxelWorker.Percent: the value is exact, not rounded to a double.
- The caller of `generateSchem` lies outside `script.js` and `schematicGenerator.js` and is not modelled; `Schematic.DimensionsPositive` states the condition it must meet.
