/**
 * The guards `updateVoxelModel` runs on the main thread before it posts a
 * request to the worker: a model must be loaded, the grid may hold at most
 * 512^3 cells, and the model must contribute at least one triangle.
 *
 * The scene-graph traversal that gathers the triangles and the bounding box
 * is not modelled: a loaded model is given as its world-space box and the
 * triangles the traversal collects.
 */
module Dispatch {
  import opened Wrappers
  import opened Geometry
  import opened VoxelWorker

  /** A loaded model as the voxelizer sees it. */
  datatype Scene = Scene(box: Box, triangles: seq<Triangle>)

  /** What `updateVoxelModel` does: show an error, or post a request to the worker. */
  datatype Dispatched = Rejected(message: string) | Posted(request: Request)

  const MaxResolution: nat := 512

  const NoModelError := "Aucun mod\U{e8}le charg\U{e9} pour la voxelisation."
  const ResolutionError := "R\U{e9}solution trop \U{e9}lev\U{e9}e. Maximum 512."
  const NoTrianglesError := "Aucun triangle trouv\U{e9} dans le mod\U{e8}le."

  function Cube(k: int): int {
    k * k * k
  }

  /** The guards in the order the source runs them, then the posted request. */
  function UpdateVoxelModel(model: Option<Scene>, voxelResolution: nat): (d: Dispatched)
    ensures model.None? ==> d == Rejected(NoModelError)
    ensures model.Some? && voxelResolution > MaxResolution ==> d == Rejected(ResolutionError)
    ensures model.Some? && voxelResolution <= MaxResolution && |model.value.triangles| == 0 ==> d == Rejected(NoTrianglesError)
    ensures d.Posted? <==> model.Some? && voxelResolution <= MaxResolution && |model.value.triangles| > 0
    ensures d.Posted? ==> d.request == Request(voxelResolution, model.value.box, model.value.triangles)
  {
    if model.None? then Rejected(NoModelError)
    else
      ResolutionGuard(voxelResolution);
      if Cube(voxelResolution) > Cube(MaxResolution) then Rejected(ResolutionError)
      else if |model.value.triangles| == 0 then Rejected(NoTrianglesError)
      else Posted(Request(voxelResolution, model.value.box, model.value.triangles))
  }

  /** Comparing cubes is comparing the resolutions themselves. */
  lemma {:induction false} ResolutionGuard(n: nat)
    ensures Cube(n) > Cube(MaxResolution) <==> n > MaxResolution
  {
    if n > MaxResolution {
      CubeMonotonic(MaxResolution + 1, n);
      CubeMonotonic(MaxResolution, MaxResolution + 1);
    } else {
      CubeMonotonic(n, MaxResolution);
    }
  }

  lemma CubeMonotonic(a: nat, b: nat)
    requires a <= b
    ensures Cube(a) <= Cube(b)
    ensures a < b ==> Cube(a) < Cube(b)
  {
    var aa, bb := a * a, b * b;
    assert aa <= bb by { MulLe(a, a, b, b); }
    MulLe(aa, a, bb, b);
    if a < b {
      assert aa < bb by { MulLt(a, a, b, b); }
      MulLt(aa, a, bb, b);
    }
  }

  lemma MulLe(a: nat, b: nat, c: nat, d: nat)
    requires a <= c && b <= d
    ensures a * b <= c * d
  {
    assert a * b <= c * b;
    assert c * b <= c * d;
  }

  lemma MulLt(a: nat, b: nat, c: nat, d: nat)
    requires a <= c && b < d && c > 0
    ensures a * b < c * d
  {
    assert a * b <= c * b;
    assert c * b < c * d;
  }

  /**
   * A posted request holds a grid of at most 512^3 cells and at least one
   * triangle, so the worker either marks cells or reports that none were
   * generated.
   */
  lemma PostedRequestsAreBounded(model: Option<Scene>, voxelResolution: nat)
    requires UpdateVoxelModel(model, voxelResolution).Posted?
    ensures var r := UpdateVoxelModel(model, voxelResolution).request;
      && TotalVoxels(r.voxelResolution) <= TotalVoxels(MaxResolution)
      && |r.triangles| > 0
  {
    CubeMonotonic(voxelResolution, MaxResolution);
  }
}
