// The composite splats the controllers perform around one pixel: an XY splat
// followed either by separate Z and W splats (2Dx1Dx1D) or by a ZW splat
// (2Dx2D). Both energy strategies perform these same update lists.
module Composite {
  import opened Dims
  import opened Coords
  import opened Kernel
  import opened Splat

  /** How a controller splats: the 2D XY splat, then 1D Z and W splats, or a 2D ZW splat. */
  datatype SplatShape = Shape2Dx1Dx1D | Shape2Dx2D

  /** Every per-axis kernel fits its axis; the kernels built for an axis of that extent do. */
  predicate KernelsFit(dims: Dimensions, kernelX: SymmetricKernel, kernelY: SymmetricKernel,
                       kernelZ: SymmetricKernel, kernelW: SymmetricKernel)
  {
    dims.Valid() && FitsAxis(kernelX, dims.x) && FitsAxis(kernelY, dims.y)
    && FitsAxis(kernelZ, dims.z) && FitsAxis(kernelW, dims.w)
  }

  /** Around a pixel of the grid, a fitting kernel can be splatted along its axis. */
  lemma FitsGivesSplatOk(dims: Dimensions, c: PixelCoords, axis: nat, k: SymmetricKernel)
    requires dims.Valid() && c.InRange(dims) && axis < 4 && FitsAxis(k, dims.Get(axis))
    ensures SplatOk1D(dims, c, axis, k)
  {
  }

  /** The four splats the controllers perform are all allowed around a pixel of the grid. */
  lemma KernelsFitGiveSplatOk(dims: Dimensions, c: PixelCoords, kernelX: SymmetricKernel, kernelY: SymmetricKernel,
                              kernelZ: SymmetricKernel, kernelW: SymmetricKernel)
    requires KernelsFit(dims, kernelX, kernelY, kernelZ, kernelW) && c.InRange(dims)
    ensures SplatOk2D(dims, c, 1, kernelY, 0, kernelX) && SplatOk2D(dims, c, 3, kernelW, 2, kernelZ)
    ensures SplatOk1D(dims, c, 2, kernelZ) && SplatOk1D(dims, c, 3, kernelW)
  {
    FitsGivesSplatOk(dims, c, 0, kernelX);
    FitsGivesSplatOk(dims, c, 1, kernelY);
    FitsGivesSplatOk(dims, c, 2, kernelZ);
    FitsGivesSplatOk(dims, c, 3, kernelW);
  }

  /** The updates of a controller's `SplatOn` (`on`) or `SplatOff` (`!on`) at `c`, in order. */
  function SplatUpdates(shape: SplatShape, dims: Dimensions, c: PixelCoords, kernelX: SymmetricKernel,
                        kernelY: SymmetricKernel, kernelZ: SymmetricKernel, kernelW: SymmetricKernel,
                        on: bool): seq<Update>
  {
    match shape
    case Shape2Dx1Dx1D =>
      Updates2D(dims, c, 1, kernelY, 0, kernelX, on) + Updates1D(dims, c, 2, kernelZ, on)
      + Updates1D(dims, c, 3, kernelW, on)
    case Shape2Dx2D =>
      Updates2D(dims, c, 1, kernelY, 0, kernelX, on) + Updates2D(dims, c, 3, kernelW, 2, kernelZ, on)
  }

  /** `SplatOff` performs the updates of `SplatOn` with every weight negated. */
  lemma SplatOffIsNegated(shape: SplatShape, dims: Dimensions, c: PixelCoords, kernelX: SymmetricKernel,
                          kernelY: SymmetricKernel, kernelZ: SymmetricKernel, kernelW: SymmetricKernel)
    ensures SplatUpdates(shape, dims, c, kernelX, kernelY, kernelZ, kernelW, false)
         == Negated(SplatUpdates(shape, dims, c, kernelX, kernelY, kernelZ, kernelW, true))
  {
    var xy := Updates2D(dims, c, 1, kernelY, 0, kernelX, true);
    Updates2DOffIsNegated(dims, c, 1, kernelY, 0, kernelX);
    match shape
    case Shape2Dx1Dx1D =>
      var z := Updates1D(dims, c, 2, kernelZ, true);
      var w := Updates1D(dims, c, 3, kernelW, true);
      Updates1DOffIsNegated(dims, c, 2, kernelZ);
      Updates1DOffIsNegated(dims, c, 3, kernelW);
      NegatedConcat(xy + z, w);
      NegatedConcat(xy, z);
    case Shape2Dx2D =>
      var zw := Updates2D(dims, c, 3, kernelW, 2, kernelZ, true);
      Updates2DOffIsNegated(dims, c, 3, kernelW, 2, kernelZ);
      NegatedConcat(xy, zw);
  }

  /** `SplatOn` followed by `SplatOff` at the same pixel leaves every energy as it was. */
  lemma SplatOnThenOff(e: seq<real>, shape: SplatShape, dims: Dimensions, c: PixelCoords, kernelX: SymmetricKernel,
                       kernelY: SymmetricKernel, kernelZ: SymmetricKernel, kernelW: SymmetricKernel)
    ensures Apply(Apply(e, SplatUpdates(shape, dims, c, kernelX, kernelY, kernelZ, kernelW, true)),
                  SplatUpdates(shape, dims, c, kernelX, kernelY, kernelZ, kernelW, false)) == e
  {
    SplatOffIsNegated(shape, dims, c, kernelX, kernelY, kernelZ, kernelW);
    ApplyThenUndo(e, SplatUpdates(shape, dims, c, kernelX, kernelY, kernelZ, kernelW, true));
  }

  /** Every update of a controller splat around a pixel of the grid names a pixel of the grid. */
  lemma SplatUpdatesInBounds(shape: SplatShape, dims: Dimensions, c: PixelCoords, kernelX: SymmetricKernel,
                             kernelY: SymmetricKernel, kernelZ: SymmetricKernel, kernelW: SymmetricKernel, on: bool)
    requires dims.Valid() && c.InRange(dims)
    ensures InBounds(SplatUpdates(shape, dims, c, kernelX, kernelY, kernelZ, kernelW, on), dims.NumPixels())
  {
    var xy := Updates2D(dims, c, 1, kernelY, 0, kernelX, on);
    Updates2DInBounds(dims, c, 1, kernelY, 0, kernelX, on);
    match shape
    case Shape2Dx1Dx1D =>
      Updates1DInBounds(dims, c, 2, kernelZ, on);
      Updates1DInBounds(dims, c, 3, kernelW, on);
      InBoundsConcat(xy, Updates1D(dims, c, 2, kernelZ, on), dims.NumPixels());
      InBoundsConcat(xy + Updates1D(dims, c, 2, kernelZ, on), Updates1D(dims, c, 3, kernelW, on), dims.NumPixels());
    case Shape2Dx2D =>
      Updates2DInBounds(dims, c, 3, kernelW, 2, kernelZ, on);
      InBoundsConcat(xy, Updates2D(dims, c, 3, kernelW, 2, kernelZ, on), dims.NumPixels());
  }

  lemma InBoundsConcat(a: seq<Update>, b: seq<Update>, n: nat)
    requires InBounds(a, n) && InBounds(b, n)
    ensures InBounds(a + b, n)
  {
    forall t | 0 <= t < |a + b|
      ensures (a + b)[t].index < n
    {
      if t < |a| {
        assert (a + b)[t] == a[t];
      } else {
        assert (a + b)[t] == b[t - |a|];
      }
    }
  }
}
