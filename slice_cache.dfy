// The slice-cache strategy: the same energy splats as the reference
// strategy, performed pixel by pixel while keeping the per-slice cache of
// extremes right, and cluster / void queries that rescan only the slices
// whose entries are dirty.
module SliceCache {
  import opened Dims
  import opened Coords
  import opened Kernel
  import opened Data
  import opened Splat
  import opened SliceCacheData
  import opened MathLemmas

  /**
   * Splats `splatValue` onto one pixel of slice `xySlice`. An on splat dirties
   * the min entry if the pixel held it and raises the max entry if the pixel
   * now exceeds it; an off splat is the mirror image.
   */
  method SplatPixel(cache: SliceCacheData2Dx1Dx1D, data: STBNData, on: bool, pixelIndex: nat, splatValue: real,
                    xySlice: nat)
    requires cache.Valid() && data.Valid() && cache.Correct(data.energy, data.pixelOn)
    requires pixelIndex < data.numPixels && xySlice < cache.numSlicesXY
    requires InSlice(pixelIndex, xySlice, cache.sliceSizeXY) && splatValue >= 0.0
    modifies cache, data`energy
    ensures cache.Valid() && data.Valid() && cache.Correct(data.energy, data.pixelOn)
    ensures data.energy == old(data.energy)[pixelIndex := old(data.energy)[pixelIndex] + Signed(on, splatValue)]
    ensures cache.dirtyMin ==
      (if on && !old(cache.dirtyMin[xySlice]) && !data.pixelOn[pixelIndex]
          && old(cache.minValue[xySlice]) == Finite(old(data.energy[pixelIndex]))
       then old(cache.dirtyMin)[xySlice := true] else old(cache.dirtyMin))
    ensures cache.dirtyMax ==
      (if !on && !old(cache.dirtyMax[xySlice]) && data.pixelOn[pixelIndex]
          && old(cache.maxValue[xySlice]) == Finite(old(data.energy[pixelIndex]))
       then old(cache.dirtyMax)[xySlice := true] else old(cache.dirtyMax))
    ensures
      if on && !old(cache.dirtyMax[xySlice]) && data.pixelOn[pixelIndex]
         && Below(old(cache.maxValue[xySlice]), data.energy[pixelIndex])
      then cache.maxValue == old(cache.maxValue)[xySlice := Finite(data.energy[pixelIndex])]
           && cache.maxValueIndex == old(cache.maxValueIndex)[xySlice := pixelIndex]
      else cache.maxValue == old(cache.maxValue) && cache.maxValueIndex == old(cache.maxValueIndex)
    ensures
      if !on && !old(cache.dirtyMin[xySlice]) && !data.pixelOn[pixelIndex]
         && Above(old(cache.minValue[xySlice]), data.energy[pixelIndex])
      then cache.minValue == old(cache.minValue)[xySlice := Finite(data.energy[pixelIndex])]
           && cache.minValueIndex == old(cache.minValueIndex)[xySlice := pixelIndex]
      else cache.minValue == old(cache.minValue) && cache.minValueIndex == old(cache.minValueIndex)
  {
    if on {
      RaisePixel(cache, data, pixelIndex, splatValue, xySlice);
    } else {
      LowerPixel(cache, data, pixelIndex, splatValue, xySlice);
    }
  }

  /** The on half of `SplatPixel`. */
  method RaisePixel(cache: SliceCacheData2Dx1Dx1D, data: STBNData, pixelIndex: nat, splatValue: real, xySlice: nat)
    requires cache.Valid() && data.Valid() && cache.Correct(data.energy, data.pixelOn)
    requires pixelIndex < data.numPixels && xySlice < cache.numSlicesXY
    requires InSlice(pixelIndex, xySlice, cache.sliceSizeXY) && splatValue >= 0.0
    modifies cache, data`energy
    ensures cache.Valid() && data.Valid() && cache.Correct(data.energy, data.pixelOn)
    ensures data.energy == old(data.energy)[pixelIndex := old(data.energy)[pixelIndex] + splatValue]
    ensures cache.dirtyMin ==
      (if !old(cache.dirtyMin[xySlice]) && !data.pixelOn[pixelIndex]
          && old(cache.minValue[xySlice]) == Finite(old(data.energy[pixelIndex]))
       then old(cache.dirtyMin)[xySlice := true] else old(cache.dirtyMin))
    ensures cache.dirtyMax == old(cache.dirtyMax)
    ensures
      if !old(cache.dirtyMax[xySlice]) && data.pixelOn[pixelIndex]
         && Below(old(cache.maxValue[xySlice]), data.energy[pixelIndex])
      then cache.maxValue == old(cache.maxValue)[xySlice := Finite(data.energy[pixelIndex])]
           && cache.maxValueIndex == old(cache.maxValueIndex)[xySlice := pixelIndex]
      else cache.maxValue == old(cache.maxValue) && cache.maxValueIndex == old(cache.maxValueIndex)
    ensures cache.minValue == old(cache.minValue) && cache.minValueIndex == old(cache.minValueIndex)
  {
    ghost var e0 := data.energy;
    ghost var dirty0 := cache.dirtyMin;
    if !cache.dirtyMin[xySlice] && !data.pixelOn[pixelIndex] && cache.minValue[xySlice] == Finite(data.energy[pixelIndex]) {
      cache.dirtyMin := cache.dirtyMin[xySlice := true];
    }
    data.energy := data.energy[pixelIndex := data.energy[pixelIndex] + splatValue];
    MinSideRaised(cache.sliceSizeXY, dirty0, cache.dirtyMin, cache.minValue, cache.minValueIndex, e0, data.energy,
                  data.pixelOn, pixelIndex, splatValue, xySlice);
    ghost var value0, index0 := cache.maxValue, cache.maxValueIndex;
    if !cache.dirtyMax[xySlice] && data.pixelOn[pixelIndex] && Below(cache.maxValue[xySlice], data.energy[pixelIndex]) {
      cache.maxValue := cache.maxValue[xySlice := Finite(data.energy[pixelIndex])];
      cache.maxValueIndex := cache.maxValueIndex[xySlice := pixelIndex];
    }
    MaxSideRaised(cache.sliceSizeXY, cache.dirtyMax, value0, index0, cache.maxValue, cache.maxValueIndex, e0,
                  data.energy, data.pixelOn, pixelIndex, splatValue, xySlice);
  }

  /** The off half of `SplatPixel`. */
  method LowerPixel(cache: SliceCacheData2Dx1Dx1D, data: STBNData, pixelIndex: nat, splatValue: real, xySlice: nat)
    requires cache.Valid() && data.Valid() && cache.Correct(data.energy, data.pixelOn)
    requires pixelIndex < data.numPixels && xySlice < cache.numSlicesXY
    requires InSlice(pixelIndex, xySlice, cache.sliceSizeXY) && splatValue >= 0.0
    modifies cache, data`energy
    ensures cache.Valid() && data.Valid() && cache.Correct(data.energy, data.pixelOn)
    ensures data.energy == old(data.energy)[pixelIndex := old(data.energy)[pixelIndex] - splatValue]
    ensures cache.dirtyMax ==
      (if !old(cache.dirtyMax[xySlice]) && data.pixelOn[pixelIndex]
          && old(cache.maxValue[xySlice]) == Finite(old(data.energy[pixelIndex]))
       then old(cache.dirtyMax)[xySlice := true] else old(cache.dirtyMax))
    ensures cache.dirtyMin == old(cache.dirtyMin)
    ensures
      if !old(cache.dirtyMin[xySlice]) && !data.pixelOn[pixelIndex]
         && Above(old(cache.minValue[xySlice]), data.energy[pixelIndex])
      then cache.minValue == old(cache.minValue)[xySlice := Finite(data.energy[pixelIndex])]
           && cache.minValueIndex == old(cache.minValueIndex)[xySlice := pixelIndex]
      else cache.minValue == old(cache.minValue) && cache.minValueIndex == old(cache.minValueIndex)
    ensures cache.maxValue == old(cache.maxValue) && cache.maxValueIndex == old(cache.maxValueIndex)
  {
    ghost var e0 := data.energy;
    ghost var dirty0 := cache.dirtyMax;
    if !cache.dirtyMax[xySlice] && data.pixelOn[pixelIndex] && cache.maxValue[xySlice] == Finite(data.energy[pixelIndex]) {
      cache.dirtyMax := cache.dirtyMax[xySlice := true];
    }
    data.energy := data.energy[pixelIndex := data.energy[pixelIndex] - splatValue];
    MaxSideLowered(cache.sliceSizeXY, dirty0, cache.dirtyMax, cache.maxValue, cache.maxValueIndex, e0, data.energy,
                   data.pixelOn, pixelIndex, splatValue, xySlice);
    ghost var value0, index0 := cache.minValue, cache.minValueIndex;
    if !cache.dirtyMin[xySlice] && !data.pixelOn[pixelIndex] && Above(cache.minValue[xySlice], data.energy[pixelIndex]) {
      cache.minValue := cache.minValue[xySlice := Finite(data.energy[pixelIndex])];
      cache.minValueIndex := cache.minValueIndex[xySlice := pixelIndex];
    }
    MinSideLowered(cache.sliceSizeXY, cache.dirtyMin, value0, index0, cache.minValue, cache.minValueIndex, e0,
                   data.energy, data.pixelOn, pixelIndex, splatValue, xySlice);
  }

  // ---- the pixel a splat loop reaches ----

  /** Coordinates that agree with `c` off `axis` and hold the wrapped offset on it are the 1D offset pixel. */
  lemma CoordsAreOffset1D(dims: Dimensions, c: PixelCoords, axis: nat, o: int, coords: PixelCoords)
    requires axis < 4
    requires forall a :: 0 <= a < 4 && a != axis ==> coords.Get(a) == c.Get(a)
    requires coords.Get(axis) == WrapCoord(c.Get(axis), o, dims.Get(axis))
    ensures coords == Offset1D(dims, c, axis, o)
  {
    SameCoords(coords, Offset1D(dims, c, axis, o));
  }

  /** The same for a 2D offset on two different axes. */
  lemma CoordsAreOffset2D(dims: Dimensions, c: PixelCoords, outerAxis: nat, innerAxis: nat, oy: int, ox: int,
                          coords: PixelCoords)
    requires outerAxis < 4 && innerAxis < 4 && outerAxis != innerAxis
    requires forall a :: 0 <= a < 4 && a != outerAxis && a != innerAxis ==> coords.Get(a) == c.Get(a)
    requires coords.Get(outerAxis) == WrapCoord(c.Get(outerAxis), oy, dims.Get(outerAxis))
    requires coords.Get(innerAxis) == WrapCoord(c.Get(innerAxis), ox, dims.Get(innerAxis))
    ensures coords == Offset2D(dims, c, outerAxis, innerAxis, oy, ox)
  {
    SameCoords(coords, Offset2D(dims, c, outerAxis, innerAxis, oy, ox));
  }

  /** A pixel inside the grid lies in its z-w slice, by the division test of the cache. */
  lemma PixelInItsSlice(dims: Dimensions, coords: PixelCoords, p: nat, s: nat)
    requires dims.Valid() && coords.InRange(dims)
    requires p == PixelCoordsToPixelIndex(coords, dims) && s == XYSlice(coords, dims)
    ensures p < dims.NumPixels() && s < dims.z * dims.w && InSlice(p, s, dims.x * dims.y)
  {
    IndexInSlice(coords, dims);
    NumPixelsPositive(dims);
    SliceRange(p, s, dims.x * dims.y);
  }

  /** One pass of a cached 1D splat loop: the pixel, its slice and the next update. */
  lemma Cached1DStep(e0: seq<real>, energy: seq<real>, dims: Dimensions, c: PixelCoords, axis: nat,
                     k: SymmetricKernel, on: bool, iz: int, coords: PixelCoords, p: nat, s: nat)
    requires SplatOk1D(dims, c, axis, k) && k.start <= iz <= k.end && |e0| == dims.NumPixels()
    requires energy == Apply(e0, Updates1DUpTo(dims, c, axis, k, on, iz))
    requires coords == Offset1D(dims, c, axis, iz)
    requires p == PixelCoordsToPixelIndex(coords, dims) && s == XYSlice(coords, dims)
    ensures p < |energy| && s < dims.z * dims.w && InSlice(p, s, dims.x * dims.y)
    ensures Apply(e0, Updates1DUpTo(dims, c, axis, k, on, iz + 1)) == energy[p := energy[p] + Signed(on, k.kernel[Abs(iz)])]
  {
    Offset1DInRange(dims, c, axis, iz);
    PixelInItsSlice(dims, coords, p, s);
    Splat1DStep(e0, energy, dims, c, axis, k, on, iz, p);
  }

  // ---- the splats ----

  /** A splat along z through `SplatPixel`, each pixel charged to its own slice. */
  method SplatZ(cache: SliceCacheData2Dx1Dx1D, data: STBNData, on: bool, pixelCoords: PixelCoords,
                kernel: SymmetricKernel)
    requires data.Valid() && cache.Valid() && cache.dims == data.dimensions
    requires SplatOk1D(data.dimensions, pixelCoords, 2, kernel) && NonNegative(kernel)
    requires cache.Correct(data.energy, data.pixelOn)
    modifies cache, data`energy
    ensures data.Valid() && cache.Valid() && cache.Correct(data.energy, data.pixelOn)
    ensures data.energy == Apply(old(data.energy), Updates1D(data.dimensions, pixelCoords, 2, kernel, on))
  {
    ghost var e0 := data.energy;
    var dimensions := data.dimensions;
    var coords := pixelCoords;
    var iz := kernel.start;
    while iz <= kernel.end
      invariant kernel.start <= iz <= kernel.end + 1
      invariant data.Valid() && cache.Valid() && cache.Correct(data.energy, data.pixelOn)
      invariant data.energy == Apply(e0, Updates1DUpTo(dimensions, pixelCoords, 2, kernel, on, iz))
      invariant coords.x == pixelCoords.x && coords.y == pixelCoords.y && coords.w == pixelCoords.w
    {
      coords := coords.(z := WrapCoord(pixelCoords.z, iz, dimensions.z));
      CoordsAreOffset1D(dimensions, pixelCoords, 2, iz, coords);
      var pixelIndex := PixelCoordsToPixelIndex(coords, dimensions);
      var xySlice := XYSlice(coords, dimensions);
      var splatValue := kernel.kernel[Abs(iz)];
      Cached1DStep(e0, data.energy, dimensions, pixelCoords, 2, kernel, on, iz, coords, pixelIndex, xySlice);
      SplatPixel(cache, data, on, pixelIndex, splatValue, xySlice);
      iz := iz + 1;
    }
  }

  /** A splat along w that updates the energies directly and dirties both entries of every slice it touches. */
  method SplatW(cache: SliceCacheData2Dx1Dx1D, data: STBNData, on: bool, pixelCoords: PixelCoords,
                kernel: SymmetricKernel)
    requires data.Valid() && cache.Valid() && cache.dims == data.dimensions
    requires SplatOk1D(data.dimensions, pixelCoords, 3, kernel)
    requires cache.Correct(data.energy, data.pixelOn)
    modifies cache`dirtyMax, cache`dirtyMin, data`energy
    ensures data.Valid() && cache.Valid() && cache.Correct(data.energy, data.pixelOn)
    ensures data.energy == Apply(old(data.energy), Updates1D(data.dimensions, pixelCoords, 3, kernel, on))
    ensures forall s :: 0 <= s < cache.numSlicesXY && old(cache.dirtyMax[s]) ==> cache.dirtyMax[s]
    ensures forall s :: 0 <= s < cache.numSlicesXY && old(cache.dirtyMin[s]) ==> cache.dirtyMin[s]
  {
    ghost var e0 := data.energy;
    var dimensions := data.dimensions;
    var coords := pixelCoords;
    var iw := kernel.start;
    while iw <= kernel.end
      invariant kernel.start <= iw <= kernel.end + 1
      invariant data.Valid() && cache.Valid() && cache.Correct(data.energy, data.pixelOn)
      invariant data.energy == Apply(e0, Updates1DUpTo(dimensions, pixelCoords, 3, kernel, on, iw))
      invariant coords.x == pixelCoords.x && coords.y == pixelCoords.y && coords.z == pixelCoords.z
      invariant forall s :: 0 <= s < cache.numSlicesXY && old(cache.dirtyMax[s]) ==> cache.dirtyMax[s]
      invariant forall s :: 0 <= s < cache.numSlicesXY && old(cache.dirtyMin[s]) ==> cache.dirtyMin[s]
    {
      coords := coords.(w := WrapCoord(pixelCoords.w, iw, dimensions.w));
      CoordsAreOffset1D(dimensions, pixelCoords, 3, iw, coords);
      var pixelIndex := PixelCoordsToPixelIndex(coords, dimensions);
      var xySlice := XYSlice(coords, dimensions);
      ghost var energy0 := data.energy;
      Cached1DStep(e0, data.energy, dimensions, pixelCoords, 3, kernel, on, iw, coords, pixelIndex, xySlice);
      if on {
        data.energy := data.energy[pixelIndex := data.energy[pixelIndex] + kernel.kernel[Abs(iw)]];
      } else {
        data.energy := data.energy[pixelIndex := data.energy[pixelIndex] - kernel.kernel[Abs(iw)]];
      }
      SidesDirtied(cache.sliceSizeXY, cache.dirtyMax, cache.maxValue, cache.maxValueIndex,
                   cache.dirtyMin, cache.minValue, cache.minValueIndex,
                   energy0, data.pixelOn, data.energy, data.pixelOn, pixelIndex, xySlice);
      cache.dirtyMax := cache.dirtyMax[xySlice := true];
      cache.dirtyMin := cache.dirtyMin[xySlice := true];
      iw := iw + 1;
    }
  }

  /** One pass of a cached 2D splat's inner loop: the pixel, its slice, the weight and the next update. */
  lemma Cached2DStep(e0: seq<real>, energy: seq<real>, done: seq<Update>, dims: Dimensions, c: PixelCoords,
                     outerAxis: nat, outer: SymmetricKernel, innerAxis: nat, inner: SymmetricKernel, on: bool,
                     iy: int, ix: int, kernelX: real, kernelY: real, coords: PixelCoords, p: nat, s: nat)
    requires SplatOk2D(dims, c, outerAxis, outer, innerAxis, inner) && |e0| == dims.NumPixels()
    requires NonNegative(outer) && NonNegative(inner)
    requires outer.start <= iy <= outer.end && inner.start <= ix <= inner.end
    requires kernelX == inner.kernel[Abs(ix)] && kernelY == outer.kernel[Abs(iy)]
    requires energy == Apply(e0, done + Row2DUpTo(dims, c, outerAxis, outer, innerAxis, inner, on, iy, ix))
    requires coords == Offset2D(dims, c, outerAxis, innerAxis, iy, ix)
    requires p == PixelCoordsToPixelIndex(coords, dims) && s == XYSlice(coords, dims)
    ensures p < |energy| && s < dims.z * dims.w && InSlice(p, s, dims.x * dims.y)
    ensures kernelX * kernelY >= 0.0
    ensures Apply(e0, done + Row2DUpTo(dims, c, outerAxis, outer, innerAxis, inner, on, iy, ix + 1))
         == energy[p := energy[p] + Signed(on, kernelX * kernelY)]
  {
    Offset2DInRange(dims, c, outerAxis, innerAxis, iy, ix);
    PixelInItsSlice(dims, coords, p, s);
    Splat2DStep(e0, energy, done, dims, c, outerAxis, outer, innerAxis, inner, on, iy, ix, kernelX, kernelY, p);
    assert kernelX >= 0.0 && kernelY >= 0.0;
    RealProductNonNegative(kernelX, kernelY);
  }

  lemma RealProductNonNegative(a: real, b: real)
    requires a >= 0.0 && b >= 0.0
    ensures a * b >= 0.0
  {
  }

  /** A splat over x and y through `SplatPixel`; every pixel is charged to the centre's slice, which is its own. */
  method SplatXY(cache: SliceCacheData2Dx1Dx1D, data: STBNData, on: bool, pixelCoords: PixelCoords,
                 outerKernel: SymmetricKernel, innerKernel: SymmetricKernel)
    requires data.Valid() && cache.Valid() && cache.dims == data.dimensions
    requires SplatOk2D(data.dimensions, pixelCoords, 1, outerKernel, 0, innerKernel)
    requires NonNegative(outerKernel) && NonNegative(innerKernel)
    requires cache.Correct(data.energy, data.pixelOn)
    modifies cache, data`energy
    ensures data.Valid() && cache.Valid() && cache.Correct(data.energy, data.pixelOn)
    ensures data.energy == Apply(old(data.energy), Updates2D(data.dimensions, pixelCoords, 1, outerKernel, 0, innerKernel, on))
  {
    ghost var e0 := data.energy;
    var dimensions := data.dimensions;
    var newCoords := pixelCoords;
    var xySlice := XYSlice(pixelCoords, dimensions);
    var iy := outerKernel.start;
    while iy <= outerKernel.end
      invariant outerKernel.start <= iy <= outerKernel.end + 1
      invariant data.Valid() && cache.Valid() && cache.Correct(data.energy, data.pixelOn)
      invariant data.energy == Apply(e0, Updates2DUpTo(dimensions, pixelCoords, 1, outerKernel, 0, innerKernel, on, iy))
      invariant newCoords.z == pixelCoords.z && newCoords.w == pixelCoords.w
    {
      var kernelY := outerKernel.kernel[Abs(iy)];
      newCoords := newCoords.(y := WrapCoord(pixelCoords.y, iy, dimensions.y));
      ghost var done := Updates2DUpTo(dimensions, pixelCoords, 1, outerKernel, 0, innerKernel, on, iy);
      newCoords := SplatXYRow(cache, data, e0, done, on, pixelCoords, outerKernel, innerKernel, iy, kernelY,
                              xySlice, newCoords);
      Splat2DRowDone(dimensions, pixelCoords, 1, outerKernel, 0, innerKernel, on, iy);
      iy := iy + 1;
    }
  }

  /** One cell of a cached 2D splat: the pixel at offsets (`io`, `ii`) gets its splat and the cache stays correct. */
  method SplatCell(cache: SliceCacheData2Dx1Dx1D, data: STBNData, ghost e0: seq<real>, ghost done: seq<Update>,
                   on: bool, pixelCoords: PixelCoords, outerAxis: nat, outerKernel: SymmetricKernel,
                   innerAxis: nat, innerKernel: SymmetricKernel, io: int, ii: int, kernelI: real, kernelO: real,
                   coords: PixelCoords, pixelIndex: nat, xySlice: nat, splatValue: real)
    requires data.Valid() && cache.Valid() && cache.dims == data.dimensions && cache.Correct(data.energy, data.pixelOn)
    requires SplatOk2D(data.dimensions, pixelCoords, outerAxis, outerKernel, innerAxis, innerKernel)
    requires NonNegative(outerKernel) && NonNegative(innerKernel) && |e0| == data.numPixels
    requires outerKernel.start <= io <= outerKernel.end && innerKernel.start <= ii <= innerKernel.end
    requires kernelI == innerKernel.kernel[Abs(ii)] && kernelO == outerKernel.kernel[Abs(io)]
    requires data.energy == Apply(e0, done + Row2DUpTo(data.dimensions, pixelCoords, outerAxis, outerKernel, innerAxis,
                                                      innerKernel, on, io, ii))
    requires coords == Offset2D(data.dimensions, pixelCoords, outerAxis, innerAxis, io, ii)
    requires pixelIndex == PixelCoordsToPixelIndex(coords, data.dimensions) && xySlice == XYSlice(coords, data.dimensions)
    requires splatValue == kernelI * kernelO
    modifies cache, data`energy
    ensures data.Valid() && cache.Valid() && cache.Correct(data.energy, data.pixelOn)
    ensures data.energy == Apply(e0, done + Row2DUpTo(data.dimensions, pixelCoords, outerAxis, outerKernel, innerAxis,
                                                     innerKernel, on, io, ii + 1))
  {
    Cached2DStep(e0, data.energy, done, data.dimensions, pixelCoords, outerAxis, outerKernel, innerAxis, innerKernel,
                 on, io, ii, kernelI, kernelO, coords, pixelIndex, xySlice);
    SplatPixel(cache, data, on, pixelIndex, splatValue, xySlice);
  }

  /** The inner loop of `SplatXY`: the row at y offset `iy`. */
  method SplatXYRow(cache: SliceCacheData2Dx1Dx1D, data: STBNData, ghost e0: seq<real>, ghost done: seq<Update>,
                    on: bool, pixelCoords: PixelCoords, outerKernel: SymmetricKernel, innerKernel: SymmetricKernel,
                    iy: int, kernelY: real, xySlice: nat, coords0: PixelCoords)
    returns (newCoords: PixelCoords)
    requires data.Valid() && cache.Valid() && cache.dims == data.dimensions
    requires SplatOk2D(data.dimensions, pixelCoords, 1, outerKernel, 0, innerKernel)
    requires NonNegative(outerKernel) && NonNegative(innerKernel)
    requires cache.Correct(data.energy, data.pixelOn)
    requires |e0| == data.numPixels && data.energy == Apply(e0, done)
    requires outerKernel.start <= iy <= outerKernel.end && kernelY == outerKernel.kernel[Abs(iy)]
    requires xySlice == XYSlice(pixelCoords, data.dimensions)
    requires coords0.z == pixelCoords.z && coords0.w == pixelCoords.w
    requires coords0.y == WrapCoord(pixelCoords.y, iy, data.dimensions.y)
    modifies cache, data`energy
    ensures data.Valid() && cache.Valid() && cache.Correct(data.energy, data.pixelOn)
    ensures data.energy == Apply(e0, done + Row2DUpTo(data.dimensions, pixelCoords, 1, outerKernel, 0, innerKernel,
                                                      on, iy, innerKernel.end + 1))
    ensures newCoords.z == pixelCoords.z && newCoords.w == pixelCoords.w
  {
    var dimensions := data.dimensions;
    newCoords := coords0;
    assert done + Row2DUpTo(dimensions, pixelCoords, 1, outerKernel, 0, innerKernel, on, iy, innerKernel.start) == done;
    var ix := innerKernel.start;
    while ix <= innerKernel.end
      invariant innerKernel.start <= ix <= innerKernel.end + 1
      invariant data.Valid() && cache.Valid() && cache.Correct(data.energy, data.pixelOn)
      invariant data.energy == Apply(e0, done + Row2DUpTo(dimensions, pixelCoords, 1, outerKernel, 0, innerKernel,
                                                          on, iy, ix))
      invariant newCoords.z == pixelCoords.z && newCoords.w == pixelCoords.w
      invariant newCoords.y == WrapCoord(pixelCoords.y, iy, dimensions.y)
    {
      var kernelX := innerKernel.kernel[Abs(ix)];
      newCoords := newCoords.(x := WrapCoord(pixelCoords.x, ix, dimensions.x));
      CoordsAreOffset2D(dimensions, pixelCoords, 1, 0, iy, ix, newCoords);
      var pixelIndex := PixelCoordsToPixelIndex(newCoords, dimensions);
      var splatValue := kernelX * kernelY;
      SplatCell(cache, data, e0, done, on, pixelCoords, 1, outerKernel, 0, innerKernel, iy, ix,
                kernelX, kernelY, newCoords, pixelIndex, xySlice, splatValue);
      ix := ix + 1;
    }
  }

  /** A splat over z and w through `SplatPixel`; every pixel is charged to its own slice. */
  method SplatZW(cache: SliceCacheData2Dx1Dx1D, data: STBNData, on: bool, pixelCoords: PixelCoords,
                 outerKernel: SymmetricKernel, innerKernel: SymmetricKernel)
    requires data.Valid() && cache.Valid() && cache.dims == data.dimensions
    requires SplatOk2D(data.dimensions, pixelCoords, 3, outerKernel, 2, innerKernel)
    requires NonNegative(outerKernel) && NonNegative(innerKernel)
    requires cache.Correct(data.energy, data.pixelOn)
    modifies cache, data`energy
    ensures data.Valid() && cache.Valid() && cache.Correct(data.energy, data.pixelOn)
    ensures data.energy == Apply(old(data.energy), Updates2D(data.dimensions, pixelCoords, 3, outerKernel, 2, innerKernel, on))
  {
    ghost var e0 := data.energy;
    var dimensions := data.dimensions;
    var newCoords := pixelCoords;
    var iw := outerKernel.start;
    while iw <= outerKernel.end
      invariant outerKernel.start <= iw <= outerKernel.end + 1
      invariant data.Valid() && cache.Valid() && cache.Correct(data.energy, data.pixelOn)
      invariant data.energy == Apply(e0, Updates2DUpTo(dimensions, pixelCoords, 3, outerKernel, 2, innerKernel, on, iw))
      invariant newCoords.x == pixelCoords.x && newCoords.y == pixelCoords.y
    {
      var kernelW := outerKernel.kernel[Abs(iw)];
      newCoords := newCoords.(w := WrapCoord(pixelCoords.w, iw, dimensions.w));
      ghost var done := Updates2DUpTo(dimensions, pixelCoords, 3, outerKernel, 2, innerKernel, on, iw);
      newCoords := SplatZWRow(cache, data, e0, done, on, pixelCoords, outerKernel, innerKernel, iw, kernelW, newCoords);
      Splat2DRowDone(dimensions, pixelCoords, 3, outerKernel, 2, innerKernel, on, iw);
      iw := iw + 1;
    }
  }

  /** The inner loop of `SplatZW`: the row at w offset `iw`. */
  method SplatZWRow(cache: SliceCacheData2Dx1Dx1D, data: STBNData, ghost e0: seq<real>, ghost done: seq<Update>,
                    on: bool, pixelCoords: PixelCoords, outerKernel: SymmetricKernel, innerKernel: SymmetricKernel,
                    iw: int, kernelW: real, coords0: PixelCoords)
    returns (newCoords: PixelCoords)
    requires data.Valid() && cache.Valid() && cache.dims == data.dimensions
    requires SplatOk2D(data.dimensions, pixelCoords, 3, outerKernel, 2, innerKernel)
    requires NonNegative(outerKernel) && NonNegative(innerKernel)
    requires cache.Correct(data.energy, data.pixelOn)
    requires |e0| == data.numPixels && data.energy == Apply(e0, done)
    requires outerKernel.start <= iw <= outerKernel.end && kernelW == outerKernel.kernel[Abs(iw)]
    requires coords0.x == pixelCoords.x && coords0.y == pixelCoords.y
    requires coords0.w == WrapCoord(pixelCoords.w, iw, data.dimensions.w)
    modifies cache, data`energy
    ensures data.Valid() && cache.Valid() && cache.Correct(data.energy, data.pixelOn)
    ensures data.energy == Apply(e0, done + Row2DUpTo(data.dimensions, pixelCoords, 3, outerKernel, 2, innerKernel,
                                                      on, iw, innerKernel.end + 1))
    ensures newCoords.x == pixelCoords.x && newCoords.y == pixelCoords.y
  {
    var dimensions := data.dimensions;
    newCoords := coords0;
    assert done + Row2DUpTo(dimensions, pixelCoords, 3, outerKernel, 2, innerKernel, on, iw, innerKernel.start) == done;
    var iz := innerKernel.start;
    while iz <= innerKernel.end
      invariant innerKernel.start <= iz <= innerKernel.end + 1
      invariant data.Valid() && cache.Valid() && cache.Correct(data.energy, data.pixelOn)
      invariant data.energy == Apply(e0, done + Row2DUpTo(dimensions, pixelCoords, 3, outerKernel, 2, innerKernel,
                                                          on, iw, iz))
      invariant newCoords.x == pixelCoords.x && newCoords.y == pixelCoords.y
      invariant newCoords.w == WrapCoord(pixelCoords.w, iw, dimensions.w)
    {
      var kernelZ := innerKernel.kernel[Abs(iz)];
      newCoords := newCoords.(z := WrapCoord(pixelCoords.z, iz, dimensions.z));
      CoordsAreOffset2D(dimensions, pixelCoords, 3, 2, iw, iz, newCoords);
      var xySlice := XYSlice(newCoords, dimensions);
      var pixelIndex := PixelCoordsToPixelIndex(newCoords, dimensions);
      var splatValue := kernelW * kernelZ;
      SplatCell(cache, data, e0, done, on, pixelCoords, 3, outerKernel, 2, innerKernel, iw, iz,
                kernelZ, kernelW, newCoords, pixelIndex, xySlice, splatValue);
      iz := iz + 1;
    }
  }

  // ---- the queries ----

  /**
   * The rescan of a dirty slice: the first on pixel of greatest energy in slice `s`
   * (every on pixel before it is strictly lower), or `-FLT_MAX` and 0.
   */
  method ScanSliceMax(data: STBNData, s: nat, size: nat) returns (value: Bound, index: nat)
    requires data.Valid() && s * size + size <= data.numPixels
    ensures MaxEntryOk(data.energy, data.pixelOn, size, s, value, index)
    ensures value.Finite? ==> forall j :: s * size <= j < index && data.pixelOn[j] ==> data.energy[j] < value.value
  {
    var startPixelIndex := s * size;
    var endPixelIndex := startPixelIndex + size;
    index := 0;
    value := NegInf;
    var i := startPixelIndex;
    while i < endPixelIndex
      invariant startPixelIndex <= i <= endPixelIndex
      invariant RangeMax(data.energy, data.pixelOn, startPixelIndex, i, value, index)
      invariant value.Finite? ==>
        forall j :: startPixelIndex <= j < index && data.pixelOn[j] ==> data.energy[j] < value.value
    {
      if data.pixelOn[i] && Below(value, data.energy[i]) {
        value := Finite(data.energy[i]);
        index := i;
      }
      i := i + 1;
    }
    RangeMaxIsEntry(data.energy, data.pixelOn, size, s, value, index);
  }

  /**
   * The rescan of a dirty slice: the first off pixel of least energy in slice `s`
   * (every off pixel before it is strictly higher), or `FLT_MAX` and 0.
   */
  method ScanSliceMin(data: STBNData, s: nat, size: nat) returns (value: Bound, index: nat)
    requires data.Valid() && s * size + size <= data.numPixels
    ensures MinEntryOk(data.energy, data.pixelOn, size, s, value, index)
    ensures value.Finite? ==> forall j :: s * size <= j < index && !data.pixelOn[j] ==> data.energy[j] > value.value
  {
    var startPixelIndex := s * size;
    var endPixelIndex := startPixelIndex + size;
    index := 0;
    value := PosInf;
    var i := startPixelIndex;
    while i < endPixelIndex
      invariant startPixelIndex <= i <= endPixelIndex
      invariant RangeMin(data.energy, data.pixelOn, startPixelIndex, i, value, index)
      invariant value.Finite? ==>
        forall j :: startPixelIndex <= j < index && !data.pixelOn[j] ==> data.energy[j] > value.value
    {
      if !data.pixelOn[i] && Above(value, data.energy[i]) {
        value := Finite(data.energy[i]);
        index := i;
      }
      i := i + 1;
    }
    RangeMinIsEntry(data.energy, data.pixelOn, size, s, value, index);
  }

  /** The XY slices tile the grid: slice `s` ends inside it, and all of them cover it. */
  lemma SliceEndsInGrid(dims: Dimensions, s: nat)
    requires s < dims.z * dims.w
    ensures s * (dims.x * dims.y) + dims.x * dims.y <= dims.NumPixels()
  {
    SlicesCoverGrid(dims);
    MulLe(s + 1, dims.z * dims.w, dims.x * dims.y);
    MulSucc(s, dims.x * dims.y);
  }

  lemma SlicesCoverGrid(dims: Dimensions)
    ensures (dims.z * dims.w) * (dims.x * dims.y) == dims.NumPixels()
  {
    Prod4Assoc(dims.x, dims.y, dims.z, dims.w);
  }

  /**
   * The slice-cache implementation of the per-axis splat interface. The
   * queries may repair dirty cache entries (the cache is `mutable` in the
   * original), so they modify the cache but never the grid.
   */
  class SliceCacheImpl {
    const data: STBNData
    const cache: SliceCacheData2Dx1Dx1D

    /** The grid is well formed, the cache is over its dimensions, and every clean entry is right. */
    ghost predicate Valid()
      reads this, data, cache
    {
      data.Valid() && cache.Valid() && cache.dims == data.dimensions && cache.Correct(data.energy, data.pixelOn)
    }

    constructor (data: STBNData)
      requires data.Valid()
      ensures this.data == data && fresh(cache) && Valid()
      ensures forall s :: 0 <= s < cache.numSlicesXY ==> cache.dirtyMax[s] && cache.dirtyMin[s]
    {
      this.data := data;
      cache := new SliceCacheData2Dx1Dx1D(data.dimensions);
      new;
      AllDirtyIsCorrect(cache, data.energy, data.pixelOn);
    }

    method GetSTBNData() returns (d: STBNData)
      ensures d == data
    {
      d := data;
    }

    method GetPixelOnCount() returns (count: nat)
      requires Valid()
      ensures count == Count(data.pixelOn)
    {
      count := 0;
      var i := 0;
      while i < |data.pixelOn|
        invariant i <= |data.pixelOn| && count == Count(data.pixelOn[..i])
      {
        assert data.pixelOn[..i + 1][..i] == data.pixelOn[..i];
        if data.pixelOn[i] {
          count := count + 1;
        }
        i := i + 1;
      }
      assert data.pixelOn[..i] == data.pixelOn;
    }

    /** The max entry of slice `s`, rescanned and stored clean when it was dirty. */
    method SliceMax(s: nat) returns (value: Bound, index: nat)
      requires Valid() && s < cache.numSlicesXY
      modifies cache`dirtyMax, cache`maxValue, cache`maxValueIndex
      ensures Valid() && MaxEntryOk(data.energy, data.pixelOn, cache.sliceSizeXY, s, value, index)
      ensures if old(cache.dirtyMax[s])
        then cache.dirtyMax == old(cache.dirtyMax)[s := false] && cache.maxValue == old(cache.maxValue)[s := value]
             && cache.maxValueIndex == old(cache.maxValueIndex)[s := index]
        else unchanged(cache) && value == cache.maxValue[s] && index == cache.maxValueIndex[s]
    {
      if !cache.dirtyMax[s] {
        index := cache.maxValueIndex[s];
        value := cache.maxValue[s];
      } else {
        SliceEndsInGrid(data.dimensions, s);
        value, index := ScanSliceMax(data, s, cache.sliceSizeXY);
        MaxSideRepaired(cache.sliceSizeXY, cache.dirtyMax, cache.maxValue, cache.maxValueIndex, data.energy, data.pixelOn,
                        s, value, index);
        cache.maxValue := cache.maxValue[s := value];
        cache.maxValueIndex := cache.maxValueIndex[s := index];
        cache.dirtyMax := cache.dirtyMax[s := false];
      }
    }

    /** The min entry of slice `s`, rescanned and stored clean when it was dirty. */
    method SliceMin(s: nat) returns (value: Bound, index: nat)
      requires Valid() && s < cache.numSlicesXY
      modifies cache`dirtyMin, cache`minValue, cache`minValueIndex
      ensures Valid() && MinEntryOk(data.energy, data.pixelOn, cache.sliceSizeXY, s, value, index)
      ensures if old(cache.dirtyMin[s])
        then cache.dirtyMin == old(cache.dirtyMin)[s := false] && cache.minValue == old(cache.minValue)[s := value]
             && cache.minValueIndex == old(cache.minValueIndex)[s := index]
        else unchanged(cache) && value == cache.minValue[s] && index == cache.minValueIndex[s]
    {
      if !cache.dirtyMin[s] {
        index := cache.minValueIndex[s];
        value := cache.minValue[s];
      } else {
        SliceEndsInGrid(data.dimensions, s);
        value, index := ScanSliceMin(data, s, cache.sliceSizeXY);
        MinSideRepaired(cache.sliceSizeXY, cache.dirtyMin, cache.minValue, cache.minValueIndex, data.energy, data.pixelOn,
                        s, value, index);
        cache.minValue := cache.minValue[s := value];
        cache.minValueIndex := cache.minValueIndex[s := index];
        cache.dirtyMin := cache.dirtyMin[s := false];
      }
    }

    /** A tightest cluster: the greatest of the slice maxima, keeping the earlier slice on ties. */
    method GetTightestCluster() returns (clusterPixelIndex: nat)
      requires Valid()
      modifies cache
      ensures Valid()
      ensures ClusterAnswer(data.energy, data.pixelOn, clusterPixelIndex)
    {
      SlicesCoverGrid(data.dimensions);
      clusterPixelIndex := 0;
      var maxEnergy := NegInf;
      var sliceXYIndex := 0;
      ghost var covered := 0;
      while sliceXYIndex < cache.numSlicesXY
        invariant sliceXYIndex <= cache.numSlicesXY && Valid()
        invariant covered == sliceXYIndex * cache.sliceSizeXY && covered <= |data.pixelOn|
        invariant RangeMax(data.energy, data.pixelOn, 0, covered, maxEnergy, clusterPixelIndex)
      {
        SliceEndsInGrid(data.dimensions, sliceXYIndex);
        maxEnergy, clusterPixelIndex := CombineSliceMax(sliceXYIndex, covered, maxEnergy, clusterPixelIndex);
        MulSucc(sliceXYIndex, cache.sliceSizeXY);
        covered := covered + cache.sliceSizeXY;
        sliceXYIndex := sliceXYIndex + 1;
      }
      MaxAnswer(data.energy, data.pixelOn, maxEnergy, clusterPixelIndex);
    }

    /** One step of the cluster loop: slice `s`'s maximum replaces the best so far when strictly greater. */
    method CombineSliceMax(s: nat, ghost covered: nat, maxEnergy: Bound, clusterPixelIndex: nat) returns (maxEnergy1: Bound, clusterPixelIndex1: nat)
      requires Valid() && s < cache.numSlicesXY
      requires covered == s * cache.sliceSizeXY && covered + cache.sliceSizeXY <= |data.pixelOn|
      requires RangeMax(data.energy, data.pixelOn, 0, covered, maxEnergy, clusterPixelIndex)
      modifies cache
      ensures Valid()
      ensures RangeMax(data.energy, data.pixelOn, 0, covered + cache.sliceSizeXY, maxEnergy1, clusterPixelIndex1)
    {
      var sliceMaxEnergy, sliceTightestClusterIndex := SliceMax(s);
      maxEnergy1, clusterPixelIndex1 := maxEnergy, clusterPixelIndex;
      if Less(maxEnergy, sliceMaxEnergy) {
        maxEnergy1 := sliceMaxEnergy;
        clusterPixelIndex1 := sliceTightestClusterIndex;
      }
      CombineMax(data.energy, data.pixelOn, cache.sliceSizeXY, s, maxEnergy, clusterPixelIndex,
                 sliceMaxEnergy, sliceTightestClusterIndex, maxEnergy1, clusterPixelIndex1);
    }

    /** A largest void: the least of the slice minima, keeping the earlier slice on ties. */
    method GetLargestVoid() returns (voidPixelIndex: nat)
      requires Valid()
      modifies cache
      ensures Valid()
      ensures VoidAnswer(data.energy, data.pixelOn, voidPixelIndex)
    {
      SlicesCoverGrid(data.dimensions);
      voidPixelIndex := 0;
      var minEnergy := PosInf;
      var sliceXYIndex := 0;
      ghost var covered := 0;
      while sliceXYIndex < cache.numSlicesXY
        invariant sliceXYIndex <= cache.numSlicesXY && Valid()
        invariant covered == sliceXYIndex * cache.sliceSizeXY && covered <= |data.pixelOn|
        invariant RangeMin(data.energy, data.pixelOn, 0, covered, minEnergy, voidPixelIndex)
      {
        SliceEndsInGrid(data.dimensions, sliceXYIndex);
        minEnergy, voidPixelIndex := CombineSliceMin(sliceXYIndex, covered, minEnergy, voidPixelIndex);
        MulSucc(sliceXYIndex, cache.sliceSizeXY);
        covered := covered + cache.sliceSizeXY;
        sliceXYIndex := sliceXYIndex + 1;
      }
      MinAnswer(data.energy, data.pixelOn, minEnergy, voidPixelIndex);
    }

    /** One step of the void loop: slice `s`'s minimum replaces the best so far when strictly smaller. */
    method CombineSliceMin(s: nat, ghost covered: nat, minEnergy: Bound, voidPixelIndex: nat) returns (minEnergy1: Bound, voidPixelIndex1: nat)
      requires Valid() && s < cache.numSlicesXY
      requires covered == s * cache.sliceSizeXY && covered + cache.sliceSizeXY <= |data.pixelOn|
      requires RangeMin(data.energy, data.pixelOn, 0, covered, minEnergy, voidPixelIndex)
      modifies cache
      ensures Valid()
      ensures RangeMin(data.energy, data.pixelOn, 0, covered + cache.sliceSizeXY, minEnergy1, voidPixelIndex1)
    {
      var sliceMinEnergy, sliceLargestVoidIndex := SliceMin(s);
      minEnergy1, voidPixelIndex1 := minEnergy, voidPixelIndex;
      if Less(sliceMinEnergy, minEnergy) {
        minEnergy1 := sliceMinEnergy;
        voidPixelIndex1 := sliceLargestVoidIndex;
      }
      CombineMin(data.energy, data.pixelOn, cache.sliceSizeXY, s, minEnergy, voidPixelIndex,
                 sliceMinEnergy, sliceLargestVoidIndex, minEnergy1, voidPixelIndex1);
    }

    // ---- the splats: the same update lists as the reference implementation ----

    method SplatOnXY(pixelCoords: PixelCoords, outerKernel: SymmetricKernel, innerKernel: SymmetricKernel)
      requires Valid() && SplatOk2D(data.dimensions, pixelCoords, 1, outerKernel, 0, innerKernel)
      requires NonNegative(outerKernel) && NonNegative(innerKernel)
      modifies cache, data`energy
      ensures Valid()
      ensures data.energy == Apply(old(data.energy), Updates2D(data.dimensions, pixelCoords, 1, outerKernel, 0, innerKernel, true))
    {
      SplatXY(cache, data, true, pixelCoords, outerKernel, innerKernel);
    }

    method SplatOnZW(pixelCoords: PixelCoords, outerKernel: SymmetricKernel, innerKernel: SymmetricKernel)
      requires Valid() && SplatOk2D(data.dimensions, pixelCoords, 3, outerKernel, 2, innerKernel)
      requires NonNegative(outerKernel) && NonNegative(innerKernel)
      modifies cache, data`energy
      ensures Valid()
      ensures data.energy == Apply(old(data.energy), Updates2D(data.dimensions, pixelCoords, 3, outerKernel, 2, innerKernel, true))
    {
      SplatZW(cache, data, true, pixelCoords, outerKernel, innerKernel);
    }

    method SplatOnZ(pixelCoords: PixelCoords, kernel: SymmetricKernel)
      requires Valid() && SplatOk1D(data.dimensions, pixelCoords, 2, kernel) && NonNegative(kernel)
      modifies cache, data`energy
      ensures Valid()
      ensures data.energy == Apply(old(data.energy), Updates1D(data.dimensions, pixelCoords, 2, kernel, true))
    {
      SplatZ(cache, data, true, pixelCoords, kernel);
    }

    method SplatOnW(pixelCoords: PixelCoords, kernel: SymmetricKernel)
      requires Valid() && SplatOk1D(data.dimensions, pixelCoords, 3, kernel)
      modifies cache, data`energy
      ensures Valid()
      ensures data.energy == Apply(old(data.energy), Updates1D(data.dimensions, pixelCoords, 3, kernel, true))
    {
      SplatW(cache, data, true, pixelCoords, kernel);
    }

    method SplatOffXY(pixelCoords: PixelCoords, outerKernel: SymmetricKernel, innerKernel: SymmetricKernel)
      requires Valid() && SplatOk2D(data.dimensions, pixelCoords, 1, outerKernel, 0, innerKernel)
      requires NonNegative(outerKernel) && NonNegative(innerKernel)
      modifies cache, data`energy
      ensures Valid()
      ensures data.energy == Apply(old(data.energy), Updates2D(data.dimensions, pixelCoords, 1, outerKernel, 0, innerKernel, false))
    {
      SplatXY(cache, data, false, pixelCoords, outerKernel, innerKernel);
    }

    method SplatOffZW(pixelCoords: PixelCoords, outerKernel: SymmetricKernel, innerKernel: SymmetricKernel)
      requires Valid() && SplatOk2D(data.dimensions, pixelCoords, 3, outerKernel, 2, innerKernel)
      requires NonNegative(outerKernel) && NonNegative(innerKernel)
      modifies cache, data`energy
      ensures Valid()
      ensures data.energy == Apply(old(data.energy), Updates2D(data.dimensions, pixelCoords, 3, outerKernel, 2, innerKernel, false))
    {
      SplatZW(cache, data, false, pixelCoords, outerKernel, innerKernel);
    }

    method SplatOffZ(pixelCoords: PixelCoords, kernel: SymmetricKernel)
      requires Valid() && SplatOk1D(data.dimensions, pixelCoords, 2, kernel) && NonNegative(kernel)
      modifies cache, data`energy
      ensures Valid()
      ensures data.energy == Apply(old(data.energy), Updates1D(data.dimensions, pixelCoords, 2, kernel, false))
    {
      SplatZ(cache, data, false, pixelCoords, kernel);
    }

    method SplatOffW(pixelCoords: PixelCoords, kernel: SymmetricKernel)
      requires Valid() && SplatOk1D(data.dimensions, pixelCoords, 3, kernel)
      modifies cache, data`energy
      ensures Valid()
      ensures data.energy == Apply(old(data.energy), Updates1D(data.dimensions, pixelCoords, 3, kernel, false))
    {
      SplatW(cache, data, false, pixelCoords, kernel);
    }

    // ---- the mutators ----

    /**
     * Sets a flag and dirties both entries of the slice of the decoded
     * coordinates, which is the pixel's own slice when w <= y.
     */
    method SetPixelOn(pixelIndex: nat, value: bool)
      requires Valid() && pixelIndex < data.numPixels && data.dimensions.w <= data.dimensions.y
      modifies data`pixelOn, cache`dirtyMax, cache`dirtyMin
      ensures Valid()
      ensures data.pixelOn == old(data.pixelOn)[pixelIndex := value]
      ensures var s := XYSlice(PixelIndexToPixelCoords(pixelIndex, data.dimensions), data.dimensions);
        s < cache.numSlicesXY
        && cache.dirtyMax == old(cache.dirtyMax)[s := true] && cache.dirtyMin == old(cache.dirtyMin)[s := true]
    {
      var dims := data.dimensions;
      ghost var on0 := data.pixelOn;
      data.pixelOn := data.pixelOn[pixelIndex := value];
      var xySlice := XYSlice(PixelIndexToPixelCoords(pixelIndex, dims), dims);
      SliceOfDecodedIndex(pixelIndex, dims);
      SliceRange(pixelIndex, xySlice, cache.sliceSizeXY);
      SidesDirtied(cache.sliceSizeXY, cache.dirtyMax, cache.maxValue, cache.maxValueIndex,
                   cache.dirtyMin, cache.minValue, cache.minValueIndex,
                   data.energy, on0, data.energy, data.pixelOn, pixelIndex, xySlice);
      cache.dirtyMax := cache.dirtyMax[xySlice := true];
      cache.dirtyMin := cache.dirtyMin[xySlice := true];
    }

    method SetPixelRank(pixelIndex: nat, rank: nat)
      requires Valid() && pixelIndex < data.numPixels
      modifies data`pixelRank
      ensures Valid() && data.pixelRank == old(data.pixelRank)[pixelIndex := rank]
    {
      data.pixelRank := data.pixelRank[pixelIndex := rank];
    }

    /** Zeroes every energy and dirties every entry. */
    method SetAllEnergyToZero()
      requires Valid()
      modifies data`energy, cache`dirtyMax, cache`dirtyMin
      ensures Valid() && data.energy == seq(data.numPixels, _ => 0.0)
      ensures cache.dirtyMax == seq(cache.numSlicesXY, _ => true) && cache.dirtyMin == seq(cache.numSlicesXY, _ => true)
    {
      data.energy := seq(data.numPixels, _ => 0.0);
      cache.dirtyMax := seq(cache.numSlicesXY, _ => true);
      cache.dirtyMin := seq(cache.numSlicesXY, _ => true);
      AllDirtyIsCorrect(cache, data.energy, data.pixelOn);
    }

    method InvertPixelOn(pixelIndex: nat)
      requires Valid() && pixelIndex < data.numPixels && data.dimensions.w <= data.dimensions.y
      modifies data`pixelOn, cache`dirtyMax, cache`dirtyMin
      ensures Valid()
      ensures data.pixelOn == old(data.pixelOn)[pixelIndex := !old(data.pixelOn)[pixelIndex]]
    {
      SetPixelOn(pixelIndex, !data.pixelOn[pixelIndex]);
    }
  }
}
