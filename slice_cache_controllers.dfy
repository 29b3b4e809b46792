// The two slice-cache controllers: the same composite splats as the reference
// controllers, performed by a slice-cache implementation whose queries use
// the per-slice cache.
module SliceCacheControllers {
  import opened Coords
  import opened Kernel
  import opened Data
  import opened Splat
  import opened Composite
  import opened SliceCache
  import opened ReferenceControllers

  /** The Gaussian weights are never negative, which the cache updates rely on. */
  predicate KernelsNonNegative(kernelX: SymmetricKernel, kernelY: SymmetricKernel,
                               kernelZ: SymmetricKernel, kernelW: SymmetricKernel)
  {
    NonNegative(kernelX) && NonNegative(kernelY) && NonNegative(kernelZ) && NonNegative(kernelW)
  }

  /** An XY splat, then a Z splat, then a W splat, each keeping the slice cache right. */
  class SliceCacheController2Dx1Dx1D {
    const data: STBNData
    const impl: SliceCacheImpl
    const kernelX: SymmetricKernel
    const kernelY: SymmetricKernel
    const kernelZ: SymmetricKernel
    const kernelW: SymmetricKernel

    /** The implementation works on this controller's grid and keeps its cache invariant. */
    ghost predicate Valid()
      reads this, impl, data, impl.cache
    {
      impl.data == data && impl.Valid()
    }

    constructor (data: STBNData, kernelX: SymmetricKernel, kernelY: SymmetricKernel,
                 kernelZ: SymmetricKernel, kernelW: SymmetricKernel)
      requires data.Valid()
      ensures Valid() && fresh(impl) && fresh(impl.cache) && this.data == data
      ensures this.kernelX == kernelX && this.kernelY == kernelY && this.kernelZ == kernelZ && this.kernelW == kernelW
    {
      this.data := data;
      impl := new SliceCacheImpl(data);
      this.kernelX := kernelX;
      this.kernelY := kernelY;
      this.kernelZ := kernelZ;
      this.kernelW := kernelW;
    }

    method GetSTBNData() returns (d: STBNData)
      ensures d == data
    {
      d := data;
    }

    method GetPixelOnCount() returns (count: nat)
      requires Valid()
      ensures count == Count(data.pixelOn)
    {
      count := impl.GetPixelOnCount();
    }

    method GetTightestCluster() returns (clusterPixelIndex: nat)
      requires Valid()
      modifies impl.cache
      ensures Valid() && ClusterAnswer(data.energy, data.pixelOn, clusterPixelIndex)
    {
      clusterPixelIndex := impl.GetTightestCluster();
    }

    method GetLargestVoid() returns (voidPixelIndex: nat)
      requires Valid()
      modifies impl.cache
      ensures Valid() && VoidAnswer(data.energy, data.pixelOn, voidPixelIndex)
    {
      voidPixelIndex := impl.GetLargestVoid();
    }

    method SplatOn(pixelCoords: PixelCoords)
      requires Valid() && KernelsFit(data.dimensions, kernelX, kernelY, kernelZ, kernelW)
      requires pixelCoords.InRange(data.dimensions) && KernelsNonNegative(kernelX, kernelY, kernelZ, kernelW)
      modifies impl.cache, data`energy
      ensures Valid()
      ensures data.energy == Apply(old(data.energy), SplatUpdates(Shape2Dx1Dx1D, data.dimensions, pixelCoords,
                                                                  kernelX, kernelY, kernelZ, kernelW, true))
    {
      ghost var e0 := data.energy;
      var dims := data.dimensions;
      KernelsFitGiveSplatOk(dims, pixelCoords, kernelX, kernelY, kernelZ, kernelW);
      impl.SplatOnXY(pixelCoords, kernelY, kernelX);
      impl.SplatOnZ(pixelCoords, kernelZ);
      impl.SplatOnW(pixelCoords, kernelW);
      ThreeSplats(e0, Updates2D(dims, pixelCoords, 1, kernelY, 0, kernelX, true),
                  Updates1D(dims, pixelCoords, 2, kernelZ, true), Updates1D(dims, pixelCoords, 3, kernelW, true));
    }

    method SplatOff(pixelCoords: PixelCoords)
      requires Valid() && KernelsFit(data.dimensions, kernelX, kernelY, kernelZ, kernelW)
      requires pixelCoords.InRange(data.dimensions) && KernelsNonNegative(kernelX, kernelY, kernelZ, kernelW)
      modifies impl.cache, data`energy
      ensures Valid()
      ensures data.energy == Apply(old(data.energy), SplatUpdates(Shape2Dx1Dx1D, data.dimensions, pixelCoords,
                                                                  kernelX, kernelY, kernelZ, kernelW, false))
    {
      ghost var e0 := data.energy;
      var dims := data.dimensions;
      KernelsFitGiveSplatOk(dims, pixelCoords, kernelX, kernelY, kernelZ, kernelW);
      impl.SplatOffXY(pixelCoords, kernelY, kernelX);
      impl.SplatOffZ(pixelCoords, kernelZ);
      impl.SplatOffW(pixelCoords, kernelW);
      ThreeSplats(e0, Updates2D(dims, pixelCoords, 1, kernelY, 0, kernelX, false),
                  Updates1D(dims, pixelCoords, 2, kernelZ, false), Updates1D(dims, pixelCoords, 3, kernelW, false));
    }

    /** Needs w <= y, as `SliceCacheImpl.SetPixelOn` does. */
    method SetPixelOn(pixelIndex: nat, value: bool)
      requires Valid() && pixelIndex < data.numPixels && data.dimensions.w <= data.dimensions.y
      modifies data`pixelOn, impl.cache`dirtyMax, impl.cache`dirtyMin
      ensures Valid() && data.pixelOn == old(data.pixelOn)[pixelIndex := value]
    {
      impl.SetPixelOn(pixelIndex, value);
    }

    method SetPixelRank(pixelIndex: nat, rank: nat)
      requires Valid() && pixelIndex < data.numPixels
      modifies data`pixelRank
      ensures Valid() && data.pixelRank == old(data.pixelRank)[pixelIndex := rank]
    {
      impl.SetPixelRank(pixelIndex, rank);
    }

    method SetAllEnergyToZero()
      requires Valid()
      modifies data`energy, impl.cache`dirtyMax, impl.cache`dirtyMin
      ensures Valid() && data.energy == seq(data.numPixels, _ => 0.0)
    {
      impl.SetAllEnergyToZero();
    }

    method InvertPixelOn(pixelIndex: nat)
      requires Valid() && pixelIndex < data.numPixels && data.dimensions.w <= data.dimensions.y
      modifies data`pixelOn, impl.cache`dirtyMax, impl.cache`dirtyMin
      ensures Valid() && data.pixelOn == old(data.pixelOn)[pixelIndex := !old(data.pixelOn)[pixelIndex]]
    {
      impl.InvertPixelOn(pixelIndex);
    }
  }

  /** An XY splat, then a ZW splat, each keeping the slice cache right. */
  class SliceCacheController2Dx2D {
    const data: STBNData
    const impl: SliceCacheImpl
    const kernelX: SymmetricKernel
    const kernelY: SymmetricKernel
    const kernelZ: SymmetricKernel
    const kernelW: SymmetricKernel

    /** The implementation works on this controller's grid and keeps its cache invariant. */
    ghost predicate Valid()
      reads this, impl, data, impl.cache
    {
      impl.data == data && impl.Valid()
    }

    constructor (data: STBNData, kernelX: SymmetricKernel, kernelY: SymmetricKernel,
                 kernelZ: SymmetricKernel, kernelW: SymmetricKernel)
      requires data.Valid()
      ensures Valid() && fresh(impl) && fresh(impl.cache) && this.data == data
      ensures this.kernelX == kernelX && this.kernelY == kernelY && this.kernelZ == kernelZ && this.kernelW == kernelW
    {
      this.data := data;
      impl := new SliceCacheImpl(data);
      this.kernelX := kernelX;
      this.kernelY := kernelY;
      this.kernelZ := kernelZ;
      this.kernelW := kernelW;
    }

    method GetSTBNData() returns (d: STBNData)
      ensures d == data
    {
      d := data;
    }

    method GetPixelOnCount() returns (count: nat)
      requires Valid()
      ensures count == Count(data.pixelOn)
    {
      count := impl.GetPixelOnCount();
    }

    method GetTightestCluster() returns (clusterPixelIndex: nat)
      requires Valid()
      modifies impl.cache
      ensures Valid() && ClusterAnswer(data.energy, data.pixelOn, clusterPixelIndex)
    {
      clusterPixelIndex := impl.GetTightestCluster();
    }

    method GetLargestVoid() returns (voidPixelIndex: nat)
      requires Valid()
      modifies impl.cache
      ensures Valid() && VoidAnswer(data.energy, data.pixelOn, voidPixelIndex)
    {
      voidPixelIndex := impl.GetLargestVoid();
    }

    method SplatOn(pixelCoords: PixelCoords)
      requires Valid() && KernelsFit(data.dimensions, kernelX, kernelY, kernelZ, kernelW)
      requires pixelCoords.InRange(data.dimensions) && KernelsNonNegative(kernelX, kernelY, kernelZ, kernelW)
      modifies impl.cache, data`energy
      ensures Valid()
      ensures data.energy == Apply(old(data.energy), SplatUpdates(Shape2Dx2D, data.dimensions, pixelCoords,
                                                                  kernelX, kernelY, kernelZ, kernelW, true))
    {
      ghost var e0 := data.energy;
      var dims := data.dimensions;
      KernelsFitGiveSplatOk(dims, pixelCoords, kernelX, kernelY, kernelZ, kernelW);
      impl.SplatOnXY(pixelCoords, kernelY, kernelX);
      impl.SplatOnZW(pixelCoords, kernelW, kernelZ);
      ApplyConcat(e0, Updates2D(dims, pixelCoords, 1, kernelY, 0, kernelX, true),
                  Updates2D(dims, pixelCoords, 3, kernelW, 2, kernelZ, true));
    }

    method SplatOff(pixelCoords: PixelCoords)
      requires Valid() && KernelsFit(data.dimensions, kernelX, kernelY, kernelZ, kernelW)
      requires pixelCoords.InRange(data.dimensions) && KernelsNonNegative(kernelX, kernelY, kernelZ, kernelW)
      modifies impl.cache, data`energy
      ensures Valid()
      ensures data.energy == Apply(old(data.energy), SplatUpdates(Shape2Dx2D, data.dimensions, pixelCoords,
                                                                  kernelX, kernelY, kernelZ, kernelW, false))
    {
      ghost var e0 := data.energy;
      var dims := data.dimensions;
      KernelsFitGiveSplatOk(dims, pixelCoords, kernelX, kernelY, kernelZ, kernelW);
      impl.SplatOffXY(pixelCoords, kernelY, kernelX);
      impl.SplatOffZW(pixelCoords, kernelW, kernelZ);
      ApplyConcat(e0, Updates2D(dims, pixelCoords, 1, kernelY, 0, kernelX, false),
                  Updates2D(dims, pixelCoords, 3, kernelW, 2, kernelZ, false));
    }

    /** Needs w <= y, as `SliceCacheImpl.SetPixelOn` does. */
    method SetPixelOn(pixelIndex: nat, value: bool)
      requires Valid() && pixelIndex < data.numPixels && data.dimensions.w <= data.dimensions.y
      modifies data`pixelOn, impl.cache`dirtyMax, impl.cache`dirtyMin
      ensures Valid() && data.pixelOn == old(data.pixelOn)[pixelIndex := value]
    {
      impl.SetPixelOn(pixelIndex, value);
    }

    method SetPixelRank(pixelIndex: nat, rank: nat)
      requires Valid() && pixelIndex < data.numPixels
      modifies data`pixelRank
      ensures Valid() && data.pixelRank == old(data.pixelRank)[pixelIndex := rank]
    {
      impl.SetPixelRank(pixelIndex, rank);
    }

    method SetAllEnergyToZero()
      requires Valid()
      modifies data`energy, impl.cache`dirtyMax, impl.cache`dirtyMin
      ensures Valid() && data.energy == seq(data.numPixels, _ => 0.0)
    {
      impl.SetAllEnergyToZero();
    }

    method InvertPixelOn(pixelIndex: nat)
      requires Valid() && pixelIndex < data.numPixels && data.dimensions.w <= data.dimensions.y
      modifies data`pixelOn, impl.cache`dirtyMax, impl.cache`dirtyMin
      ensures Valid() && data.pixelOn == old(data.pixelOn)[pixelIndex := !old(data.pixelOn)[pixelIndex]]
    {
      impl.InvertPixelOn(pixelIndex);
    }
  }
}
