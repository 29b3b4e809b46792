// The controller interface the void-and-cluster driver talks to. The four
// controllers share one contract; this class holds the one chosen by the
// `ScalarImplementation` value and forwards every call to it.
module Controller {
  import opened Dims
  import opened Coords
  import opened Kernel
  import opened Data
  import opened Splat
  import opened Composite
  import opened ReferenceControllers
  import opened SliceCacheControllers

  datatype ScalarImplementation = Reference2Dx1Dx1D | Reference2Dx2D | SliceCache2Dx1Dx1D | SliceCache2Dx2D
  {
    predicate IsSliceCache()
    {
      this == SliceCache2Dx1Dx1D || this == SliceCache2Dx2D
    }

    predicate IsReference()
    {
      !IsSliceCache()
    }

    /** The composite splat this implementation performs. */
    function Shape(): SplatShape
    {
      if this == Reference2Dx1Dx1D || this == SliceCache2Dx1Dx1D then Shape2Dx1Dx1D else Shape2Dx2D
    }
  }

  class VCController {
    const implementation: ScalarImplementation
    const data: STBNData
    const kernelX: SymmetricKernel
    const kernelY: SymmetricKernel
    const kernelZ: SymmetricKernel
    const kernelW: SymmetricKernel
    const reference2Dx1Dx1D: ReferenceController2Dx1Dx1D?
    const reference2Dx2D: ReferenceController2Dx2D?
    const sliceCache2Dx1Dx1D: SliceCacheController2Dx1Dx1D?
    const sliceCache2Dx2D: SliceCacheController2Dx2D?

    /** The slice caches the chosen controller owns (none for a reference controller). */
    ghost function Caches(): set<object>
    {
      (if sliceCache2Dx1Dx1D != null then {sliceCache2Dx1Dx1D.impl.cache} else {})
      + (if sliceCache2Dx2D != null then {sliceCache2Dx2D.impl.cache} else {})
    }

    ghost function Repr(): set<object>
    {
      {this, data} + Caches()
      + (if reference2Dx1Dx1D != null then {reference2Dx1Dx1D} else {})
      + (if reference2Dx2D != null then {reference2Dx2D} else {})
      + (if sliceCache2Dx1Dx1D != null then {sliceCache2Dx1Dx1D, sliceCache2Dx1Dx1D.impl} else {})
      + (if sliceCache2Dx2D != null then {sliceCache2Dx2D, sliceCache2Dx2D.impl} else {})
    }

    /**
     * The chosen controller exists, works on `data` with these kernels, and
     * keeps its own invariant; the grid is not one of the caches, is non-empty, the kernels fit their
     * axes and are non-negative, and a slice cache has w <= y.
     */
    ghost predicate Valid()
      reads Repr()
    {
      data.Valid() && data.dimensions.Valid() && data !in Caches()
      && KernelsFit(data.dimensions, kernelX, kernelY, kernelZ, kernelW)
      && KernelsNonNegative(kernelX, kernelY, kernelZ, kernelW)
      && (implementation.IsSliceCache() ==> data.dimensions.w <= data.dimensions.y)
      && match implementation
         case Reference2Dx1Dx1D =>
           reference2Dx1Dx1D != null && reference2Dx1Dx1D.data == data
           && reference2Dx1Dx1D.kernelX == kernelX && reference2Dx1Dx1D.kernelY == kernelY
           && reference2Dx1Dx1D.kernelZ == kernelZ && reference2Dx1Dx1D.kernelW == kernelW
         case Reference2Dx2D =>
           reference2Dx2D != null && reference2Dx2D.data == data
           && reference2Dx2D.kernelX == kernelX && reference2Dx2D.kernelY == kernelY
           && reference2Dx2D.kernelZ == kernelZ && reference2Dx2D.kernelW == kernelW
         case SliceCache2Dx1Dx1D =>
           sliceCache2Dx1Dx1D != null && sliceCache2Dx1Dx1D.data == data && sliceCache2Dx1Dx1D.Valid()
           && sliceCache2Dx1Dx1D.kernelX == kernelX && sliceCache2Dx1Dx1D.kernelY == kernelY
           && sliceCache2Dx1Dx1D.kernelZ == kernelZ && sliceCache2Dx1Dx1D.kernelW == kernelW
         case SliceCache2Dx2D =>
           sliceCache2Dx2D != null && sliceCache2Dx2D.data == data && sliceCache2Dx2D.Valid()
           && sliceCache2Dx2D.kernelX == kernelX && sliceCache2Dx2D.kernelY == kernelY
           && sliceCache2Dx2D.kernelZ == kernelZ && sliceCache2Dx2D.kernelW == kernelW
    }

    /** Builds exactly one controller, of the requested kind, over `data`. */
    constructor (implementation: ScalarImplementation, data: STBNData, kernelX: SymmetricKernel,
                 kernelY: SymmetricKernel, kernelZ: SymmetricKernel, kernelW: SymmetricKernel)
      requires data.Valid() && KernelsFit(data.dimensions, kernelX, kernelY, kernelZ, kernelW)
      requires KernelsNonNegative(kernelX, kernelY, kernelZ, kernelW)
      requires implementation.IsSliceCache() ==> data.dimensions.w <= data.dimensions.y
      ensures Valid() && fresh(Repr() - {data})
      ensures this.implementation == implementation && this.data == data
      ensures this.kernelX == kernelX && this.kernelY == kernelY && this.kernelZ == kernelZ && this.kernelW == kernelW
      ensures (reference2Dx1Dx1D != null <==> implementation == Reference2Dx1Dx1D)
           && (reference2Dx2D != null <==> implementation == Reference2Dx2D)
           && (sliceCache2Dx1Dx1D != null <==> implementation == SliceCache2Dx1Dx1D)
           && (sliceCache2Dx2D != null <==> implementation == SliceCache2Dx2D)
    {
      this.implementation := implementation;
      this.data := data;
      this.kernelX := kernelX;
      this.kernelY := kernelY;
      this.kernelZ := kernelZ;
      this.kernelW := kernelW;
      match implementation
      case Reference2Dx1Dx1D =>
        reference2Dx1Dx1D := new ReferenceController2Dx1Dx1D(data, kernelX, kernelY, kernelZ, kernelW);
        reference2Dx2D := null;
        sliceCache2Dx1Dx1D := null;
        sliceCache2Dx2D := null;
      case Reference2Dx2D =>
        reference2Dx1Dx1D := null;
        reference2Dx2D := new ReferenceController2Dx2D(data, kernelX, kernelY, kernelZ, kernelW);
        sliceCache2Dx1Dx1D := null;
        sliceCache2Dx2D := null;
      case SliceCache2Dx1Dx1D =>
        reference2Dx1Dx1D := null;
        reference2Dx2D := null;
        sliceCache2Dx1Dx1D := new SliceCacheController2Dx1Dx1D(data, kernelX, kernelY, kernelZ, kernelW);
        sliceCache2Dx2D := null;
      case SliceCache2Dx2D =>
        reference2Dx1Dx1D := null;
        reference2Dx2D := null;
        sliceCache2Dx1Dx1D := null;
        sliceCache2Dx2D := new SliceCacheController2Dx2D(data, kernelX, kernelY, kernelZ, kernelW);
    }

    method GetSTBNData() returns (d: STBNData)
      ensures d == data
    {
      d := data;
    }

    method GetPixelOnCount() returns (count: nat)
      requires Valid()
      ensures count == Count(data.pixelOn)
    {
      match implementation
      case Reference2Dx1Dx1D => count := reference2Dx1Dx1D.GetPixelOnCount();
      case Reference2Dx2D => count := reference2Dx2D.GetPixelOnCount();
      case SliceCache2Dx1Dx1D => count := sliceCache2Dx1Dx1D.GetPixelOnCount();
      case SliceCache2Dx2D => count := sliceCache2Dx2D.GetPixelOnCount();
    }

    /** Some tightest cluster; the first one for a reference controller. */
    method GetTightestCluster() returns (clusterPixelIndex: nat)
      requires Valid()
      modifies Caches()
      ensures Valid() && ClusterAnswer(data.energy, data.pixelOn, clusterPixelIndex)
      ensures implementation.IsReference() && AnyOn(data.pixelOn)
              ==> IsFirstTightestCluster(data.energy, data.pixelOn, clusterPixelIndex)
    {
      match implementation
      case Reference2Dx1Dx1D => clusterPixelIndex := reference2Dx1Dx1D.GetTightestCluster();
      case Reference2Dx2D => clusterPixelIndex := reference2Dx2D.GetTightestCluster();
      case SliceCache2Dx1Dx1D => clusterPixelIndex := sliceCache2Dx1Dx1D.GetTightestCluster();
      case SliceCache2Dx2D => clusterPixelIndex := sliceCache2Dx2D.GetTightestCluster();
    }

    /** Some largest void; the first one for a reference controller. */
    method GetLargestVoid() returns (voidPixelIndex: nat)
      requires Valid()
      modifies Caches()
      ensures Valid() && VoidAnswer(data.energy, data.pixelOn, voidPixelIndex)
      ensures implementation.IsReference() && AnyOff(data.pixelOn)
              ==> IsFirstLargestVoid(data.energy, data.pixelOn, voidPixelIndex)
    {
      match implementation
      case Reference2Dx1Dx1D => voidPixelIndex := reference2Dx1Dx1D.GetLargestVoid();
      case Reference2Dx2D => voidPixelIndex := reference2Dx2D.GetLargestVoid();
      case SliceCache2Dx1Dx1D => voidPixelIndex := sliceCache2Dx1Dx1D.GetLargestVoid();
      case SliceCache2Dx2D => voidPixelIndex := sliceCache2Dx2D.GetLargestVoid();
    }

    method SplatOn(pixelCoords: PixelCoords)
      requires Valid() && pixelCoords.InRange(data.dimensions)
      modifies data`energy, Caches()
      ensures Valid()
      ensures data.energy == Apply(old(data.energy), SplatUpdates(implementation.Shape(), data.dimensions, pixelCoords,
                                                                  kernelX, kernelY, kernelZ, kernelW, true))
    {
      match implementation
      case Reference2Dx1Dx1D => reference2Dx1Dx1D.SplatOn(pixelCoords);
      case Reference2Dx2D => reference2Dx2D.SplatOn(pixelCoords);
      case SliceCache2Dx1Dx1D => sliceCache2Dx1Dx1D.SplatOn(pixelCoords);
      case SliceCache2Dx2D => sliceCache2Dx2D.SplatOn(pixelCoords);
    }

    method SplatOff(pixelCoords: PixelCoords)
      requires Valid() && pixelCoords.InRange(data.dimensions)
      modifies data`energy, Caches()
      ensures Valid()
      ensures data.energy == Apply(old(data.energy), SplatUpdates(implementation.Shape(), data.dimensions, pixelCoords,
                                                                  kernelX, kernelY, kernelZ, kernelW, false))
    {
      match implementation
      case Reference2Dx1Dx1D => reference2Dx1Dx1D.SplatOff(pixelCoords);
      case Reference2Dx2D => reference2Dx2D.SplatOff(pixelCoords);
      case SliceCache2Dx1Dx1D => sliceCache2Dx1Dx1D.SplatOff(pixelCoords);
      case SliceCache2Dx2D => sliceCache2Dx2D.SplatOff(pixelCoords);
    }

    method SetPixelOn(pixelIndex: nat, value: bool)
      requires Valid() && pixelIndex < data.numPixels
      modifies data`pixelOn, Caches()
      ensures Valid() && data.pixelOn == old(data.pixelOn)[pixelIndex := value]
    {
      match implementation
      case Reference2Dx1Dx1D => reference2Dx1Dx1D.SetPixelOn(pixelIndex, value);
      case Reference2Dx2D => reference2Dx2D.SetPixelOn(pixelIndex, value);
      case SliceCache2Dx1Dx1D => sliceCache2Dx1Dx1D.SetPixelOn(pixelIndex, value);
      case SliceCache2Dx2D => sliceCache2Dx2D.SetPixelOn(pixelIndex, value);
    }

    method SetPixelRank(pixelIndex: nat, rank: nat)
      requires Valid() && pixelIndex < data.numPixels
      modifies data`pixelRank
      ensures Valid() && data.pixelRank == old(data.pixelRank)[pixelIndex := rank]
    {
      match implementation
      case Reference2Dx1Dx1D => reference2Dx1Dx1D.SetPixelRank(pixelIndex, rank);
      case Reference2Dx2D => reference2Dx2D.SetPixelRank(pixelIndex, rank);
      case SliceCache2Dx1Dx1D => sliceCache2Dx1Dx1D.SetPixelRank(pixelIndex, rank);
      case SliceCache2Dx2D => sliceCache2Dx2D.SetPixelRank(pixelIndex, rank);
    }

    method SetAllEnergyToZero()
      requires Valid()
      modifies data`energy, Caches()
      ensures Valid() && data.energy == seq(data.numPixels, _ => 0.0)
    {
      match implementation
      case Reference2Dx1Dx1D => reference2Dx1Dx1D.SetAllEnergyToZero();
      case Reference2Dx2D => reference2Dx2D.SetAllEnergyToZero();
      case SliceCache2Dx1Dx1D => sliceCache2Dx1Dx1D.SetAllEnergyToZero();
      case SliceCache2Dx2D => sliceCache2Dx2D.SetAllEnergyToZero();
    }

    method InvertPixelOn(pixelIndex: nat)
      requires Valid() && pixelIndex < data.numPixels
      modifies data`pixelOn, Caches()
      ensures Valid() && data.pixelOn == old(data.pixelOn)[pixelIndex := !old(data.pixelOn)[pixelIndex]]
    {
      match implementation
      case Reference2Dx1Dx1D => reference2Dx1Dx1D.InvertPixelOn(pixelIndex);
      case Reference2Dx2D => reference2Dx2D.InvertPixelOn(pixelIndex);
      case SliceCache2Dx1Dx1D => sliceCache2Dx1Dx1D.InvertPixelOn(pixelIndex);
      case SliceCache2Dx2D => sliceCache2Dx2D.InvertPixelOn(pixelIndex);
    }
  }
}
