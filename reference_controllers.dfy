// The two reference controllers: a composite splat made of reference splats
// with the kernels fixed at construction, and full-scan queries.
module ReferenceControllers {
  import opened Dims
  import opened Coords
  import opened Kernel
  import opened Data
  import opened Splat
  import opened Composite
  import ReferenceFuncs

  /** An XY splat, then a Z splat, then a W splat. */
  class ReferenceController2Dx1Dx1D {
    const data: STBNData
    const kernelX: SymmetricKernel
    const kernelY: SymmetricKernel
    const kernelZ: SymmetricKernel
    const kernelW: SymmetricKernel

    constructor (data: STBNData, kernelX: SymmetricKernel, kernelY: SymmetricKernel,
                 kernelZ: SymmetricKernel, kernelW: SymmetricKernel)
      ensures this.data == data && this.kernelX == kernelX && this.kernelY == kernelY
      ensures this.kernelZ == kernelZ && this.kernelW == kernelW
    {
      this.data := data;
      this.kernelX := kernelX;
      this.kernelY := kernelY;
      this.kernelZ := kernelZ;
      this.kernelW := kernelW;
    }

    method GetSTBNData() returns (d: STBNData)
      ensures d == data
    {
      d := data;
    }

    method GetPixelOnCount() returns (count: nat)
      requires data.Valid()
      ensures count == Count(data.pixelOn)
    {
      count := ReferenceFuncs.GetPixelOnCount(data);
    }

    method GetTightestCluster() returns (clusterPixelIndex: nat)
      requires data.Valid()
      ensures ClusterAnswer(data.energy, data.pixelOn, clusterPixelIndex)
      ensures AnyOn(data.pixelOn) ==> IsFirstTightestCluster(data.energy, data.pixelOn, clusterPixelIndex)
    {
      clusterPixelIndex := ReferenceFuncs.GetTightestCluster(data);
    }

    method GetLargestVoid() returns (voidPixelIndex: nat)
      requires data.Valid()
      ensures VoidAnswer(data.energy, data.pixelOn, voidPixelIndex)
      ensures AnyOff(data.pixelOn) ==> IsFirstLargestVoid(data.energy, data.pixelOn, voidPixelIndex)
    {
      voidPixelIndex := ReferenceFuncs.GetLargestVoid(data);
    }

    method SplatOn(pixelCoords: PixelCoords)
      requires data.Valid() && KernelsFit(data.dimensions, kernelX, kernelY, kernelZ, kernelW)
      requires pixelCoords.InRange(data.dimensions)
      modifies data`energy
      ensures data.Valid()
      ensures data.energy == Apply(old(data.energy), SplatUpdates(Shape2Dx1Dx1D, data.dimensions, pixelCoords,
                                                                  kernelX, kernelY, kernelZ, kernelW, true))
    {
      ghost var e0 := data.energy;
      var dims := data.dimensions;
      KernelsFitGiveSplatOk(dims, pixelCoords, kernelX, kernelY, kernelZ, kernelW);
      ReferenceFuncs.SplatOn2D(data, pixelCoords, 1, kernelY, 0, kernelX);
      ReferenceFuncs.SplatOn1D(data, pixelCoords, 2, kernelZ);
      ReferenceFuncs.SplatOn1D(data, pixelCoords, 3, kernelW);
      ThreeSplats(e0, Updates2D(dims, pixelCoords, 1, kernelY, 0, kernelX, true),
                  Updates1D(dims, pixelCoords, 2, kernelZ, true), Updates1D(dims, pixelCoords, 3, kernelW, true));
    }

    method SplatOff(pixelCoords: PixelCoords)
      requires data.Valid() && KernelsFit(data.dimensions, kernelX, kernelY, kernelZ, kernelW)
      requires pixelCoords.InRange(data.dimensions)
      modifies data`energy
      ensures data.Valid()
      ensures data.energy == Apply(old(data.energy), SplatUpdates(Shape2Dx1Dx1D, data.dimensions, pixelCoords,
                                                                  kernelX, kernelY, kernelZ, kernelW, false))
    {
      ghost var e0 := data.energy;
      var dims := data.dimensions;
      KernelsFitGiveSplatOk(dims, pixelCoords, kernelX, kernelY, kernelZ, kernelW);
      ReferenceFuncs.SplatOff2D(data, pixelCoords, 1, kernelY, 0, kernelX);
      ReferenceFuncs.SplatOff1D(data, pixelCoords, 2, kernelZ);
      ReferenceFuncs.SplatOff1D(data, pixelCoords, 3, kernelW);
      ThreeSplats(e0, Updates2D(dims, pixelCoords, 1, kernelY, 0, kernelX, false),
                  Updates1D(dims, pixelCoords, 2, kernelZ, false), Updates1D(dims, pixelCoords, 3, kernelW, false));
    }

    method SetPixelOn(pixelIndex: nat, value: bool)
      requires data.Valid() && pixelIndex < data.numPixels
      modifies data`pixelOn
      ensures data.Valid() && data.pixelOn == old(data.pixelOn)[pixelIndex := value]
    {
      ReferenceFuncs.SetPixelOn(data, pixelIndex, value);
    }

    method SetPixelRank(pixelIndex: nat, rank: nat)
      requires data.Valid() && pixelIndex < data.numPixels
      modifies data`pixelRank
      ensures data.Valid() && data.pixelRank == old(data.pixelRank)[pixelIndex := rank]
    {
      ReferenceFuncs.SetPixelRank(data, pixelIndex, rank);
    }

    method SetAllEnergyToZero()
      requires data.Valid()
      modifies data`energy
      ensures data.Valid() && data.energy == seq(data.numPixels, _ => 0.0)
    {
      ReferenceFuncs.SetAllEnergyToZero(data);
    }

    method InvertPixelOn(pixelIndex: nat)
      requires data.Valid() && pixelIndex < data.numPixels
      modifies data`pixelOn
      ensures data.Valid() && data.pixelOn == old(data.pixelOn)[pixelIndex := !old(data.pixelOn)[pixelIndex]]
    {
      ReferenceFuncs.InvertPixelOn(data, pixelIndex);
    }
  }

  /** An XY splat, then a ZW splat. */
  class ReferenceController2Dx2D {
    const data: STBNData
    const kernelX: SymmetricKernel
    const kernelY: SymmetricKernel
    const kernelZ: SymmetricKernel
    const kernelW: SymmetricKernel

    constructor (data: STBNData, kernelX: SymmetricKernel, kernelY: SymmetricKernel,
                 kernelZ: SymmetricKernel, kernelW: SymmetricKernel)
      ensures this.data == data && this.kernelX == kernelX && this.kernelY == kernelY
      ensures this.kernelZ == kernelZ && this.kernelW == kernelW
    {
      this.data := data;
      this.kernelX := kernelX;
      this.kernelY := kernelY;
      this.kernelZ := kernelZ;
      this.kernelW := kernelW;
    }

    method GetSTBNData() returns (d: STBNData)
      ensures d == data
    {
      d := data;
    }

    method GetPixelOnCount() returns (count: nat)
      requires data.Valid()
      ensures count == Count(data.pixelOn)
    {
      count := ReferenceFuncs.GetPixelOnCount(data);
    }

    method GetTightestCluster() returns (clusterPixelIndex: nat)
      requires data.Valid()
      ensures ClusterAnswer(data.energy, data.pixelOn, clusterPixelIndex)
      ensures AnyOn(data.pixelOn) ==> IsFirstTightestCluster(data.energy, data.pixelOn, clusterPixelIndex)
    {
      clusterPixelIndex := ReferenceFuncs.GetTightestCluster(data);
    }

    method GetLargestVoid() returns (voidPixelIndex: nat)
      requires data.Valid()
      ensures VoidAnswer(data.energy, data.pixelOn, voidPixelIndex)
      ensures AnyOff(data.pixelOn) ==> IsFirstLargestVoid(data.energy, data.pixelOn, voidPixelIndex)
    {
      voidPixelIndex := ReferenceFuncs.GetLargestVoid(data);
    }

    method SplatOn(pixelCoords: PixelCoords)
      requires data.Valid() && KernelsFit(data.dimensions, kernelX, kernelY, kernelZ, kernelW)
      requires pixelCoords.InRange(data.dimensions)
      modifies data`energy
      ensures data.Valid()
      ensures data.energy == Apply(old(data.energy), SplatUpdates(Shape2Dx2D, data.dimensions, pixelCoords,
                                                                  kernelX, kernelY, kernelZ, kernelW, true))
    {
      ghost var e0 := data.energy;
      var dims := data.dimensions;
      KernelsFitGiveSplatOk(dims, pixelCoords, kernelX, kernelY, kernelZ, kernelW);
      ReferenceFuncs.SplatOn2D(data, pixelCoords, 1, kernelY, 0, kernelX);
      ReferenceFuncs.SplatOn2D(data, pixelCoords, 3, kernelW, 2, kernelZ);
      ApplyConcat(e0, Updates2D(dims, pixelCoords, 1, kernelY, 0, kernelX, true),
                  Updates2D(dims, pixelCoords, 3, kernelW, 2, kernelZ, true));
    }

    method SplatOff(pixelCoords: PixelCoords)
      requires data.Valid() && KernelsFit(data.dimensions, kernelX, kernelY, kernelZ, kernelW)
      requires pixelCoords.InRange(data.dimensions)
      modifies data`energy
      ensures data.Valid()
      ensures data.energy == Apply(old(data.energy), SplatUpdates(Shape2Dx2D, data.dimensions, pixelCoords,
                                                                  kernelX, kernelY, kernelZ, kernelW, false))
    {
      ghost var e0 := data.energy;
      var dims := data.dimensions;
      KernelsFitGiveSplatOk(dims, pixelCoords, kernelX, kernelY, kernelZ, kernelW);
      ReferenceFuncs.SplatOff2D(data, pixelCoords, 1, kernelY, 0, kernelX);
      ReferenceFuncs.SplatOff2D(data, pixelCoords, 3, kernelW, 2, kernelZ);
      ApplyConcat(e0, Updates2D(dims, pixelCoords, 1, kernelY, 0, kernelX, false),
                  Updates2D(dims, pixelCoords, 3, kernelW, 2, kernelZ, false));
    }

    method SetPixelOn(pixelIndex: nat, value: bool)
      requires data.Valid() && pixelIndex < data.numPixels
      modifies data`pixelOn
      ensures data.Valid() && data.pixelOn == old(data.pixelOn)[pixelIndex := value]
    {
      ReferenceFuncs.SetPixelOn(data, pixelIndex, value);
    }

    method SetPixelRank(pixelIndex: nat, rank: nat)
      requires data.Valid() && pixelIndex < data.numPixels
      modifies data`pixelRank
      ensures data.Valid() && data.pixelRank == old(data.pixelRank)[pixelIndex := rank]
    {
      ReferenceFuncs.SetPixelRank(data, pixelIndex, rank);
    }

    method SetAllEnergyToZero()
      requires data.Valid()
      modifies data`energy
      ensures data.Valid() && data.energy == seq(data.numPixels, _ => 0.0)
    {
      ReferenceFuncs.SetAllEnergyToZero(data);
    }

    method InvertPixelOn(pixelIndex: nat)
      requires data.Valid() && pixelIndex < data.numPixels
      modifies data`pixelOn
      ensures data.Valid() && data.pixelOn == old(data.pixelOn)[pixelIndex := !old(data.pixelOn)[pixelIndex]]
    {
      ReferenceFuncs.InvertPixelOn(data, pixelIndex);
    }
  }

  /** Three update lists applied one after another act as their concatenation. */
  lemma ThreeSplats(e: seq<real>, a: seq<Update>, b: seq<Update>, c: seq<Update>)
    ensures Apply(Apply(Apply(e, a), b), c) == Apply(e, a + b + c)
  {
    ApplyConcat(e, a, b);
    ApplyConcat(e, a + b, c);
  }
}
