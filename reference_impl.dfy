// The reference implementation of the per-axis splat interface: every splat
// is one of the reference splats on fixed axes (x = 0, y = 1, z = 2, w = 3),
// and every query and mutator forwards to the reference functions.
module ReferenceImpl {
  import opened Dims
  import opened Coords
  import opened Kernel
  import opened Data
  import opened Splat
  import ReferenceFuncs

  class ReferenceImpl2Dx1Dx1D {
    const data: STBNData

    constructor (data: STBNData)
      ensures this.data == data
    {
      this.data := data;
    }

    method GetSTBNData() returns (d: STBNData)
      ensures d == data
    {
      d := data;
    }

    method GetPixelOnCount() returns (count: nat)
      requires data.Valid()
      ensures count == Count(data.pixelOn)
    {
      count := ReferenceFuncs.GetPixelOnCount(data);
    }

    method GetTightestCluster() returns (clusterPixelIndex: nat)
      requires data.Valid()
      ensures ClusterAnswer(data.energy, data.pixelOn, clusterPixelIndex)
      ensures AnyOn(data.pixelOn) ==> IsFirstTightestCluster(data.energy, data.pixelOn, clusterPixelIndex)
    {
      clusterPixelIndex := ReferenceFuncs.GetTightestCluster(data);
    }

    method GetLargestVoid() returns (voidPixelIndex: nat)
      requires data.Valid()
      ensures VoidAnswer(data.energy, data.pixelOn, voidPixelIndex)
      ensures AnyOff(data.pixelOn) ==> IsFirstLargestVoid(data.energy, data.pixelOn, voidPixelIndex)
    {
      voidPixelIndex := ReferenceFuncs.GetLargestVoid(data);
    }

    /** The XY splat: outer axis y (1), inner axis x (0). */
    method SplatOnXY(pixelCoords: PixelCoords, outerKernel: SymmetricKernel, innerKernel: SymmetricKernel)
      requires data.Valid() && SplatOk2D(data.dimensions, pixelCoords, 1, outerKernel, 0, innerKernel)
      modifies data`energy
      ensures data.Valid()
      ensures data.energy == Apply(old(data.energy), Updates2D(data.dimensions, pixelCoords, 1, outerKernel, 0, innerKernel, true))
    {
      ReferenceFuncs.SplatOn2D(data, pixelCoords, 1, outerKernel, 0, innerKernel);
    }

    /** The ZW splat: outer axis w (3), inner axis z (2). */
    method SplatOnZW(pixelCoords: PixelCoords, outerKernel: SymmetricKernel, innerKernel: SymmetricKernel)
      requires data.Valid() && SplatOk2D(data.dimensions, pixelCoords, 3, outerKernel, 2, innerKernel)
      modifies data`energy
      ensures data.Valid()
      ensures data.energy == Apply(old(data.energy), Updates2D(data.dimensions, pixelCoords, 3, outerKernel, 2, innerKernel, true))
    {
      ReferenceFuncs.SplatOn2D(data, pixelCoords, 3, outerKernel, 2, innerKernel);
    }

    method SplatOnZ(pixelCoords: PixelCoords, kernel: SymmetricKernel)
      requires data.Valid() && SplatOk1D(data.dimensions, pixelCoords, 2, kernel)
      modifies data`energy
      ensures data.Valid()
      ensures data.energy == Apply(old(data.energy), Updates1D(data.dimensions, pixelCoords, 2, kernel, true))
    {
      ReferenceFuncs.SplatOn1D(data, pixelCoords, 2, kernel);
    }

    method SplatOnW(pixelCoords: PixelCoords, kernel: SymmetricKernel)
      requires data.Valid() && SplatOk1D(data.dimensions, pixelCoords, 3, kernel)
      modifies data`energy
      ensures data.Valid()
      ensures data.energy == Apply(old(data.energy), Updates1D(data.dimensions, pixelCoords, 3, kernel, true))
    {
      ReferenceFuncs.SplatOn1D(data, pixelCoords, 3, kernel);
    }

    method SplatOffXY(pixelCoords: PixelCoords, outerKernel: SymmetricKernel, innerKernel: SymmetricKernel)
      requires data.Valid() && SplatOk2D(data.dimensions, pixelCoords, 1, outerKernel, 0, innerKernel)
      modifies data`energy
      ensures data.Valid()
      ensures data.energy == Apply(old(data.energy), Updates2D(data.dimensions, pixelCoords, 1, outerKernel, 0, innerKernel, false))
    {
      ReferenceFuncs.SplatOff2D(data, pixelCoords, 1, outerKernel, 0, innerKernel);
    }

    method SplatOffZW(pixelCoords: PixelCoords, outerKernel: SymmetricKernel, innerKernel: SymmetricKernel)
      requires data.Valid() && SplatOk2D(data.dimensions, pixelCoords, 3, outerKernel, 2, innerKernel)
      modifies data`energy
      ensures data.Valid()
      ensures data.energy == Apply(old(data.energy), Updates2D(data.dimensions, pixelCoords, 3, outerKernel, 2, innerKernel, false))
    {
      ReferenceFuncs.SplatOff2D(data, pixelCoords, 3, outerKernel, 2, innerKernel);
    }

    method SplatOffZ(pixelCoords: PixelCoords, kernel: SymmetricKernel)
      requires data.Valid() && SplatOk1D(data.dimensions, pixelCoords, 2, kernel)
      modifies data`energy
      ensures data.Valid()
      ensures data.energy == Apply(old(data.energy), Updates1D(data.dimensions, pixelCoords, 2, kernel, false))
    {
      ReferenceFuncs.SplatOff1D(data, pixelCoords, 2, kernel);
    }

    method SplatOffW(pixelCoords: PixelCoords, kernel: SymmetricKernel)
      requires data.Valid() && SplatOk1D(data.dimensions, pixelCoords, 3, kernel)
      modifies data`energy
      ensures data.Valid()
      ensures data.energy == Apply(old(data.energy), Updates1D(data.dimensions, pixelCoords, 3, kernel, false))
    {
      ReferenceFuncs.SplatOff1D(data, pixelCoords, 3, kernel);
    }

    method SetPixelOn(pixelIndex: nat, value: bool)
      requires data.Valid() && pixelIndex < data.numPixels
      modifies data`pixelOn
      ensures data.Valid() && data.pixelOn == old(data.pixelOn)[pixelIndex := value]
    {
      ReferenceFuncs.SetPixelOn(data, pixelIndex, value);
    }

    method SetPixelRank(pixelIndex: nat, rank: nat)
      requires data.Valid() && pixelIndex < data.numPixels
      modifies data`pixelRank
      ensures data.Valid() && data.pixelRank == old(data.pixelRank)[pixelIndex := rank]
    {
      ReferenceFuncs.SetPixelRank(data, pixelIndex, rank);
    }

    method SetAllEnergyToZero()
      requires data.Valid()
      modifies data`energy
      ensures data.Valid() && data.energy == seq(data.numPixels, _ => 0.0)
    {
      ReferenceFuncs.SetAllEnergyToZero(data);
    }

    method InvertPixelOn(pixelIndex: nat)
      requires data.Valid() && pixelIndex < data.numPixels
      modifies data`pixelOn
      ensures data.Valid() && data.pixelOn == old(data.pixelOn)[pixelIndex := !old(data.pixelOn)[pixelIndex]]
    {
      ReferenceFuncs.InvertPixelOn(data, pixelIndex);
    }
  }
}
