// The reference energy strategy: splats add kernel products into the energy
// vector in place, and the queries scan every pixel.
module ReferenceFuncs {
  import opened Dims
  import opened Coords
  import opened Kernel
  import opened Data
  import opened Splat

  method GetPixelOnCount(data: STBNData) returns (count: nat)
    requires data.Valid()
    ensures count == Count(data.pixelOn)
  {
    count := 0;
    var i := 0;
    while i < data.numPixels
      invariant 0 <= i <= data.numPixels
      invariant count == Count(data.pixelOn[..i])
    {
      assert data.pixelOn[..i + 1][..i] == data.pixelOn[..i];
      if data.pixelOn[i] {
        count := count + 1;
      }
      i := i + 1;
    }
    assert data.pixelOn[..i] == data.pixelOn;
  }

  /** The first on pixel of greatest energy, or 0 when every pixel is off. */
  method GetTightestCluster(data: STBNData) returns (clusterPixelIndex: nat)
    requires data.Valid()
    ensures ClusterAnswer(data.energy, data.pixelOn, clusterPixelIndex)
    ensures AnyOn(data.pixelOn) ==> IsFirstTightestCluster(data.energy, data.pixelOn, clusterPixelIndex)
  {
    clusterPixelIndex := 0;
    var maxEnergy := NegInf;
    var pixelIndex := 0;
    while pixelIndex < data.numPixels
      invariant 0 <= pixelIndex <= data.numPixels
      invariant maxEnergy.NegInf? ==>
        clusterPixelIndex == 0 && forall j :: 0 <= j < pixelIndex ==> !data.pixelOn[j]
      invariant !maxEnergy.NegInf? ==>
        && clusterPixelIndex < pixelIndex && data.pixelOn[clusterPixelIndex]
        && maxEnergy == Finite(data.energy[clusterPixelIndex])
        && (forall j :: 0 <= j < pixelIndex && data.pixelOn[j] ==> data.energy[j] <= data.energy[clusterPixelIndex])
        && (forall j :: 0 <= j < clusterPixelIndex && data.pixelOn[j] ==> data.energy[j] < data.energy[clusterPixelIndex])
    {
      if data.pixelOn[pixelIndex] {
        if Below(maxEnergy, data.energy[pixelIndex]) {
          maxEnergy := Finite(data.energy[pixelIndex]);
          clusterPixelIndex := pixelIndex;
        }
      }
      pixelIndex := pixelIndex + 1;
    }
  }

  /** The first off pixel of least energy, or 0 when every pixel is on. */
  method GetLargestVoid(data: STBNData) returns (voidPixelIndex: nat)
    requires data.Valid()
    ensures VoidAnswer(data.energy, data.pixelOn, voidPixelIndex)
    ensures AnyOff(data.pixelOn) ==> IsFirstLargestVoid(data.energy, data.pixelOn, voidPixelIndex)
  {
    voidPixelIndex := 0;
    var minEnergy := PosInf;
    var pixelIndex := 0;
    while pixelIndex < data.numPixels
      invariant 0 <= pixelIndex <= data.numPixels
      invariant minEnergy.PosInf? ==>
        voidPixelIndex == 0 && forall j :: 0 <= j < pixelIndex ==> data.pixelOn[j]
      invariant !minEnergy.PosInf? ==>
        && voidPixelIndex < pixelIndex && !data.pixelOn[voidPixelIndex]
        && minEnergy == Finite(data.energy[voidPixelIndex])
        && (forall j :: 0 <= j < pixelIndex && !data.pixelOn[j] ==> data.energy[voidPixelIndex] <= data.energy[j])
        && (forall j :: 0 <= j < voidPixelIndex && !data.pixelOn[j] ==> data.energy[voidPixelIndex] < data.energy[j])
    {
      if !data.pixelOn[pixelIndex] {
        if Above(minEnergy, data.energy[pixelIndex]) {
          minEnergy := Finite(data.energy[pixelIndex]);
          voidPixelIndex := pixelIndex;
        }
      }
      pixelIndex := pixelIndex + 1;
    }
  }

  /** Adds (on) or subtracts (off) `kernel[|o|]` at each wrapped offset along one axis. */
  method Splat1DReference(data: STBNData, on: bool, pixelCoords: PixelCoords, dimension: nat, kernel: SymmetricKernel)
    requires data.Valid() && SplatOk1D(data.dimensions, pixelCoords, dimension, kernel)
    modifies data`energy
    ensures data.Valid()
    ensures data.energy == Apply(old(data.energy), Updates1D(data.dimensions, pixelCoords, dimension, kernel, on))
  {
    ghost var e0 := data.energy;
    var dimensions := data.dimensions;
    var energy := data.energy;
    var coords := pixelCoords;
    var dims := data.dimensions.Get(dimension);
    var iz := kernel.start;
    while iz <= kernel.end
      invariant kernel.start <= iz <= kernel.end + 1
      invariant energy == Apply(e0, Updates1DUpTo(dimensions, pixelCoords, dimension, kernel, on, iz))
      invariant forall a :: 0 <= a < 4 && a != dimension ==> coords.Get(a) == pixelCoords.Get(a)
    {
      var pixelZ := (pixelCoords.Get(dimension) + dims + iz) % dims;
      ghost var prevCoords := coords;
      coords := coords.Set(dimension, pixelZ);
      var pixelIndex := PixelCoordsToPixelIndex(coords, dimensions);
      Splat1DLoopStep(e0, energy, dimensions, pixelCoords, dimension, kernel, on, iz, prevCoords, pixelIndex);
      ghost var next := Apply(e0, Updates1DUpTo(dimensions, pixelCoords, dimension, kernel, on, iz + 1));
      if on {
        AddedOn(next, energy, pixelIndex, kernel.kernel[Abs(iz)]);
        energy := energy[pixelIndex := energy[pixelIndex] + kernel.kernel[Abs(iz)]];
      } else {
        SubtractedOff(next, energy, pixelIndex, kernel.kernel[Abs(iz)]);
        energy := energy[pixelIndex := energy[pixelIndex] - kernel.kernel[Abs(iz)]];
      }
      iz := iz + 1;
    }
    data.energy := energy;
  }

  method SplatOn1D(data: STBNData, pixelCoords: PixelCoords, dimension: nat, kernel: SymmetricKernel)
    requires data.Valid() && SplatOk1D(data.dimensions, pixelCoords, dimension, kernel)
    modifies data`energy
    ensures data.Valid()
    ensures data.energy == Apply(old(data.energy), Updates1D(data.dimensions, pixelCoords, dimension, kernel, true))
  {
    Splat1DReference(data, true, pixelCoords, dimension, kernel);
  }

  /** Subtracts exactly what `SplatOn1D` adds. */
  method SplatOff1D(data: STBNData, pixelCoords: PixelCoords, dimension: nat, kernel: SymmetricKernel)
    requires data.Valid() && SplatOk1D(data.dimensions, pixelCoords, dimension, kernel)
    modifies data`energy
    ensures data.Valid()
    ensures data.energy == Apply(old(data.energy), Updates1D(data.dimensions, pixelCoords, dimension, kernel, false))
    ensures data.energy
         == Apply(old(data.energy), Negated(Updates1D(data.dimensions, pixelCoords, dimension, kernel, true)))
  {
    Splat1DReference(data, false, pixelCoords, dimension, kernel);
    Updates1DOffIsNegated(data.dimensions, pixelCoords, dimension, kernel);
  }

  /**
   * For each outer offset (outer axis coordinate kept in `newPixelCoords`), every
   * inner offset: adds (on) or subtracts (off) `inner[|ox|] * outer[|oy|]`.
   */
  method Splat2DReference(data: STBNData, on: bool, pixelCoords: PixelCoords,
                          outerDimensionIndex: nat, outerKernel: SymmetricKernel,
                          innerDimensionIndex: nat, innerKernel: SymmetricKernel)
    requires data.Valid()
    requires SplatOk2D(data.dimensions, pixelCoords, outerDimensionIndex, outerKernel, innerDimensionIndex, innerKernel)
    modifies data`energy
    ensures data.Valid()
    ensures data.energy == Apply(old(data.energy), Updates2D(data.dimensions, pixelCoords, outerDimensionIndex,
                                                             outerKernel, innerDimensionIndex, innerKernel, on))
  {
    ghost var e0 := data.energy;
    var dimensions := data.dimensions;
    var energy := data.energy;
    var newPixelCoords := pixelCoords;
    var outerDimensionSize := dimensions.Get(outerDimensionIndex);
    var iy := outerKernel.start;
    while iy <= outerKernel.end
      invariant outerKernel.start <= iy <= outerKernel.end + 1
      invariant energy == Apply(e0, Updates2DUpTo(dimensions, pixelCoords, outerDimensionIndex, outerKernel,
                                                  innerDimensionIndex, innerKernel, on, iy))
      invariant forall a :: 0 <= a < 4 && a != outerDimensionIndex && a != innerDimensionIndex ==>
        newPixelCoords.Get(a) == pixelCoords.Get(a)
    {
      var kernelY := outerKernel.kernel[Abs(iy)];
      var pixelY := (pixelCoords.Get(outerDimensionIndex) + iy + outerDimensionSize) % outerDimensionSize;
      newPixelCoords := newPixelCoords.Set(outerDimensionIndex, pixelY);
      ghost var done := Updates2DUpTo(dimensions, pixelCoords, outerDimensionIndex, outerKernel,
                                      innerDimensionIndex, innerKernel, on, iy);
      energy, newPixelCoords := Splat2DRow(e0, done, dimensions, pixelCoords, outerDimensionIndex, outerKernel,
                                           innerDimensionIndex, innerKernel, on, iy, kernelY, pixelY,
                                           energy, newPixelCoords);
      Splat2DRowDone(dimensions, pixelCoords, outerDimensionIndex, outerKernel, innerDimensionIndex, innerKernel, on, iy);
      iy := iy + 1;
    }
    data.energy := energy;
  }

  /** The inner loop of `Splat2DReference`: one row of the 2D splat at outer offset `iy`. */
  method Splat2DRow(ghost e0: seq<real>, ghost done: seq<Update>, dimensions: Dimensions, pixelCoords: PixelCoords,
                    outerDimensionIndex: nat, outerKernel: SymmetricKernel,
                    innerDimensionIndex: nat, innerKernel: SymmetricKernel, on: bool,
                    iy: int, kernelY: real, pixelY: nat, energy0: seq<real>, coords0: PixelCoords)
    returns (energy: seq<real>, newPixelCoords: PixelCoords)
    requires SplatOk2D(dimensions, pixelCoords, outerDimensionIndex, outerKernel, innerDimensionIndex, innerKernel)
    requires |e0| == dimensions.NumPixels() && energy0 == Apply(e0, done)
    requires outerKernel.start <= iy <= outerKernel.end && kernelY == outerKernel.kernel[Abs(iy)]
    requires pixelY == (pixelCoords.Get(outerDimensionIndex) + iy + dimensions.Get(outerDimensionIndex))
                       % dimensions.Get(outerDimensionIndex)
    requires forall a :: 0 <= a < 4 && a != outerDimensionIndex && a != innerDimensionIndex ==>
      coords0.Get(a) == pixelCoords.Get(a)
    requires outerDimensionIndex != innerDimensionIndex ==> coords0.Get(outerDimensionIndex) == pixelY
    ensures energy == Apply(e0, done + Row2DUpTo(dimensions, pixelCoords, outerDimensionIndex, outerKernel,
                                                 innerDimensionIndex, innerKernel, on, iy, innerKernel.end + 1))
    ensures forall a :: 0 <= a < 4 && a != outerDimensionIndex && a != innerDimensionIndex ==>
      newPixelCoords.Get(a) == pixelCoords.Get(a)
  {
    energy := energy0;
    newPixelCoords := coords0;
    var innerDimensionSize := dimensions.Get(innerDimensionIndex);
    assert done + Row2DUpTo(dimensions, pixelCoords, outerDimensionIndex, outerKernel,
                            innerDimensionIndex, innerKernel, on, iy, innerKernel.start) == done;
    var ix := innerKernel.start;
    while ix <= innerKernel.end
      invariant innerKernel.start <= ix <= innerKernel.end + 1
      invariant energy == Apply(e0, done + Row2DUpTo(dimensions, pixelCoords, outerDimensionIndex, outerKernel,
                                                     innerDimensionIndex, innerKernel, on, iy, ix))
      invariant forall a :: 0 <= a < 4 && a != outerDimensionIndex && a != innerDimensionIndex ==>
        newPixelCoords.Get(a) == pixelCoords.Get(a)
      invariant outerDimensionIndex != innerDimensionIndex ==> newPixelCoords.Get(outerDimensionIndex) == pixelY
    {
      var kernelX := innerKernel.kernel[Abs(ix)];
      var pixelX := (pixelCoords.Get(innerDimensionIndex) + ix + innerDimensionSize) % innerDimensionSize;
      ghost var prevCoords := newPixelCoords;
      newPixelCoords := newPixelCoords.Set(innerDimensionIndex, pixelX);
      var pixelIndex := PixelCoordsToPixelIndex(newPixelCoords, dimensions);
      Splat2DLoopStep(e0, energy, done, dimensions, pixelCoords, outerDimensionIndex, outerKernel,
                      innerDimensionIndex, innerKernel, on, iy, ix, prevCoords, pixelY, kernelX, kernelY, pixelIndex);
      ghost var next := Apply(e0, done + Row2DUpTo(dimensions, pixelCoords, outerDimensionIndex, outerKernel,
                                                   innerDimensionIndex, innerKernel, on, iy, ix + 1));
      if on {
        AddedOn(next, energy, pixelIndex, kernelX * kernelY);
        energy := energy[pixelIndex := energy[pixelIndex] + kernelX * kernelY];
      } else {
        SubtractedOff(next, energy, pixelIndex, kernelX * kernelY);
        energy := energy[pixelIndex := energy[pixelIndex] - kernelX * kernelY];
      }
      ix := ix + 1;
    }
  }

  method SplatOn2D(data: STBNData, pixelCoords: PixelCoords, outerDimension: nat, outerKernel: SymmetricKernel,
                   innerDimension: nat, innerKernel: SymmetricKernel)
    requires data.Valid()
    requires SplatOk2D(data.dimensions, pixelCoords, outerDimension, outerKernel, innerDimension, innerKernel)
    modifies data`energy
    ensures data.Valid()
    ensures data.energy == Apply(old(data.energy), Updates2D(data.dimensions, pixelCoords, outerDimension,
                                                             outerKernel, innerDimension, innerKernel, true))
  {
    Splat2DReference(data, true, pixelCoords, outerDimension, outerKernel, innerDimension, innerKernel);
  }

  /** Subtracts exactly what `SplatOn2D` adds. */
  method SplatOff2D(data: STBNData, pixelCoords: PixelCoords, outerDimension: nat, outerKernel: SymmetricKernel,
                    innerDimension: nat, innerKernel: SymmetricKernel)
    requires data.Valid()
    requires SplatOk2D(data.dimensions, pixelCoords, outerDimension, outerKernel, innerDimension, innerKernel)
    modifies data`energy
    ensures data.Valid()
    ensures data.energy == Apply(old(data.energy), Updates2D(data.dimensions, pixelCoords, outerDimension,
                                                             outerKernel, innerDimension, innerKernel, false))
    ensures data.energy == Apply(old(data.energy), Negated(Updates2D(data.dimensions, pixelCoords, outerDimension,
                                                                     outerKernel, innerDimension, innerKernel, true)))
  {
    Splat2DReference(data, false, pixelCoords, outerDimension, outerKernel, innerDimension, innerKernel);
    Updates2DOffIsNegated(data.dimensions, pixelCoords, outerDimension, outerKernel, innerDimension, innerKernel);
  }

  method SetPixelOn(data: STBNData, pixelIndex: nat, value: bool)
    requires data.Valid() && pixelIndex < data.numPixels
    modifies data`pixelOn
    ensures data.Valid() && data.pixelOn == old(data.pixelOn)[pixelIndex := value]
  {
    data.pixelOn := data.pixelOn[pixelIndex := value];
  }

  method SetPixelRank(data: STBNData, pixelIndex: nat, rank: nat)
    requires data.Valid() && pixelIndex < data.numPixels
    modifies data`pixelRank
    ensures data.Valid() && data.pixelRank == old(data.pixelRank)[pixelIndex := rank]
  {
    data.pixelRank := data.pixelRank[pixelIndex := rank];
  }

  method SetAllEnergyToZero(data: STBNData)
    requires data.Valid()
    modifies data`energy
    ensures data.Valid() && data.energy == seq(data.numPixels, _ => 0.0)
  {
    data.energy := seq(data.numPixels, _ => 0.0);
  }

  method InvertPixelOn(data: STBNData, pixelIndex: nat)
    requires data.Valid() && pixelIndex < data.numPixels
    modifies data`pixelOn
    ensures data.Valid() && data.pixelOn == old(data.pixelOn)[pixelIndex := !old(data.pixelOn)[pixelIndex]]
  {
    data.pixelOn := data.pixelOn[pixelIndex := !data.pixelOn[pixelIndex]];
  }
}
