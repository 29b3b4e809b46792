// STBNMaker: builds one blue-noise Gaussian kernel per axis, the grid, the
// chosen controller and the void-and-cluster driver over them; `Make` runs the
// stages in their fixed order and `GetBlueNoiseTextures` exports the ranks.
module Maker {
  import opened Dims
  import opened Kernel
  import opened Data
  import opened Composite
  import opened SliceCacheControllers
  import opened Controller
  import opened VoidAndCluster
  import opened Ranks
  import Textures

  /**
   * The Gaussian table of one axis and the radius the axis's sigma asks for:
   * the inputs `BlueNoiseGaussianKernel` derives from sigma with `exp` and `sqrt`.
   */
  datatype AxisGaussian = AxisGaussian(weights: seq<real>, baseRadius: nat)

  /** The table reaches the kernel's radius on an axis of extent `width`, and its weights are positive. */
  predicate GaussianFits(a: AxisGaussian, width: nat)
  {
    |a.weights| > KernelRadius(a.baseRadius, width) && forall i :: 0 <= i < |a.weights| ==> a.weights[i] > 0.0
  }

  /** The group numbers of the exported textures: x and y together, then z, then w. */
  const TextureGroups: seq<Textures.Int32> := [0, 0, 1, 2]

  /** The exported textures keep two pixels interacting when they share xy, or z, or w. */
  lemma TextureGroupMasks()
    ensures Textures.GroupSet(TextureGroups) == {0, 1, 2}
    ensures Textures.MaskSet(TextureGroups, 4) == {12, 11, 7}
  {
    assert TextureGroups[0] == 0 && TextureGroups[2] == 1 && TextureGroups[3] == 2;
    assert Textures.GroupSet(TextureGroups) == {0, 1, 2};
  }

  /** The kernel of one axis: fitted to the axis's extent, with positive weights. */
  method AxisKernel(g: AxisGaussian, width: nat) returns (k: SymmetricKernel)
    requires width >= 1 && GaussianFits(g, width)
    ensures FitsAxis(k, width) && NonNegative(k) && k.max == KernelRadius(g.baseRadius, width)
  {
    k := BlueNoiseGaussianKernel(g.weights, g.baseRadius, width);
  }

  /** Whatever order the groups are visited in, the exported textures get the masks 12, 11 and 7. */
  lemma TextureMasks(masks: seq<bv32>)
    requires exists order :: Textures.IsListing(order, Textures.GroupSet(TextureGroups))
               && masks == [] + Textures.MasksFor(TextureGroups, order, 4)
    ensures |masks| == 3 && (set k | 0 <= k < 3 :: masks[k]) == {12, 11, 7}
  {
    var order :| Textures.IsListing(order, Textures.GroupSet(TextureGroups))
                 && masks == [] + Textures.MasksFor(TextureGroups, order, 4);
    assert masks == Textures.MasksFor(TextureGroups, order, 4);
    Textures.ListedMasks(TextureGroups, order, 4);
    TextureGroupMasks();
    var groupSet: set<Textures.Int32> := {0, 1, 2};
    assert |groupSet| == 3;
    Textures.ListingSize(order, Textures.GroupSet(TextureGroups));
    assert |order| == 3;
  }

  /** The pixel loop of `GetBlueNoiseTextures`: pixel `i` becomes on, with rank `ranks[i]` and zero energy. */
  method CopyRanks(textures: Textures.BlueNoiseTexturesND, ranks: seq<nat>)
    requires |textures.pixels| == |ranks|
    modifies textures`pixels
    ensures |textures.pixels| == |ranks|
    ensures forall i :: 0 <= i < |ranks| ==> textures.pixels[i] == Textures.Pixel(true, ranks[i], 0.0)
  {
    var pixelIndex := 0;
    while pixelIndex < |ranks|
      invariant 0 <= pixelIndex <= |ranks| && |textures.pixels| == |ranks|
      invariant forall i :: 0 <= i < pixelIndex ==> textures.pixels[i] == Textures.Pixel(true, ranks[i], 0.0)
    {
      textures.pixels := textures.pixels[pixelIndex := Textures.Pixel(true, ranks[pixelIndex], 0.0)];
      pixelIndex := pixelIndex + 1;
    }
  }

  class STBNMaker {
    const numPixels: nat
    const kernelX: SymmetricKernel
    const kernelY: SymmetricKernel
    const kernelZ: SymmetricKernel
    const kernelW: SymmetricKernel
    const data: STBNData
    const updater: VCController
    const vc: VoidAndCluster
    const sigmas: SigmaPerDimension
    const initialBinaryPatternDensity: real

    /** The driver runs the controller over this maker's grid, with this maker's kernels and density. */
    ghost predicate Valid()
      reads this, updater.Repr()
    {
      vc.updater == updater && vc.Valid() && vc.data == data && vc.numPixels == numPixels
      && vc.initialBinaryPatternDensity == initialBinaryPatternDensity
      && updater.kernelX == kernelX && updater.kernelY == kernelY
      && updater.kernelZ == kernelZ && updater.kernelW == kernelW
    }

    constructor (dims: Dimensions, sigmas: SigmaPerDimension, initialBinaryPatternDensity: real,
                 scalarImplementation: ScalarImplementation,
                 gx: AxisGaussian, gy: AxisGaussian, gz: AxisGaussian, gw: AxisGaussian)
      requires dims.Valid()
      requires GaussianFits(gx, dims.x) && GaussianFits(gy, dims.y) && GaussianFits(gz, dims.z) && GaussianFits(gw, dims.w)
      requires scalarImplementation.IsSliceCache() ==> dims.w <= dims.y
      ensures Valid() && fresh(vc) && fresh(updater) && fresh(data)
      ensures numPixels == dims.x * dims.y * dims.z * dims.w && data.dimensions == dims
      ensures this.sigmas == sigmas && this.initialBinaryPatternDensity == initialBinaryPatternDensity
      ensures updater.implementation == scalarImplementation
      ensures KernelsFit(dims, kernelX, kernelY, kernelZ, kernelW)
      ensures kernelX.max == KernelRadius(gx.baseRadius, dims.x) && kernelY.max == KernelRadius(gy.baseRadius, dims.y)
      ensures kernelZ.max == KernelRadius(gz.baseRadius, dims.z) && kernelW.max == KernelRadius(gw.baseRadius, dims.w)
      ensures data.energy == seq(numPixels, _ => 0.0) && data.pixelOn == seq(numPixels, _ => false)
      ensures data.pixelRank == seq(numPixels, _ => numPixels)
      ensures vc.pd == InitialProgress
    {
      var kx := AxisKernel(gx, dims.x);
      var ky := AxisKernel(gy, dims.y);
      var kz := AxisKernel(gz, dims.z);
      var kw := AxisKernel(gw, dims.w);
      var d := new STBNData(dims);
      var u := new VCController(scalarImplementation, d, kx, ky, kz, kw);
      var v := new VoidAndCluster(initialBinaryPatternDensity, u);
      numPixels := dims.x * dims.y * dims.z * dims.w;
      kernelX, kernelY, kernelZ, kernelW := kx, ky, kz, kw;
      data := d;
      updater := u;
      vc := v;
      this.sigmas := sigmas;
      this.initialBinaryPatternDensity := initialBinaryPatternDensity;
    }

    /**
     * Seeds white noise from the generator's `draws`, reorganises it into
     * blue noise (at most `fuel` swaps), then ranks every pixel in phases 1
     * to 3: the ranks end as a permutation of 0 .. numPixels - 1.
     */
    method Make(draws: seq<nat>, fuel: nat)
      requires Valid() && |draws| == WhiteNoiseTargetCount(numPixels, initialBinaryPatternDensity)
      requires forall k :: 0 <= k < |draws| ==> draws[k] < DrawBound(numPixels)
      requires forall i :: 0 <= i < numPixels ==> data.pixelRank[i] >= numPixels
      modifies vc`pd, data`pixelOn, data`pixelRank, data`energy, updater.Caches()
      ensures Valid() && IsPermutation(data.pixelRank, numPixels)
    {
      vc.InitializeToWhiteNoise(draws);
      ghost var trace, clusters, voids := vc.ReorganizeToBlueNoise(fuel);
      vc.Phase1();
      ghost var trace2, added := vc.Phase2();
      vc.Phase3();
    }

    /**
     * The ranks as textures of extents x, y, z and 1, every pixel on with
     * zero energy; `emitRadii` are the emit radii the four sigmas give.
     * The pixel loop runs over all numPixels pixels, so w must be 1.
     */
    method GetBlueNoiseTextures(emitRadii: seq<nat>) returns (textures: Textures.BlueNoiseTexturesND)
      requires Valid() && data.dimensions.w == 1 && |emitRadii| == 4
      ensures fresh(textures)
      ensures textures.dims == [data.dimensions.x, data.dimensions.y, data.dimensions.z, 1]
      ensures textures.sigmas == [sigmas.x, sigmas.y, sigmas.z, 1.0]
      ensures |textures.pixels| == numPixels
      ensures forall i :: 0 <= i < numPixels ==> textures.pixels[i] == Textures.Pixel(true, data.pixelRank[i], 0.0)
      ensures |textures.masks| == 3 && (set k | 0 <= k < 3 :: textures.masks[k]) == {12, 11, 7}
      ensures |textures.energyEmitMin| == 4 && |textures.energyEmitMax| == 4
      ensures forall i :: 0 <= i < 4 ==>
                Textures.EmitRange(textures.energyEmitMin[i], textures.energyEmitMax[i])
                == Textures.EmitRangeFor(emitRadii[i], textures.dims[i])
    {
      textures := new Textures.BlueNoiseTexturesND();
      var dims: seq<int> := [data.dimensions.x, data.dimensions.y, data.dimensions.z, 1];
      assert Textures.AllNonNegative(dims);
      textures.Init(dims, [sigmas.x, sigmas.y, sigmas.z, 1.0], TextureGroups, emitRadii);
      assert Textures.EffectiveGroups(TextureGroups, 4) == TextureGroups;
      TextureMasks(textures.masks);
      Textures.ProductOfFour(data.dimensions.x, data.dimensions.y, data.dimensions.z, 1);
      CopyRanks(textures, data.pixelRank);
    }
  }
}
