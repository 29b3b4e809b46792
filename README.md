# Scalar spatiotemporal blue noise: the void-and-cluster core

This project models the scalar engine of the spatiotemporal blue noise
generator: the code that turns a four-dimensional grid of pixels
(x, y, z, w) into a ranking of every pixel. Slices 2Dx1Dx1D or 2Dx2D come
out blue in the slice axes and in time.

## The pipeline

`STBNMaker` does four things:
- builds one blue-noise Gaussian kernel per axis;
- builds the `STBNData` grid, which holds energy, on-flags and ranks;
- builds the controller the caller asked for;
- builds the `VoidAndCluster` driver.

`Make` then runs the driver's stages in order:
1. `InitializeToWhiteNoise`: seeds a white-noise pattern.
2. `ReorganizeToBlueNoise`: repeatedly turns off the tightest cluster and turns on the largest void.
3. Phase 1: ranks the initial pattern by removal.
4. Phase 2: ranks by insertion up to half the pixels.
5. Phase 3: inverts the pattern and ranks the rest.

`GetBlueNoiseTextures` exports the ranks as an N-dimensional texture (`BlueNoiseTexturesND`).

## Strategies

Energy updates and cluster/void searches go through a controller. There are two strategies:
- The reference strategy scans every pixel. It splats the kernels with wrap-around along the blue axes.
- The slice cache strategy lazily keeps, per xy-slice, the largest "on" energy and the smallest "off" energy, each with a dirty flag.

The model proves:
- Both strategies apply the same ordered list of energy updates to the grid. This is the reading of "the implementations agree bit for bit".
- The slice cache answers are true maxima and minima.
- Every seed, reorganisation and ranking phase keeps the ranks distinct.
- Every step of the reorganisation, of phases 1 and 2 and of the ranking part of phase 3 picks a tightest cluster or a largest void of the grid it sees. Each of these returns a ghost trace of its grids, the chosen pixels and, in the phases, the rank each received.
- At the end the ranks are a permutation of 0 .. numPixels - 1.

## How the model represents the source

- Energies are `real`.
- The float sentinels ±FLT_MAX of the cache are `Bound = NegInf | Finite(v) | PosInf`.
- A rank below `numPixels` means "ranked"; the value `numPixels` is the unranked marker that `STBNData` starts with.
- A splat is described by the list of `Update(index, delta)` it performs, and `Apply` performs it.
- The random engine is a parameter `draws`: the white-noise indices the generator would return.
- The controller and implementation interfaces become one class per concrete controller, plus a dispatcher class `VCController`. That dispatcher holds the implementation tag and exactly one controller, as the switch in `STBNMaker` does.

## Model

Plain definitions that carry no contract of their own (`NumPixels`, the coordinate encoders and decoders, `XYSlice`, `DataEqual`, the splat update lists, `SplatUpdates`, `GroupMask`, `EmitRangeFor`, `IndexOf` and `Digits`) are specified by the lemmas whose rows start with the definition's name.

| member | source | states |
|---|---|---|
| Dims.SigmasEqual | Libraries/Scalar/STBNData.cpp:3-6 | `operator==` on sigmas is true exactly when all four components are equal |
| Dims.NumPixelsPositive | Libraries/Scalar/STBNData.cpp:8-15 | `NumPixels`: a valid grid has at least one pixel, and its count factors as (x·y)·(z·w), the slice size times the slice count |
| Dims3D.Dimensions3D.NumPixels | Libraries/Vector/Utils/Dimensions3D.cpp:20-23 | the 3D pixel count is zero exactly when an extent is zero, and otherwise bounds every extent |
| Dims3D.DimsEqual | Libraries/Vector/Utils/Dimensions3D.cpp:13-18 | the component-wise comparison holds exactly when the dimensions are equal |
| Dims3D.DimsEqualProperties | Libraries/Vector/Utils/Dimensions3D.cpp:13-18 | the comparison is reflexive and symmetric, and equal dimensions have equal pixel counts |
| STBNMath.Clamp | Libraries/Shared/STBNMath.h:8-17 | the minimum when value ≤ minimum, the value strictly inside, and the maximum otherwise |
| STBNMath.ClampInRange | Libraries/Shared/STBNMath.h:8-17 | with ordered bounds the result lies within them, and it equals the value exactly when the value is within them |
| STBNMath.ClampReversedBounds | Libraries/Shared/STBNMath.h:11-14 | for any bounds the lower-bound test comes first: the minimum when value ≤ minimum, else the maximum when that is not above the value |
| STBNMath.ClampIdempotent | Libraries/Shared/STBNMath.h:8-17 | clamping twice equals clamping once |
| Kernel.NewSymmetricKernel | Libraries/Shared/Kernel/SymmetricKernel.cpp:5-12 | keeps the data. The default mode spans -(n-1) .. n-1. Even mode spans 2n-2 offsets ending at n-1. A single entry spans 0..0. max == end exactly when the data is non-empty or even. Every offset is indexable exactly when the data is non-empty or the mode is not even |
| Kernel.Weight | Libraries/Scalar/VoidAndCluster/Reference/ReferenceFuncs.cpp:73-75 | the splat weight at an offset is never negative for a non-negative kernel, and a non-zero weight is the table entry at \|offset\| |
| Kernel.ConstantKernel | Libraries/Shared/Kernel/ConstantKernel.cpp:3-7 | radius+1 copies of the value, end and max equal to the radius, start -radius; in even mode start 1-radius, or 0 when the radius is 0 |
| Kernel.KernelRadius | Libraries/Shared/Kernel/BlueNoiseGaussianKernel.cpp:27-31 | the radius is the smaller of the sigma radius and max(1, width/2) |
| Kernel.ShouldUseEvenKernelWidth | Libraries/Shared/Kernel/BlueNoiseGaussianKernel.cpp:33-40 | on an axis of width ≥ 2 the even-width shape is chosen exactly when the width is even and the radius was clamped to half of it; on a width-1 axis exactly when the radius is at least 1; always on a width-0 axis |
| Kernel.GaussianShapeFitsAxis | Libraries/Shared/Kernel/BlueNoiseGaussianKernel.cpp:33-40 | the chosen shape (even when 2r+1 exceeds the width) has every offset indexable. It spans at most the axis width, except a width-1 axis with radius ≥ 1, which spans 0..1 |
| Kernel.BlueNoiseGaussianKernel | Libraries/Shared/Kernel/BlueNoiseGaussianKernel.cpp:40-51 | centre set to 1, then every entry divided by the off-centre sum (off-centre weights sum to 1). A radius-0 kernel is [1]. All entries are positive, and the kernel fits its axis |
| Kernel.NormalizeByOffCentreSum | Libraries/Shared/Kernel/BlueNoiseGaussianKernel.cpp:43-50 | on an array: the off-centre sum is positive, each entry becomes old/sum, and the new off-centre entries sum to 1 |
| Kernel.SumDivided | Libraries/Shared/Kernel/BlueNoiseGaussianKernel.cpp:45-49 | dividing every entry by a non-zero total makes the entries sum to 1 |
| Kernel.ConstantKernelExample | Libraries/Shared/Kernel/ConstantKernel.cpp:3-7 | the constant kernel of value 2 and radius 1 is [2,2] over -1..1 |
| Data.STBNData.constructor | Libraries/Scalar/STBNData.cpp:8-15 | numPixels = x·y·z·w, energy all 0, every pixel off, every rank the unranked marker numPixels |
| Data.FreshStatesAreEqual | Libraries/Scalar/STBNData.cpp:17-24 | `DataEqual`: two separately built grids of the same dimensions compare equal field by field |
| Data.Count | Libraries/Scalar/VoidAndCluster/Reference/ReferenceFuncs.cpp:10-19 | the on-count never exceeds the pixel count |
| Data.CountPositive | Libraries/Scalar/VoidAndCluster/Reference/ReferenceFuncs.cpp:10-19 | the on-count is positive exactly when some pixel is on |
| Data.CountBelowLength | Libraries/Scalar/VoidAndCluster/Reference/ReferenceFuncs.cpp:10-19 | the on-count is below the pixel count exactly when some pixel is off |
| Data.CountUpdate | Libraries/Scalar/VoidAndCluster/Reference/ReferenceFuncs.cpp:125-128 | setting one flag changes the on-count by exactly that flag's change |
| Data.Inverted | Libraries/Scalar/VoidAndCluster/Reference/ReferenceFuncs.cpp:140-143 | the inverted pattern has the same length and every flag negated |
| Data.CountInverted | Libraries/Scalar/VoidAndCluster/VoidAndCluster.cpp:164-169 | inverting every pixel turns an on-count c into numPixels - c |
| Data.CountAllOff | Libraries/Scalar/VoidAndCluster/VoidAndCluster.cpp:179-189 | a pattern with no pixel on has count 0 |
| Data.ClusterAnswersAgree | Libraries/Scalar/VoidAndCluster/Reference/ReferenceFuncs.cpp:21-39 | any two tightest clusters have equal energy, and they are the same pixel when the maximum is unique |
| Data.VoidAnswersAgree | Libraries/Scalar/VoidAndCluster/Reference/ReferenceFuncs.cpp:41-59 | any two largest voids have equal energy, and they are the same pixel when the minimum is unique |
| Coords.PixelCoords.Set | Libraries/Scalar/VoidAndCluster/Reference/ReferenceFuncs.cpp:70-71 | writing one axis of the coordinates sets that axis and leaves the other three unchanged |
| Coords.SameCoords | Libraries/Scalar/Utils/PixelCoords.cpp:5-18 | coordinates that agree on all four axes are equal |
| Coords.SetOverwrites | Libraries/Scalar/VoidAndCluster/Reference/ReferenceFuncs.cpp:66-74 | rewriting the splat axis makes the working coordinate independent of that axis's previous value |
| Coords.SetOverwrites2 | Libraries/Scalar/VoidAndCluster/Reference/ReferenceFuncs.cpp:96-111 | rewriting the outer then the inner axis gives the same coordinate whatever those axes held |
| Coords.IndexDigits | Libraries/Scalar/Utils/PixelCoords.cpp:20-30 | decoding gives x = i mod X, y = (i/X) mod Y, z = (i/X/Y) mod Z and w = (i/X/Y/Z) mod Y (the divisor used for w is y) |
| Coords.DigitY | Libraries/Scalar/Utils/PixelCoords.cpp:25 | decoded y is (i/X) mod Y |
| Coords.DigitZ | Libraries/Scalar/Utils/PixelCoords.cpp:26 | decoded z is (i/X/Y) mod Z |
| Coords.DigitW | Libraries/Scalar/Utils/PixelCoords.cpp:27 | decoded w is (i/X/Y/Z) mod Y, the source's choice of divisor |
| Coords.IndexInSlice | Libraries/Scalar/VoidAndCluster/SliceCache/SliceCacheImpl.cpp:144-147 | `XYSlice`: an in-range pixel's index lies inside the index block of its xy-slice, and that slice exists |
| Coords.CoordsToIndexBound | Libraries/Scalar/Utils/PixelCoords.cpp:5-18 | `PixelCoordsToPixelIndex`: in-range coordinates encode to an index below numPixels |
| Coords.IndexToCoordsInRange | Libraries/Scalar/Utils/PixelCoords.cpp:20-30 | `PixelIndexToPixelCoords`: any index below numPixels decodes to in-range coordinates |
| Coords.TopDigitBound | Libraries/Scalar/Utils/PixelCoords.cpp:20-30 | for an index below numPixels the quotient left after x, y and z is below W |
| Coords.InRangeGivenTopDigit | Libraries/Scalar/Utils/PixelCoords.cpp:20-30 | when that quotient is below W, the decoded coordinates are in range |
| Coords.DecodedWBelow | Libraries/Scalar/Utils/PixelCoords.cpp:27 | when that quotient is below W, the decoded w is below W |
| Coords.DecodedWBelowY | Libraries/Scalar/Utils/PixelCoords.cpp:27 | the decoded w is always below Y, because it is reduced modulo y |
| Coords.DecodedWIsTopDigit | Libraries/Scalar/Utils/PixelCoords.cpp:27 | when that quotient is below Y, the decoded w is the quotient itself |
| Coords.IndexRoundTrip | Libraries/Scalar/Utils/PixelCoords.cpp:5-30 | with W ≤ Y, encoding the decoded coordinates of an index gives the index back |
| Coords.RoundTripGivenTopDigit | Libraries/Scalar/Utils/PixelCoords.cpp:5-30 | the round trip holds for any index whose quotient after x, y and z is below W ≤ Y |
| Coords.CoordsRoundTrip | Libraries/Scalar/Utils/PixelCoords.cpp:5-30 | decoding the encoding of in-range coordinates gives them back exactly when w < Y |
| Coords.SliceOfDecodedIndex | Libraries/Scalar/VoidAndCluster/SliceCache/SliceCacheImpl.cpp:313-319 | with W ≤ Y, the slice of the decoded coordinates of a pixel is the slice whose index block holds the pixel |
| Coords.DecodeQuirkExample | Libraries/Scalar/Utils/PixelCoords.cpp:27 | on a 1×1×1×2 grid, index 1 decodes to the origin, which encodes to 0 |
| Coords.OriginIsIndexZero | Libraries/Scalar/Utils/PixelCoords.cpp:5-30 | index 0 decodes to the origin, and the origin encodes to 0 |
| Coords3D.Digits3D | Libraries/Vector/Utils/PixelCoords3D.cpp:28-37 | `PixelIndexToPixelCoords3D`: 3D decoding gives x = i mod X, y = (i/X) mod Y, z = (i/X/Y) mod Z |
| Coords3D.CoordsToIndexBound3D | Libraries/Vector/Utils/PixelCoords3D.cpp:15-26 | `PixelCoords3DToPixelIndex`: in-range 3D coordinates encode below the pixel count |
| Coords3D.IndexToCoordsInRange3D | Libraries/Vector/Utils/PixelCoords3D.cpp:28-37 | any index below the pixel count decodes in range |
| Coords3D.IndexRoundTrip3D | Libraries/Vector/Utils/PixelCoords3D.cpp:15-37 | encoding the decoded 3D coordinates gives the index back |
| Coords3D.CoordsRoundTrip3D | Libraries/Vector/Utils/PixelCoords3D.cpp:15-37 | decoding the encoding of in-range 3D coordinates gives them back |
| Coords3D.OriginIsIndexZero3D | Libraries/Vector/Utils/PixelCoords3D.cpp:15-37 | index 0 and the 3D origin correspond |
| Splat.Apply | Libraries/Scalar/VoidAndCluster/Reference/ReferenceFuncs.cpp:74 | applying a list of energy updates keeps the grid's length |
| Splat.AddedOn | Libraries/Scalar/VoidAndCluster/Reference/ReferenceFuncs.cpp:73 | the on branch's `+=` is the signed update of an on-splat |
| Splat.SubtractedOff | Libraries/Scalar/VoidAndCluster/Reference/ReferenceFuncs.cpp:75 | the off branch's `-=` is the signed update of an off-splat |
| Splat.Negated | Libraries/Scalar/VoidAndCluster/Reference/ReferenceFuncs.cpp:84-87 | the negated list has the same targets with every delta negated |
| Splat.ApplyAt | Libraries/Scalar/VoidAndCluster/Reference/ReferenceFuncs.cpp:61-77 | after a list of updates, each cell holds its old value plus the sum of the deltas aimed at it |
| Splat.ApplyConcat | Libraries/Scalar/VoidAndCluster/Reference/ReferenceController2Dx1Dx1D.cpp:40-45 | applying a concatenation equals applying the parts one after another |
| Splat.ApplyThenUndo | Libraries/Scalar/VoidAndCluster/Reference/ReferenceFuncs.cpp:79-87 | applying a list and then its negation restores the energy exactly |
| Splat.WrapCoord | Libraries/Scalar/VoidAndCluster/Reference/ReferenceFuncs.cpp:70 | a wrapped coordinate (c + o + width) % width is below the width |
| Splat.WrapIsToroidal | Libraries/Scalar/VoidAndCluster/Reference/ReferenceFuncs.cpp:70 | when c + o + width ≥ 0 the wrap is (c + o) mod width, and an offset that stays inside the axis is not moved |
| Splat.Offset1DInRange | Libraries/Scalar/VoidAndCluster/Reference/ReferenceFuncs.cpp:66-74 | every coordinate visited by a 1D splat is in range and encodes below numPixels |
| Splat.Offset2DInRange | Libraries/Scalar/VoidAndCluster/Reference/ReferenceFuncs.cpp:96-111 | every coordinate visited by a 2D splat is in range and encodes below numPixels |
| Splat.Updates1DAt | Libraries/Scalar/VoidAndCluster/Reference/ReferenceFuncs.cpp:61-77 | `Updates1D`: a 1D splat makes end-start+1 updates. Update t lands on the pixel at offset start+t along the axis, with weight kernel[\|start+t\|], signed by on/off |
| Splat.Updates2DAt | Libraries/Scalar/VoidAndCluster/Reference/ReferenceFuncs.cpp:89-113 | `Updates2D`: a 2D splat makes (outer span)·(inner span) updates in row order. Each lands on offset (oy, ox) with weight outer[\|oy\|]·inner[\|ox\|], signed |
| Splat.Updates1DInBounds | Libraries/Scalar/VoidAndCluster/Reference/ReferenceFuncs.cpp:61-77 | every 1D update targets a pixel of the grid |
| Splat.Updates2DInBounds | Libraries/Scalar/VoidAndCluster/Reference/ReferenceFuncs.cpp:89-113 | every 2D update targets a pixel of the grid |
| Splat.Updates1DOffIsNegated | Libraries/Scalar/VoidAndCluster/Reference/ReferenceFuncs.cpp:79-87 | a 1D off-splat is the negation of the on-splat at the same pixel |
| Splat.Updates2DOffIsNegated | Libraries/Scalar/VoidAndCluster/Reference/ReferenceFuncs.cpp:115-123 | a 2D off-splat is the negation of the on-splat at the same pixel |
| Splat.Splat1DLocal | Libraries/Scalar/VoidAndCluster/Reference/ReferenceFuncs.cpp:61-77 | a cell no offset of the 1D kernel reaches keeps its energy |
| Splat.Splat2DLocal | Libraries/Scalar/VoidAndCluster/Reference/ReferenceFuncs.cpp:89-113 | a cell outside the 2D kernel's neighbourhood keeps its energy |
| Splat.Splat2DWrapExample | Libraries/Scalar/VoidAndCluster/Reference/ReferenceFuncs.cpp:100-108 | on a 5×5 grid, splatting at x = 4 with radius 1 wraps the right neighbour to column 0 |
| Splat.Splat1DWrapExample | Libraries/Scalar/VoidAndCluster/Reference/ReferenceFuncs.cpp:61-77 | an 8-pixel axis splatted at 0 with a constant radius-1 kernel of 2 gives [2,2,0,0,0,0,0,2] |
| Splat.Example1DUpdates | Libraries/Scalar/VoidAndCluster/Reference/ReferenceFuncs.cpp:61-77 | the update list of that splat, in source order: pixels 7, 0, 1 |
| Splat.Example1DApply | Libraries/Scalar/VoidAndCluster/Reference/ReferenceFuncs.cpp:61-77 | applying that list to zero energy gives the wrapped result |
| Composite.KernelsFitGiveSplatOk | Libraries/Scalar/VoidAndCluster/Reference/ReferenceController2Dx1Dx1D.cpp:40-45 | kernels that fit their axes make every composite splat (XY, ZW, Z, W) well-defined at every in-range pixel |
| Composite.SplatOffIsNegated | Libraries/Scalar/VoidAndCluster/Reference/ReferenceController2Dx1Dx1D.cpp:47-52 | `SplatUpdates`: turning a pixel off applies exactly the negated updates of turning it on, for either shape |
| Composite.SplatOnThenOff | Libraries/Scalar/VoidAndCluster/Reference/ReferenceController2Dx1Dx1D.cpp:40-52 | an on-splat followed by the off-splat at the same pixel leaves the energy unchanged |
| Composite.SplatUpdatesInBounds | Libraries/Scalar/VoidAndCluster/Reference/ReferenceController2Dx2D.cpp:40-50 | every composite update targets a pixel of the grid |
| Ranks.FreshRank | Libraries/Scalar/VoidAndCluster/Reference/ReferenceFuncs.cpp:130-133 | giving an unranked pixel a rank no ranked pixel holds keeps the ranks distinct |
| Ranks.RemovalStarts | Libraries/Scalar/VoidAndCluster/VoidAndCluster.cpp:85-96 | with nothing ranked, the removal invariant holds with all ones remaining |
| Ranks.RemovalStep | Libraries/Scalar/VoidAndCluster/VoidAndCluster.cpp:96-106 | turning off an on pixel and ranking it remaining-1 (the count left) keeps the removal invariant with one fewer remaining |
| Ranks.RemovalDone | Libraries/Scalar/VoidAndCluster/VoidAndCluster.cpp:85-108 | once nothing remains, every pixel is off, and the ranked pixels are exactly the initial ones, with distinct ranks below the initial count |
| Ranks.RestoredIsProgressive | Libraries/Scalar/VoidAndCluster/VoidAndCluster.cpp:110-124 | turning the ranked pixels back on restores the pattern. Its ranks are then 0 .. count-1 on exactly the on pixels |
| Ranks.InsertionStep | Libraries/Scalar/VoidAndCluster/VoidAndCluster.cpp:142-152 | turning on an off pixel with rank = current count keeps ranks progressive and adds one to the count |
| Ranks.InvertedIsComplement | Libraries/Scalar/VoidAndCluster/VoidAndCluster.cpp:157-171 | after inverting a progressive pattern, the ranked pixels are exactly the off ones |
| Ranks.ComplementStep | Libraries/Scalar/VoidAndCluster/VoidAndCluster.cpp:179-189 | ranking an on pixel numPixels - count and turning it off keeps the complement invariant |
| Ranks.ComplementDone | Libraries/Scalar/VoidAndCluster/VoidAndCluster.cpp:173-192 | when no pixel is on, the ranks are a permutation of 0 .. numPixels-1 |
| ReferenceFuncs.GetPixelOnCount | Libraries/Scalar/VoidAndCluster/Reference/ReferenceFuncs.cpp:10-19 | the loop returns the number of on pixels |
| ReferenceFuncs.GetTightestCluster | Libraries/Scalar/VoidAndCluster/Reference/ReferenceFuncs.cpp:21-39 | returns an on pixel of maximal energy, the first such (ties keep the earlier index), or 0 when none is on |
| ReferenceFuncs.GetLargestVoid | Libraries/Scalar/VoidAndCluster/Reference/ReferenceFuncs.cpp:41-59 | returns an off pixel of minimal energy, the first such, or 0 when none is off |
| ReferenceFuncs.Splat1DReference | Libraries/Scalar/VoidAndCluster/Reference/ReferenceFuncs.cpp:61-77 | the energy becomes the old energy with the 1D update list applied in loop order |
| ReferenceFuncs.SplatOn1D | Libraries/Scalar/VoidAndCluster/Reference/ReferenceFuncs.cpp:79-82 | applies the positive 1D updates |
| ReferenceFuncs.SplatOff1D | Libraries/Scalar/VoidAndCluster/Reference/ReferenceFuncs.cpp:84-87 | applies the negative 1D updates, which are the negation of the on-splat |
| ReferenceFuncs.Splat2DReference | Libraries/Scalar/VoidAndCluster/Reference/ReferenceFuncs.cpp:89-113 | the energy becomes the old energy with the 2D update list applied row by row |
| ReferenceFuncs.Splat2DRow | Libraries/Scalar/VoidAndCluster/Reference/ReferenceFuncs.cpp:100-111 | one inner row applies that row's updates after those already done, leaving the other axes untouched |
| ReferenceFuncs.SplatOn2D | Libraries/Scalar/VoidAndCluster/Reference/ReferenceFuncs.cpp:115-118 | applies the positive 2D updates |
| ReferenceFuncs.SplatOff2D | Libraries/Scalar/VoidAndCluster/Reference/ReferenceFuncs.cpp:120-123 | applies the negative 2D updates, which are the negation of the on-splat |
| ReferenceFuncs.SetPixelOn | Libraries/Scalar/VoidAndCluster/Reference/ReferenceFuncs.cpp:125-128 | only that pixel's flag changes, to the value |
| ReferenceFuncs.SetPixelRank | Libraries/Scalar/VoidAndCluster/Reference/ReferenceFuncs.cpp:130-133 | only that pixel's rank changes, to the rank |
| ReferenceFuncs.SetAllEnergyToZero | Libraries/Scalar/VoidAndCluster/Reference/ReferenceFuncs.cpp:135-138 | every energy becomes 0 |
| ReferenceFuncs.InvertPixelOn | Libraries/Scalar/VoidAndCluster/Reference/ReferenceFuncs.cpp:140-143 | only that pixel's flag flips |
| ReferenceImpl.ReferenceImpl2Dx1Dx1D.constructor | Libraries/Scalar/VoidAndCluster/Reference/ReferenceImpl.cpp:5-9 | the implementation works on the given grid |
| ReferenceImpl.ReferenceImpl2Dx1Dx1D.GetSTBNData | Libraries/Scalar/VoidAndCluster/Reference/ReferenceImpl.cpp:16-19 | returns its grid |
| ReferenceImpl.ReferenceImpl2Dx1Dx1D.GetPixelOnCount | Libraries/Scalar/VoidAndCluster/Reference/ReferenceImpl.cpp:21-24 | the number of on pixels |
| ReferenceImpl.ReferenceImpl2Dx1Dx1D.GetTightestCluster | Libraries/Scalar/VoidAndCluster/Reference/ReferenceImpl.cpp:26-29 | the first on pixel of maximal energy |
| ReferenceImpl.ReferenceImpl2Dx1Dx1D.GetLargestVoid | Libraries/Scalar/VoidAndCluster/Reference/ReferenceImpl.cpp:31-34 | the first off pixel of minimal energy |
| ReferenceImpl.ReferenceImpl2Dx1Dx1D.SplatOnXY | Libraries/Scalar/VoidAndCluster/Reference/ReferenceImpl.cpp:36-39 | applies the 2D updates with y outer and x inner |
| ReferenceImpl.ReferenceImpl2Dx1Dx1D.SplatOnZW | Libraries/Scalar/VoidAndCluster/Reference/ReferenceImpl.cpp:41-44 | applies the 2D updates with w outer and z inner |
| ReferenceImpl.ReferenceImpl2Dx1Dx1D.SplatOnZ | Libraries/Scalar/VoidAndCluster/Reference/ReferenceImpl.cpp:46-49 | applies the 1D updates along z |
| ReferenceImpl.ReferenceImpl2Dx1Dx1D.SplatOnW | Libraries/Scalar/VoidAndCluster/Reference/ReferenceImpl.cpp:51-54 | applies the 1D updates along w |
| ReferenceImpl.ReferenceImpl2Dx1Dx1D.SplatOffXY | Libraries/Scalar/VoidAndCluster/Reference/ReferenceImpl.cpp:56-59 | applies the negative xy updates |
| ReferenceImpl.ReferenceImpl2Dx1Dx1D.SplatOffZW | Libraries/Scalar/VoidAndCluster/Reference/ReferenceImpl.cpp:61-64 | applies the negative zw updates |
| ReferenceImpl.ReferenceImpl2Dx1Dx1D.SplatOffZ | Libraries/Scalar/VoidAndCluster/Reference/ReferenceImpl.cpp:66-69 | applies the negative z updates |
| ReferenceImpl.ReferenceImpl2Dx1Dx1D.SplatOffW | Libraries/Scalar/VoidAndCluster/Reference/ReferenceImpl.cpp:71-74 | applies the negative w updates |
| ReferenceImpl.ReferenceImpl2Dx1Dx1D.SetPixelOn | Libraries/Scalar/VoidAndCluster/Reference/ReferenceImpl.cpp:76-79 | only that flag changes |
| ReferenceImpl.ReferenceImpl2Dx1Dx1D.SetPixelRank | Libraries/Scalar/VoidAndCluster/Reference/ReferenceImpl.cpp:81-84 | only that rank changes |
| ReferenceImpl.ReferenceImpl2Dx1Dx1D.SetAllEnergyToZero | Libraries/Scalar/VoidAndCluster/Reference/ReferenceImpl.cpp:86-89 | every energy becomes 0 |
| ReferenceImpl.ReferenceImpl2Dx1Dx1D.InvertPixelOn | Libraries/Scalar/VoidAndCluster/Reference/ReferenceImpl.cpp:91-94 | only that flag flips |
| ReferenceControllers.ReferenceController2Dx1Dx1D.constructor | Libraries/Scalar/VoidAndCluster/Reference/ReferenceController2Dx1Dx1D.cpp:5-13 | keeps the grid and the four kernels |
| ReferenceControllers.ReferenceController2Dx1Dx1D.GetSTBNData | Libraries/Scalar/VoidAndCluster/Reference/ReferenceController2Dx1Dx1D.cpp:20-23 | returns its grid |
| ReferenceControllers.ReferenceController2Dx1Dx1D.GetPixelOnCount | Libraries/Scalar/VoidAndCluster/Reference/ReferenceController2Dx1Dx1D.cpp:25-28 | the number of on pixels |
| ReferenceControllers.ReferenceController2Dx1Dx1D.GetTightestCluster | Libraries/Scalar/VoidAndCluster/Reference/ReferenceController2Dx1Dx1D.cpp:30-33 | the first on pixel of maximal energy |
| ReferenceControllers.ReferenceController2Dx1Dx1D.GetLargestVoid | Libraries/Scalar/VoidAndCluster/Reference/ReferenceController2Dx1Dx1D.cpp:35-38 | the first off pixel of minimal energy |
| ReferenceControllers.ReferenceController2Dx1Dx1D.SplatOn | Libraries/Scalar/VoidAndCluster/Reference/ReferenceController2Dx1Dx1D.cpp:40-45 | applies the xy, then z, then w updates: the 2Dx1Dx1D composite list |
| ReferenceControllers.ReferenceController2Dx1Dx1D.SplatOff | Libraries/Scalar/VoidAndCluster/Reference/ReferenceController2Dx1Dx1D.cpp:47-52 | applies the negative composite list |
| ReferenceControllers.ReferenceController2Dx1Dx1D.SetPixelOn | Libraries/Scalar/VoidAndCluster/Reference/ReferenceController2Dx1Dx1D.cpp:54-57 | only that flag changes |
| ReferenceControllers.ReferenceController2Dx1Dx1D.SetPixelRank | Libraries/Scalar/VoidAndCluster/Reference/ReferenceController2Dx1Dx1D.cpp:59-62 | only that rank changes |
| ReferenceControllers.ReferenceController2Dx1Dx1D.SetAllEnergyToZero | Libraries/Scalar/VoidAndCluster/Reference/ReferenceController2Dx1Dx1D.cpp:64-67 | every energy becomes 0 |
| ReferenceControllers.ReferenceController2Dx1Dx1D.InvertPixelOn | Libraries/Scalar/VoidAndCluster/Reference/ReferenceController2Dx1Dx1D.cpp:69-72 | only that flag flips |
| ReferenceControllers.ReferenceController2Dx2D.constructor | Libraries/Scalar/VoidAndCluster/Reference/ReferenceController2Dx2D.cpp:5-13 | keeps the grid and the four kernels |
| ReferenceControllers.ReferenceController2Dx2D.GetSTBNData | Libraries/Scalar/VoidAndCluster/Reference/ReferenceController2Dx2D.cpp:20-23 | returns its grid |
| ReferenceControllers.ReferenceController2Dx2D.GetPixelOnCount | Libraries/Scalar/VoidAndCluster/Reference/ReferenceController2Dx2D.cpp:25-28 | the number of on pixels |
| ReferenceControllers.ReferenceController2Dx2D.GetTightestCluster | Libraries/Scalar/VoidAndCluster/Reference/ReferenceController2Dx2D.cpp:30-33 | the first on pixel of maximal energy |
| ReferenceControllers.ReferenceController2Dx2D.GetLargestVoid | Libraries/Scalar/VoidAndCluster/Reference/ReferenceController2Dx2D.cpp:35-38 | the first off pixel of minimal energy |
| ReferenceControllers.ReferenceController2Dx2D.SplatOn | Libraries/Scalar/VoidAndCluster/Reference/ReferenceController2Dx2D.cpp:40-44 | applies the xy then zw updates: the 2Dx2D composite list |
| ReferenceControllers.ReferenceController2Dx2D.SplatOff | Libraries/Scalar/VoidAndCluster/Reference/ReferenceController2Dx2D.cpp:46-50 | applies the negative composite list |
| ReferenceControllers.ReferenceController2Dx2D.SetPixelOn | Libraries/Scalar/VoidAndCluster/Reference/ReferenceController2Dx2D.cpp:52-55 | only that flag changes |
| ReferenceControllers.ReferenceController2Dx2D.SetPixelRank | Libraries/Scalar/VoidAndCluster/Reference/ReferenceController2Dx2D.cpp:57-60 | only that rank changes |
| ReferenceControllers.ReferenceController2Dx2D.SetAllEnergyToZero | Libraries/Scalar/VoidAndCluster/Reference/ReferenceController2Dx2D.cpp:62-65 | every energy becomes 0 |
| ReferenceControllers.ReferenceController2Dx2D.InvertPixelOn | Libraries/Scalar/VoidAndCluster/Reference/ReferenceController2Dx2D.cpp:67-70 | only that flag flips |
| ReferenceControllers.ThreeSplats | Libraries/Scalar/VoidAndCluster/Reference/ReferenceController2Dx1Dx1D.cpp:40-45 | three successive splats equal one splat of the concatenated list |
| SliceCacheData.SliceRange | Libraries/Scalar/VoidAndCluster/SliceCache/SliceCacheImpl.cpp:144-147 | a pixel is in slice s exactly when its index lies in [s·size, s·size + size) |
| SliceCacheData.SliceCacheData2Dx1Dx1D.constructor | Libraries/Scalar/VoidAndCluster/SliceCache/SliceCacheImpl.cpp:6-18 | every slice starts dirty, with max -FLT_MAX, min +FLT_MAX and index 0 |
| SliceCacheData.AllDirtyIsCorrect | Libraries/Scalar/VoidAndCluster/SliceCache/SliceCacheImpl.cpp:6-18 | a cache whose every slice is dirty is correct for any energy and pattern |
| SliceCacheData.EntryUnaffected | Libraries/Scalar/VoidAndCluster/SliceCache/SliceCacheImpl.cpp:149-182 | changes outside a slice leave that slice's clean entry correct |
| SliceCacheData.MaxEntryRaised | Libraries/Scalar/VoidAndCluster/SliceCache/SliceCacheImpl.cpp:152-166 | raising an on pixel above the cached maximum makes it the new maximum, and otherwise the entry stays right |
| SliceCacheData.MinEntryRaised | Libraries/Scalar/VoidAndCluster/SliceCache/SliceCacheImpl.cpp:152-166 | raising a pixel that is not the cached minimum keeps the min entry correct |
| SliceCacheData.MinEntryLowered | Libraries/Scalar/VoidAndCluster/SliceCache/SliceCacheImpl.cpp:167-181 | lowering an off pixel below the cached minimum makes it the new minimum, and otherwise the entry stays right |
| SliceCacheData.MaxEntryLowered | Libraries/Scalar/VoidAndCluster/SliceCache/SliceCacheImpl.cpp:167-181 | lowering a pixel that is not the cached maximum keeps the max entry correct |
| SliceCacheData.MaxSideRaised | Libraries/Scalar/VoidAndCluster/SliceCache/SliceCacheImpl.cpp:152-166 | the raise rule keeps every max entry correct |
| SliceCacheData.MinSideRaised | Libraries/Scalar/VoidAndCluster/SliceCache/SliceCacheImpl.cpp:152-166 | the raise rule (dirty the min when the raised off pixel was the minimum) keeps every min entry correct |
| SliceCacheData.MinSideLowered | Libraries/Scalar/VoidAndCluster/SliceCache/SliceCacheImpl.cpp:167-181 | the lower rule keeps every min entry correct |
| SliceCacheData.MaxSideLowered | Libraries/Scalar/VoidAndCluster/SliceCache/SliceCacheImpl.cpp:167-181 | the lower rule (dirty the max when the lowered on pixel was the maximum) keeps every max entry correct |
| SliceCacheData.SidesDirtied | Libraries/Scalar/VoidAndCluster/SliceCache/SliceCacheImpl.cpp:313-319 | dirtying a slice after a change inside it keeps the cache correct |
| SliceCacheData.MaxSideRepaired | Libraries/Scalar/VoidAndCluster/SliceCache/SliceCacheImpl.cpp:54-78 | storing a rescanned maximum and clearing the flag keeps the cache correct |
| SliceCacheData.MinSideRepaired | Libraries/Scalar/VoidAndCluster/SliceCache/SliceCacheImpl.cpp:102-126 | storing a rescanned minimum and clearing the flag keeps the cache correct |
| SliceCacheData.RangeMaxIsEntry | Libraries/Scalar/VoidAndCluster/SliceCache/SliceCacheImpl.cpp:62-74 | a scan of the slice's index block gives a correct max entry |
| SliceCacheData.RangeMinIsEntry | Libraries/Scalar/VoidAndCluster/SliceCache/SliceCacheImpl.cpp:110-122 | a scan of the slice's index block gives a correct min entry |
| SliceCacheData.CombineMax | Libraries/Scalar/VoidAndCluster/SliceCache/SliceCacheImpl.cpp:79-86 | folding slice s's maximum into the best of slices 0..s-1 gives the best of slices 0..s |
| SliceCacheData.CombineMin | Libraries/Scalar/VoidAndCluster/SliceCache/SliceCacheImpl.cpp:127-134 | folding slice s's minimum into the best of slices 0..s-1 gives the best of slices 0..s |
| SliceCacheData.MaxAnswer | Libraries/Scalar/VoidAndCluster/SliceCache/SliceCacheImpl.cpp:43-89 | the best over all slices is a tightest cluster (or 0 when no pixel is on) |
| SliceCacheData.MinAnswer | Libraries/Scalar/VoidAndCluster/SliceCache/SliceCacheImpl.cpp:91-137 | the best over all slices is a largest void (or 0 when no pixel is off) |
| SliceCache.SplatPixel | Libraries/Scalar/VoidAndCluster/SliceCache/SliceCacheImpl.cpp:149-182 | adds ±value to one pixel. On: dirties the min when an off pixel was the clean minimum, and raises the max entry when an on pixel rises above it. Off: the mirror rules. Keeps the cache correct |
| SliceCache.RaisePixel | Libraries/Scalar/VoidAndCluster/SliceCache/SliceCacheImpl.cpp:152-166 | the on half of `SplatPixel`: the max dirty flags are untouched and the cache stays correct |
| SliceCache.LowerPixel | Libraries/Scalar/VoidAndCluster/SliceCache/SliceCacheImpl.cpp:167-181 | the off half of `SplatPixel`: the min dirty flags are untouched and the cache stays correct |
| SliceCache.SplatZ | Libraries/Scalar/VoidAndCluster/SliceCache/SliceCacheImpl.cpp:184-200 | applies the same z update list as the reference splat and keeps the cache correct |
| SliceCache.SplatW | Libraries/Scalar/VoidAndCluster/SliceCache/SliceCacheImpl.cpp:212-237 | applies the same w update list as the reference splat, keeps the cache correct, and never cleans a dirty flag |
| SliceCache.SplatXY | Libraries/Scalar/VoidAndCluster/SliceCache/SliceCacheImpl.cpp:249-269 | applies the same xy update list as the reference splat and keeps the cache correct |
| SliceCache.SplatXYRow | Libraries/Scalar/VoidAndCluster/SliceCache/SliceCacheImpl.cpp:259-267 | one x row applies that row's updates after those already done, and keeps z and w |
| SliceCache.SplatZW | Libraries/Scalar/VoidAndCluster/SliceCache/SliceCacheImpl.cpp:281-301 | applies the same zw update list as the reference splat and keeps the cache correct |
| SliceCache.SplatZWRow | Libraries/Scalar/VoidAndCluster/SliceCache/SliceCacheImpl.cpp:290-299 | one z row applies that row's updates after those already done, and keeps x and y |
| SliceCache.ScanSliceMax | Libraries/Scalar/VoidAndCluster/SliceCache/SliceCacheImpl.cpp:62-74 | the scan returns the first on pixel of maximal energy in the slice, or -FLT_MAX when it has none |
| SliceCache.ScanSliceMin | Libraries/Scalar/VoidAndCluster/SliceCache/SliceCacheImpl.cpp:110-122 | the scan returns the first off pixel of minimal energy in the slice, or +FLT_MAX when it has none |
| SliceCache.SliceEndsInGrid | Libraries/Scalar/VoidAndCluster/SliceCache/SliceCacheImpl.cpp:62 | the index block of every slice lies inside the grid |
| SliceCache.SlicesCoverGrid | Libraries/Scalar/VoidAndCluster/SliceCache/SliceCacheImpl.cpp:6-18 | the slices' index blocks exactly cover the grid |
| SliceCache.PixelInItsSlice | Libraries/Scalar/VoidAndCluster/SliceCache/SliceCacheImpl.cpp:144-147 | a splatted pixel lies in the slice computed from its coordinates |
| SliceCache.SliceCacheImpl.constructor | Libraries/Scalar/VoidAndCluster/SliceCache/SliceCacheImpl.cpp:25-30 | a fresh cache over the grid, every slice dirty |
| SliceCache.SliceCacheImpl.GetSTBNData | Libraries/Scalar/VoidAndCluster/SliceCache/SliceCacheImpl.cpp:20-23 | returns its grid |
| SliceCache.SliceCacheImpl.GetPixelOnCount | Libraries/Scalar/VoidAndCluster/SliceCache/SliceCacheImpl.cpp:32-41 | the number of on pixels |
| SliceCache.SliceCacheImpl.SliceMax | Libraries/Scalar/VoidAndCluster/SliceCache/SliceCacheImpl.cpp:54-78 | returns a correct maximum entry for the slice. A dirty slice is rescanned and cleaned; a clean one is returned as cached |
| SliceCache.SliceCacheImpl.SliceMin | Libraries/Scalar/VoidAndCluster/SliceCache/SliceCacheImpl.cpp:102-126 | returns a correct minimum entry for the slice. A dirty slice is rescanned and cleaned; a clean one is returned as cached |
| SliceCache.SliceCacheImpl.GetTightestCluster | Libraries/Scalar/VoidAndCluster/SliceCache/SliceCacheImpl.cpp:43-89 | an on pixel of maximal energy over the whole grid; only the cache changes |
| SliceCache.SliceCacheImpl.GetLargestVoid | Libraries/Scalar/VoidAndCluster/SliceCache/SliceCacheImpl.cpp:91-137 | an off pixel of minimal energy over the whole grid; only the cache changes |
| SliceCache.SliceCacheImpl.CombineSliceMax | Libraries/Scalar/VoidAndCluster/SliceCache/SliceCacheImpl.cpp:49-86 | one slice step: if the pixels before slice `s` had a correct maximum, so do the pixels up to the end of slice `s` once its maximum is folded in |
| SliceCache.SliceCacheImpl.CombineSliceMin | Libraries/Scalar/VoidAndCluster/SliceCache/SliceCacheImpl.cpp:97-134 | one slice step: if the pixels before slice `s` had a correct minimum, so do the pixels up to the end of slice `s` once its minimum is folded in |
| SliceCache.SliceCacheImpl.SplatOnXY | Libraries/Scalar/VoidAndCluster/SliceCache/SliceCacheImpl.cpp:271-274 | the reference xy on-updates, with the cache kept correct |
| SliceCache.SliceCacheImpl.SplatOnZW | Libraries/Scalar/VoidAndCluster/SliceCache/SliceCacheImpl.cpp:303-306 | the reference zw on-updates, with the cache kept correct |
| SliceCache.SliceCacheImpl.SplatOnZ | Libraries/Scalar/VoidAndCluster/SliceCache/SliceCacheImpl.cpp:202-205 | the reference z on-updates, with the cache kept correct |
| SliceCache.SliceCacheImpl.SplatOnW | Libraries/Scalar/VoidAndCluster/SliceCache/SliceCacheImpl.cpp:239-242 | the reference w on-updates, with the cache kept correct |
| SliceCache.SliceCacheImpl.SplatOffXY | Libraries/Scalar/VoidAndCluster/SliceCache/SliceCacheImpl.cpp:276-279 | the reference xy off-updates, with the cache kept correct |
| SliceCache.SliceCacheImpl.SplatOffZW | Libraries/Scalar/VoidAndCluster/SliceCache/SliceCacheImpl.cpp:308-311 | the reference zw off-updates, with the cache kept correct |
| SliceCache.SliceCacheImpl.SplatOffZ | Libraries/Scalar/VoidAndCluster/SliceCache/SliceCacheImpl.cpp:207-210 | the reference z off-updates, with the cache kept correct |
| SliceCache.SliceCacheImpl.SplatOffW | Libraries/Scalar/VoidAndCluster/SliceCache/SliceCacheImpl.cpp:244-247 | the reference w off-updates, with the cache kept correct |
| SliceCache.SliceCacheImpl.SetPixelOn | Libraries/Scalar/VoidAndCluster/SliceCache/SliceCacheImpl.cpp:313-319 | only that flag changes. Both flags of the slice of the pixel's decoded coordinates become dirty, and no other flag changes |
| SliceCache.SliceCacheImpl.SetPixelRank | Libraries/Scalar/VoidAndCluster/SliceCache/SliceCacheImpl.cpp:321-324 | only that rank changes |
| SliceCache.SliceCacheImpl.SetAllEnergyToZero | Libraries/Scalar/VoidAndCluster/SliceCache/SliceCacheImpl.cpp:326-331 | every energy becomes 0 and every slice becomes dirty |
| SliceCache.SliceCacheImpl.InvertPixelOn | Libraries/Scalar/VoidAndCluster/SliceCache/SliceCacheImpl.cpp:333-336 | only that flag flips, through `SetPixelOn` |
| SliceCacheControllers.SliceCacheController2Dx1Dx1D.constructor | Libraries/Scalar/VoidAndCluster/SliceCache/SliceCacheController2Dx1Dx1D.cpp:5-14 | keeps the grid and kernels over a fresh, all-dirty cache |
| SliceCacheControllers.SliceCacheController2Dx1Dx1D.GetSTBNData | Libraries/Scalar/VoidAndCluster/SliceCache/SliceCacheController2Dx1Dx1D.cpp:16-19 | returns its grid |
| SliceCacheControllers.SliceCacheController2Dx1Dx1D.GetPixelOnCount | Libraries/Scalar/VoidAndCluster/SliceCache/SliceCacheController2Dx1Dx1D.cpp:21-24 | the number of on pixels |
| SliceCacheControllers.SliceCacheController2Dx1Dx1D.GetTightestCluster | Libraries/Scalar/VoidAndCluster/SliceCache/SliceCacheController2Dx1Dx1D.cpp:26-29 | an on pixel of maximal energy |
| SliceCacheControllers.SliceCacheController2Dx1Dx1D.GetLargestVoid | Libraries/Scalar/VoidAndCluster/SliceCache/SliceCacheController2Dx1Dx1D.cpp:31-34 | an off pixel of minimal energy |
| SliceCacheControllers.SliceCacheController2Dx1Dx1D.SplatOn | Libraries/Scalar/VoidAndCluster/SliceCache/SliceCacheController2Dx1Dx1D.cpp:36-41 | exactly the 2Dx1Dx1D composite on-updates of the reference controller |
| SliceCacheControllers.SliceCacheController2Dx1Dx1D.SplatOff | Libraries/Scalar/VoidAndCluster/SliceCache/SliceCacheController2Dx1Dx1D.cpp:43-48 | exactly the composite off-updates of the reference controller |
| SliceCacheControllers.SliceCacheController2Dx1Dx1D.SetPixelOn | Libraries/Scalar/VoidAndCluster/SliceCache/SliceCacheController2Dx1Dx1D.cpp:50-53 | only that flag changes |
| SliceCacheControllers.SliceCacheController2Dx1Dx1D.SetPixelRank | Libraries/Scalar/VoidAndCluster/SliceCache/SliceCacheController2Dx1Dx1D.cpp:55-58 | only that rank changes |
| SliceCacheControllers.SliceCacheController2Dx1Dx1D.SetAllEnergyToZero | Libraries/Scalar/VoidAndCluster/SliceCache/SliceCacheController2Dx1Dx1D.cpp:60-63 | every energy becomes 0 |
| SliceCacheControllers.SliceCacheController2Dx1Dx1D.InvertPixelOn | Libraries/Scalar/VoidAndCluster/SliceCache/SliceCacheController2Dx1Dx1D.cpp:65-68 | only that flag flips |
| SliceCacheControllers.SliceCacheController2Dx2D.constructor | Libraries/Scalar/VoidAndCluster/SliceCache/SliceCacheController2Dx2D.cpp:5-14 | keeps the grid and kernels over a fresh, all-dirty cache |
| SliceCacheControllers.SliceCacheController2Dx2D.GetSTBNData | Libraries/Scalar/VoidAndCluster/SliceCache/SliceCacheController2Dx2D.cpp:16-19 | returns its grid |
| SliceCacheControllers.SliceCacheController2Dx2D.GetPixelOnCount | Libraries/Scalar/VoidAndCluster/SliceCache/SliceCacheController2Dx2D.cpp:21-24 | the number of on pixels |
| SliceCacheControllers.SliceCacheController2Dx2D.GetTightestCluster | Libraries/Scalar/VoidAndCluster/SliceCache/SliceCacheController2Dx2D.cpp:26-29 | an on pixel of maximal energy |
| SliceCacheControllers.SliceCacheController2Dx2D.GetLargestVoid | Libraries/Scalar/VoidAndCluster/SliceCache/SliceCacheController2Dx2D.cpp:31-34 | an off pixel of minimal energy |
| SliceCacheControllers.SliceCacheController2Dx2D.SplatOn | Libraries/Scalar/VoidAndCluster/SliceCache/SliceCacheController2Dx2D.cpp:36-40 | exactly the 2Dx2D composite on-updates of the reference controller |
| SliceCacheControllers.SliceCacheController2Dx2D.SplatOff | Libraries/Scalar/VoidAndCluster/SliceCache/SliceCacheController2Dx2D.cpp:42-46 | exactly the composite off-updates of the reference controller |
| SliceCacheControllers.SliceCacheController2Dx2D.SetPixelOn | Libraries/Scalar/VoidAndCluster/SliceCache/SliceCacheController2Dx2D.cpp:48-51 | only that flag changes |
| SliceCacheControllers.SliceCacheController2Dx2D.SetPixelRank | Libraries/Scalar/VoidAndCluster/SliceCache/SliceCacheController2Dx2D.cpp:53-56 | only that rank changes |
| SliceCacheControllers.SliceCacheController2Dx2D.SetAllEnergyToZero | Libraries/Scalar/VoidAndCluster/SliceCache/SliceCacheController2Dx2D.cpp:58-61 | every energy becomes 0 |
| SliceCacheControllers.SliceCacheController2Dx2D.InvertPixelOn | Libraries/Scalar/VoidAndCluster/SliceCache/SliceCacheController2Dx2D.cpp:63-66 | only that flag flips |
| Controller.VCController.constructor | Libraries/Scalar/STBNMaker.cpp:23-37 | exactly the controller named by the implementation tag is built, over the given grid and kernels |
| Controller.VCController.GetSTBNData | Libraries/Scalar/VoidAndCluster/VCController.h:7-31 | returns the shared grid |
| Controller.VCController.GetPixelOnCount | Libraries/Scalar/VoidAndCluster/VCController.h:7-31 | the number of on pixels, whichever controller is chosen |
| Controller.VCController.GetTightestCluster | Libraries/Scalar/VoidAndCluster/VCController.h:7-31 | an on pixel of maximal energy, and the first one under a reference controller |
| Controller.VCController.GetLargestVoid | Libraries/Scalar/VoidAndCluster/VCController.h:7-31 | an off pixel of minimal energy, and the first one under a reference controller |
| Controller.VCController.SplatOn | Libraries/Scalar/VoidAndCluster/VCController.h:7-31 | the composite on-updates of the tag's shape, the same for both strategies |
| Controller.VCController.SplatOff | Libraries/Scalar/VoidAndCluster/VCController.h:7-31 | the composite off-updates of the tag's shape |
| Controller.VCController.SetPixelOn | Libraries/Scalar/VoidAndCluster/VCController.h:7-31 | only that flag changes |
| Controller.VCController.SetPixelRank | Libraries/Scalar/VoidAndCluster/VCController.h:7-31 | only that rank changes |
| Controller.VCController.SetAllEnergyToZero | Libraries/Scalar/VoidAndCluster/VCController.h:7-31 | every energy becomes 0 |
| Controller.VCController.InvertPixelOn | Libraries/Scalar/VoidAndCluster/VCController.h:7-31 | only that flag flips |
| VoidAndCluster.WhiteNoiseTargetCount | Libraries/Scalar/VoidAndCluster/VoidAndCluster.cpp:50 | the number of seeds is max(2, ⌊numPixels·density⌋) |
| VoidAndCluster.DrawBound | Libraries/Scalar/VoidAndCluster/VoidAndCluster.cpp:48-53 | the generator's exclusive bound is `uint32_t(numPixels) - 1` with 32-bit wrap-around: at most UINT32_MAX, below numPixels, and numPixels-1 when that fits in 32 bits |
| VoidAndCluster.SplatsAtStep | Libraries/Scalar/VoidAndCluster/VoidAndCluster.cpp:51-56 | one more pixel's splat extends the splat list of the pixels so far |
| VoidAndCluster.SwapTraceStep | Libraries/Scalar/VoidAndCluster/VoidAndCluster.cpp:66-80 | a swap that follows a swap which moved a pixel extends the swap trace |
| VoidAndCluster.RemovalTraceStep | Libraries/Scalar/VoidAndCluster/VoidAndCluster.cpp:96-106 | a removal ranked total-1-k, taken from the current grid, extends the removal trace |
| VoidAndCluster.RankingTraceStep | Libraries/Scalar/VoidAndCluster/VoidAndCluster.cpp:179-189 | a removal ranked base+k, taken from the current grid, extends the ranking trace |
| VoidAndCluster.InsertionTraceStep | Libraries/Scalar/VoidAndCluster/VoidAndCluster.cpp:142-152 | an insertion ranked base+k, taken from the current grid, extends the insertion trace |
| VoidAndCluster.SeedStep | Libraries/Scalar/VoidAndCluster/VoidAndCluster.cpp:51-56 | turning on the next drawn pixel keeps "on = initially on or drawn so far" |
| VoidAndCluster.SeedDone | Libraries/Scalar/VoidAndCluster/VoidAndCluster.cpp:51-56 | after all draws, a pixel is on exactly when it was on or was drawn; some pixel is on, and the count grew by at most the draws |
| VoidAndCluster.RestoreStep | Libraries/Scalar/VoidAndCluster/VoidAndCluster.cpp:116-120 | one restore step extends "ranked pixels up to k are back on" by one pixel |
| VoidAndCluster.InvertStep | Libraries/Scalar/VoidAndCluster/VoidAndCluster.cpp:164-169 | one invert step extends "pixels up to k are negated" by one pixel |
| VoidAndCluster.InvertDone | Libraries/Scalar/VoidAndCluster/VoidAndCluster.cpp:164-169 | after the last step the pattern is the inverse of the original |
| VoidAndCluster.KeepsOnAll | Libraries/Scalar/VoidAndCluster/VoidAndCluster.cpp:142-152 | phase 2 never turns off or re-ranks an initially on pixel |
| VoidAndCluster.KeepsOnStep | Libraries/Scalar/VoidAndCluster/VoidAndCluster.cpp:142-152 | turning on one more pixel keeps that property |
| VoidAndCluster.KeepsOffAll | Libraries/Scalar/VoidAndCluster/VoidAndCluster.cpp:179-189 | phase 3 never turns a pixel on, and never re-ranks an initially off pixel |
| VoidAndCluster.KeepsOffStep | Libraries/Scalar/VoidAndCluster/VoidAndCluster.cpp:179-189 | turning off one more pixel keeps that property |
| VoidAndCluster.RankedOffStep | Libraries/Scalar/VoidAndCluster/VoidAndCluster.cpp:179-189 | the phase-3 step counts down by one, keeps the complement invariant and touches no initially off pixel |
| VoidAndCluster.VoidAndCluster.constructor | Libraries/Scalar/VoidAndCluster/VoidAndCluster.cpp:29-36 | keeps the density and the controller; progress starts zeroed |
| VoidAndCluster.VoidAndCluster.GetNumPixels | Libraries/Scalar/VoidAndCluster/VoidAndCluster.cpp:38-41 | the grid's pixel count |
| VoidAndCluster.VoidAndCluster.GetSTBNData | Libraries/Scalar/VoidAndCluster/VoidAndCluster.cpp:200-203 | the controller's grid |
| VoidAndCluster.VoidAndCluster.GetProgressData | Libraries/Scalar/VoidAndCluster/VoidAndCluster.cpp:205-208 | the current progress record |
| VoidAndCluster.VoidAndCluster.SplatEnergyOn | Libraries/Scalar/VoidAndCluster/VoidAndCluster.cpp:210-214 | decodes the index and applies the on-splat there |
| VoidAndCluster.VoidAndCluster.SplatEnergyOff | Libraries/Scalar/VoidAndCluster/VoidAndCluster.cpp:216-220 | decodes the index and applies the off-splat there |
| VoidAndCluster.VoidAndCluster.InitializeToWhiteNoise | Libraries/Scalar/VoidAndCluster/VoidAndCluster.cpp:43-58 | a pixel ends on exactly when it was on or drawn, some pixel is on, the energy is the draws' splats in draw order, and progress records the target count |
| VoidAndCluster.VoidAndCluster.SeedPixels | Libraries/Scalar/VoidAndCluster/VoidAndCluster.cpp:51-56 | the seeding loop, with the same result and the index counter at the number of draws |
| VoidAndCluster.VoidAndCluster.SeedNext | Libraries/Scalar/VoidAndCluster/VoidAndCluster.cpp:52-55 | one seed: the next drawn pixel is turned on and on-splatted (a repeated draw is splatted again); the counter advances |
| VoidAndCluster.VoidAndCluster.TurnOffTightestCluster | Libraries/Scalar/VoidAndCluster/VoidAndCluster.cpp:68-72 | the tightest cluster of the old state is turned off and off-splatted |
| VoidAndCluster.VoidAndCluster.TurnOnLargestVoid | Libraries/Scalar/VoidAndCluster/VoidAndCluster.cpp:73-79 | the largest void of the new state is turned on and on-splatted |
| VoidAndCluster.VoidAndCluster.TurnOn | Libraries/Scalar/VoidAndCluster/VoidAndCluster.cpp:116-120 | the pixel is turned on and on-splatted |
| VoidAndCluster.VoidAndCluster.InvertAndSplat | Libraries/Scalar/VoidAndCluster/VoidAndCluster.cpp:164-169 | the pixel's flag flips, and it is on-splatted only if it is now on |
| VoidAndCluster.VoidAndCluster.Rank | Libraries/Scalar/VoidAndCluster/VoidAndCluster.cpp:101 | only that rank changes |
| VoidAndCluster.VoidAndCluster.TurnOffAndRank | Libraries/Scalar/VoidAndCluster/VoidAndCluster.cpp:98-105 | a tightest cluster of the old grid turns off, takes the given rank and is off-splatted; nothing else changes |
| VoidAndCluster.VoidAndCluster.SwapClusterToVoid | Libraries/Scalar/VoidAndCluster/VoidAndCluster.cpp:68-79 | returns a tightest cluster of the old grid and a largest void of the grid after that pixel was turned off and off-splatted. The flags become the old flags with the cluster off, then the void on; the energy is the off-splat then the on-splat; the ranks and the on-count are kept |
| VoidAndCluster.VoidAndCluster.ReorganizeToBlueNoise | Libraries/Scalar/VoidAndCluster/VoidAndCluster.cpp:60-83 | the ghost trace runs from the old grid to the new one, one `Swapped` step per counted iteration. Every swap but the last moved a pixel. `finished` holds exactly when it was already set or the last swap put its pixel back, and a run that stops before the fuel ends with such a swap. The on-count is kept |
| VoidAndCluster.VoidAndCluster.SwapAndRecord | Libraries/Scalar/VoidAndCluster/VoidAndCluster.cpp:66-79 | one loop iteration: one swap appended to the trace, with `finished` exactly when it put the pixel back |
| VoidAndCluster.VoidAndCluster.Phase1Part1 | Libraries/Scalar/VoidAndCluster/VoidAndCluster.cpp:85-108 | all pixels end off. The ranked pixels are exactly the initially on ones, with distinct ranks below the initial count; the others keep their ranks. The ghost trace has one removal per initially on pixel: removal k takes a tightest cluster of the grid before it and ranks it count-1-k |
| VoidAndCluster.VoidAndCluster.RemoveTightestCluster | Libraries/Scalar/VoidAndCluster/VoidAndCluster.cpp:96-106 | returns a tightest cluster of the old grid, turned off with rank = the ones left after it and off-splatted; the removal invariant is kept and the remaining count goes down by one |
| VoidAndCluster.VoidAndCluster.Phase1Part2 | Libraries/Scalar/VoidAndCluster/VoidAndCluster.cpp:110-124 | every ranked pixel is turned back on and on-splatted in index order |
| VoidAndCluster.VoidAndCluster.RestorePixelAt | Libraries/Scalar/VoidAndCluster/VoidAndCluster.cpp:116-120 | one restore step extends the restored prefix and its splats |
| VoidAndCluster.VoidAndCluster.RestoreRankedPixels | Libraries/Scalar/VoidAndCluster/VoidAndCluster.cpp:114-121 | after the loop every ranked pixel is on, the ranks are unchanged, and the energy holds the splats of the ranked pixels in index order |
| VoidAndCluster.VoidAndCluster.Phase1 | Libraries/Scalar/VoidAndCluster/VoidAndCluster.cpp:126-130 | the pattern is unchanged and its pixels carry ranks 0 .. count-1 |
| VoidAndCluster.VoidAndCluster.Phase2 | Libraries/Scalar/VoidAndCluster/VoidAndCluster.cpp:132-155 | the count grows to max(count, numPixels/2), keeping ranks progressive and the old pixels' ranks. The ghost trace has one insertion per added pixel: insertion k fills a largest void of the grid before it with rank old count + k |
| VoidAndCluster.VoidAndCluster.AddLargestVoid | Libraries/Scalar/VoidAndCluster/VoidAndCluster.cpp:142-152 | returns a largest void of the old grid, turned on with rank = the old count and on-splatted; progressive ranks and the earlier pixels' ranks are kept |
| VoidAndCluster.VoidAndCluster.Phase3Part1 | Libraries/Scalar/VoidAndCluster/VoidAndCluster.cpp:157-171 | the pattern is inverted and the energy is recomputed from zero as the splats of the new on pixels |
| VoidAndCluster.VoidAndCluster.InvertAllPixels | Libraries/Scalar/VoidAndCluster/VoidAndCluster.cpp:164-169 | every pixel flips, the new on pixels are on-splatted in index order, and the progress index ends at numPixels |
| VoidAndCluster.VoidAndCluster.InvertPixels | Libraries/Scalar/VoidAndCluster/VoidAndCluster.cpp:164-169 | the inversion loop over a local index: the flags become the inverse and the energy gains the splats of the new on pixels in index order |
| VoidAndCluster.VoidAndCluster.InvertingDone | Libraries/Scalar/VoidAndCluster/VoidAndCluster.cpp:164-169 | when the loop index reaches numPixels the whole pattern is inverted and every new on pixel is splatted |
| VoidAndCluster.VoidAndCluster.InvertPixelAt | Libraries/Scalar/VoidAndCluster/VoidAndCluster.cpp:164-169 | one inversion step extends the inverted prefix and its splats |
| VoidAndCluster.VoidAndCluster.Phase3Part2 | Libraries/Scalar/VoidAndCluster/VoidAndCluster.cpp:173-192 | all pixels end off with ranks a permutation of 0 .. numPixels-1, and initially off pixels keep their ranks. The ghost trace has one removal per initially on pixel: removal k takes a tightest cluster of the grid before it and ranks it numPixels - count + k |
| VoidAndCluster.VoidAndCluster.RankRemaining | Libraries/Scalar/VoidAndCluster/VoidAndCluster.cpp:179-189 | the removal loop ends with no pixel on, the trace extended by one removal per pixel, and the remaining count at 0 |
| VoidAndCluster.VoidAndCluster.RankAndRecord | Libraries/Scalar/VoidAndCluster/VoidAndCluster.cpp:181-188 | one loop iteration: one ranked removal appended to the trace |
| VoidAndCluster.VoidAndCluster.RankingDone | Libraries/Scalar/VoidAndCluster/VoidAndCluster.cpp:179-190 | once no pixel is on, the ranks are a permutation, the initially off pixels kept theirs, and the trace ranks removal k numPixels - count + k |
| VoidAndCluster.VoidAndCluster.RankTightestCluster | Libraries/Scalar/VoidAndCluster/VoidAndCluster.cpp:181-188 | returns a tightest cluster of the old grid, turned off with rank numPixels - (ones on before) and off-splatted; the complement invariant is kept and the count drops by one |
| VoidAndCluster.VoidAndCluster.Phase3 | Libraries/Scalar/VoidAndCluster/VoidAndCluster.cpp:194-198 | the ranks become a permutation, and every earlier rank is kept |
| Textures.Resized | Libraries/Shared/BlueNoiseTexturesND.cpp:22-23 | resizing a group list keeps the prefix and pads with 0 |
| Textures.ProductOfFour | Libraries/Shared/BlueNoiseTexturesND.cpp:13-19 | the pixel count of four extents is their product |
| Textures.EffectiveGroups | Libraries/Shared/BlueNoiseTexturesND.cpp:22-23 | an empty group list becomes one group of 0 per dimension, and the list covers every dimension |
| Textures.MaskBit | Libraries/Shared/BlueNoiseTexturesND.cpp:29-34 | `GroupMask`: bit i of group g's mask is set exactly when dimension i exists and is not in group g |
| Textures.ListedMasks | Libraries/Shared/BlueNoiseTexturesND.cpp:27-36 | whatever order the unique groups are visited in, there is one mask per group, and together they are the masks of all groups |
| Textures.SingleGroupMask | Libraries/Shared/BlueNoiseTexturesND.h:31-33 | when all dimensions share group 0, the mask is 0 |
| Textures.DefaultGroupsMask | Libraries/Shared/BlueNoiseTexturesND.cpp:22-36 | with no groups given there is one group, and its mask is 0 |
| Textures.MaskExamples | Libraries/Shared/BlueNoiseTexturesND.h:27-41 | groups {0,1} give masks {2,1}, {0,0,1} give {4,3}, and {0,1,2} give {6,5,3} |
| Textures.EmitRangeSpan | Libraries/Shared/BlueNoiseTexturesND.cpp:38-58 | `EmitRangeFor`: the emit range covers min(2r+1, dim) offsets around 0. When clamped it runs from -(dim-1)/2 to dim/2 |
| Textures.IndexIsHorner | Libraries/Shared/BlueNoiseTexturesND.cpp:89-99 | `IndexOf`: the source's running-product sum equals the Horner form of the mixed-radix index |
| Textures.IndexOfMatches4D | Libraries/Scalar/Utils/PixelCoords.cpp:5-18 | in four dimensions the texture index is the grid's pixel index |
| Textures.IndexOfMatches3D | Libraries/Vector/Utils/PixelCoords3D.cpp:15-26 | in three dimensions the texture index is the 3D pixel index |
| Textures.IndexBelowProduct | Libraries/Shared/BlueNoiseTexturesND.cpp:89-99 | in-range indices give a pixel index below the pixel count |
| Textures.IndexInjective | Libraries/Shared/BlueNoiseTexturesND.cpp:89-99 | distinct in-range indices give distinct pixel indices |
| Textures.DigitsIndex | Libraries/Shared/BlueNoiseTexturesND.cpp:120-132 | `Digits`: with uniform extents d, the decoded digits re-encode to index mod d^k |
| Textures.DigitInRange | Libraries/Shared/BlueNoiseTexturesND.cpp:125-130 | every decoded digit is in [0, dims[0]) |
| Textures.DecodeThenEncode | Libraries/Shared/BlueNoiseTexturesND.cpp:120-132 | with uniform extents, decoding an index and re-encoding it gives the index |
| Textures.EncodeThenDecode | Libraries/Shared/BlueNoiseTexturesND.cpp:120-132 | with uniform extents, encoding in-range indices and decoding gives them back |
| Textures.MixedExtentsDecodeExample | Libraries/Shared/BlueNoiseTexturesND.cpp:128 | on extents [2,3], index 4 decodes to [0,0] (which encodes to 0), because every digit uses dims[0] |
| Textures.BlueNoiseTexturesND.constructor | Libraries/Shared/BlueNoiseTexturesND.h:58-65 | an empty texture |
| Textures.BlueNoiseTexturesND.Init | Libraries/Shared/BlueNoiseTexturesND.cpp:9-59 | keeps dims and sigmas; one default pixel per grid cell. It appends one mask per unique group, in some order, and sets per-dimension emit ranges from the radii |
| Textures.BlueNoiseTexturesND.AppendMasks | Libraries/Shared/BlueNoiseTexturesND.cpp:27-36 | appends one mask per unique group, in some listing order of the set |
| Textures.BlueNoiseTexturesND.MaskOf | Libraries/Shared/BlueNoiseTexturesND.cpp:29-34 | the loop's mask is the group's mask |
| Textures.BlueNoiseTexturesND.GetDims | Libraries/Shared/BlueNoiseTexturesND.cpp:61-64 | the extents |
| Textures.BlueNoiseTexturesND.GetPixels | Libraries/Shared/BlueNoiseTexturesND.cpp:66-74 | the pixels |
| Textures.BlueNoiseTexturesND.GetPixelIndex | Libraries/Shared/BlueNoiseTexturesND.cpp:83-100 | None when the index count differs from the dimension count (the abort), else the mixed-radix index |
| Textures.BlueNoiseTexturesND.GetPixel | Libraries/Shared/BlueNoiseTexturesND.cpp:102-110 | the pixel at the mixed-radix index |
| Textures.BlueNoiseTexturesND.GetPixelIndices | Libraries/Shared/BlueNoiseTexturesND.cpp:120-132 | one digit per dimension, each taken with radix dims[0] |
| Maker.TextureGroupMasks | Libraries/Scalar/STBNMaker.cpp:54 | the exported groups {0,0,1,2} give masks {12, 11, 7} |
| Maker.AxisKernel | Libraries/Scalar/STBNMaker.cpp:15-18 | each axis kernel fits its axis, is non-negative and has the clamped radius |
| Maker.TextureMasks | Libraries/Scalar/STBNMaker.cpp:54 | whatever order the groups are visited in, the exported textures hold exactly the three masks 12, 11 and 7 |
| Maker.STBNMaker.constructor | Libraries/Scalar/STBNMaker.cpp:13-40 | builds the kernels (fitted to their axes), a zeroed grid, the requested controller and the driver, with fresh progress |
| Maker.STBNMaker.Make | Libraries/Scalar/STBNMaker.cpp:42-49 | running all stages leaves the ranks a permutation of 0 .. numPixels-1 |
| Maker.STBNMaker.GetBlueNoiseTextures | Libraries/Scalar/STBNMaker.cpp:51-65 | the textures have extents x,y,z,1 and sigmas x,y,z,1. Every pixel is on with its rank and zero energy. The masks are {12,11,7}, and the emit ranges come from the radii |
| Maker.CopyRanks | Libraries/Scalar/STBNMaker.cpp:56-63 | after the pixel loop every pixel is on, carries its own rank and has zero energy, and the pixel count is unchanged |

## Left out

- The controller and implementation interfaces (abstract base classes with virtual methods) are modelled as one class per concrete controller plus the dispatcher `Controller.VCController`, because the model has no interface types.
- Floating point is modelled as exact `real` arithmetic. Rounding, NaN, and the float tie-breaking that depends on rounding are not modelled. ±FLT_MAX become `NegInf`/`PosInf`.
- Kernel.BlueNoiseGaussianKernel: the Gaussian weights and the sigma radius (`exp`, Newton–Raphson `sqrt`) are inputs. Their values are not derived from sigma; only their positivity is assumed.
- Textures.BlueNoiseTexturesND.Init: the emit radii (`sqrtf`, `log`) are inputs, one per dimension.
- Textures.BlueNoiseTexturesND.Init: the visiting order of the `unordered_set` of groups is unspecified. The model states that the masks come in some listing order of the set.
- VoidAndCluster.VoidAndCluster.InitializeToWhiteNoise: the PCG32 generator (`GetRNG`, `pcg32_boundedrand_r`) is replaced by the sequence of drawn indices `draws`. Only the range of the draws is modelled.
- Timestamps (`std::chrono`), the progress-reporting thread, and ProgressReporter/ProgressContext are left out. The progress record keeps only its counters and flags.
- Integer widths: `size_t` and `int` overflow are not modelled. `GetPixelIndex` does not wrap, and the `static_cast<int>` of a rank is taken as exact. The one 32-bit bound that matters, the draw range, is explicit in `DrawBound`.
- VoidAndCluster.VoidAndCluster.Phase1Part2: the progress index `phase1Part2PixelIndex` is set to 0 before the loop and to `numPixels` after it; the loop runs on a local index, so the intermediate values a progress reader would see are not modelled.
- VoidAndCluster.VoidAndCluster.Phase3Part1: likewise `phase3Part1PixelCountCurrent` is set to 0 before the inversion loop and to `numPixels` after it; the loop runs on a local index.
- VoidAndCluster.VoidAndCluster.ReorganizeToBlueNoise: the source loop has no bound, so it takes a `fuel` count. When the fuel runs out first, the contract states only the swaps made so far.
- SliceCache.SliceCacheImpl.SetPixelOn and SliceCache.SliceCacheImpl.InvertPixelOn: require `dims.w <= dims.y`. The index decoding reduces w modulo y (PixelCoords.cpp:27), and `SetPixelOn` dirties the slice of those decoded coordinates. With w > y that is not always the pixel's slice; `Coords.DecodeQuirkExample` shows such an index. The reference strategy needs no such bound.
- SliceCacheControllers.SliceCacheController2Dx1Dx1D.SetPixelOn and SliceCacheControllers.SliceCacheController2Dx2D.SetPixelOn require `dims.w <= dims.y`, for the same reason. So do their InvertPixelOn.
- SliceCache.SliceCacheImpl.SplatOnXY: this splat and the other cache splats require non-negative kernel weights.
- Controller.VCController.constructor: requires non-negative kernels for every strategy, and `dims.w <= dims.y` when a slice cache strategy is chosen, so that the dispatcher's invariant holds whichever controller it builds. With a negative weight the source's raise/lower rules can leave a stale clean entry. The blue-noise Gaussian kernels are positive (`Kernel.BlueNoiseGaussianKernel`).
- SliceCache.SplatW: states that dirty flags only become dirty, not the exact new cache entries.
- SliceCache.SplatXY, SliceCache.SplatZW and SliceCache.SplatZ: same as SplatW. They state the cache invariant and the energy, not the exact cached values.
- SliceCache.SliceCacheImpl.GetTightestCluster and SliceCache.SliceCacheImpl.GetLargestVoid: state a maximal (minimal) pixel, not which one among ties the slice order picks. The same holds for SliceCacheControllers.SliceCacheController2Dx1Dx1D.GetTightestCluster, SliceCacheControllers.SliceCacheController2Dx1Dx1D.GetLargestVoid, SliceCacheControllers.SliceCacheController2Dx2D.GetTightestCluster, SliceCacheControllers.SliceCacheController2Dx2D.GetLargestVoid, and Controller.VCController.GetTightestCluster and Controller.VCController.GetLargestVoid under a slice cache strategy; under a reference strategy they return the first such pixel.
- VoidAndCluster.WhiteNoiseTargetCount: a negative density is treated as giving fewer than two seeds, so the count is 2. The float-to-size_t conversion of a negative product is not modelled.
- All controllers require valid dimensions (every extent at least 1). The source divides by the extents when decoding.
- VoidAndCluster.VoidAndCluster.Phase1Part1, VoidAndCluster.VoidAndCluster.Phase2 and VoidAndCluster.VoidAndCluster.Phase3Part2: the energy is stated step by step in the ghost traces (each step's splat), not as a closed form of the final pattern.
- Textures.BlueNoiseTexturesND.Init: requires at most 32 dimensions, the width of the `unsigned int` masks. It also requires non-negative extents and at least as many sigmas as dimensions; it reads `sigmas[i]` for every dimension.
- Textures.BlueNoiseTexturesND.GetPixel returns the pixel by value. The non-const reference overload used for writing is modelled by assigning `pixels` directly.
- Textures.BlueNoiseTexturesND.GetPixelIndices: returns a new sequence instead of filling the caller's vector. It decodes every digit with radix dims[0], as the source does (line 128), so it inverts `GetPixelIndex` only for uniform extents.
- Maker.STBNMaker.Make: requires an unranked grid, which the constructor provides.
- Maker.STBNMaker.GetBlueNoiseTextures: requires w == 1. The source always exports depth-1 textures of extent x·y·z but loops over all numPixels pixels.
- `STBNMaker::GetVoidAndCluster` (a getter of the driver) is not modelled, because the maker's `vc` field is public in the model.
- `SaveTextures` (image files), the function lookup tables, `FastExp`, `Lerp` and the other STBNMath helpers are left out. They are file I/O or floating point only.
- The vector (simulated annealing) tool is not part of this model, apart from its 3D dimensions and coordinates.
