// One-sided kernels that are applied symmetrically around a pixel, the
// constant kernel and the normalised Gaussian kernel used for blue noise.
module Kernel {

  function Abs(o: int): nat
  {
    if o < 0 then -o else o
  }

  function Min(a: int, b: int): int
  {
    if a <= b then a else b
  }

  function Max(a: int, b: int): int
  {
    if a >= b then a else b
  }

  function Sum(s: seq<real>): real
  {
    if s == [] then 0.0 else Sum(s[..|s| - 1]) + s[|s| - 1]
  }

  /**
   * `kernel` holds the weights for distances 0, 1, 2, ...; a splat visits the
   * offsets `start..end` (inclusive) and uses `kernel[|offset|]`.
   */
  datatype SymmetricKernel = SymmetricKernel(kernel: seq<real>, start: int, end: int, max: int)

  /** Every offset a splat visits has a weight. */
  predicate WellFormed(k: SymmetricKernel)
  {
    k.start <= k.end + 1 && forall o :: k.start <= o <= k.end ==> Abs(o) < |k.kernel|
  }

  /** A splat along an axis of this width never wraps below coordinate zero twice. */
  predicate FitsAxis(k: SymmetricKernel, width: nat)
  {
    WellFormed(k) && width >= 1 && width + k.start >= 0
  }

  predicate NonNegative(k: SymmetricKernel)
  {
    forall i :: 0 <= i < |k.kernel| ==> k.kernel[i] >= 0.0
  }

  /** The weight a splat uses at offset `o` (none beyond the table, which a well-formed kernel never reaches). */
  function Weight(k: SymmetricKernel, o: int): (r: real)
    ensures NonNegative(k) ==> r >= 0.0
    ensures r != 0.0 ==> Abs(o) < |k.kernel| && r == k.kernel[Abs(o)]
  {
    if Abs(o) < |k.kernel| then k.kernel[Abs(o)] else 0.0
  }

  function NewSymmetricKernel(kernelData: seq<real>, evenWidthKernel: bool): (k: SymmetricKernel)
    ensures k.kernel == kernelData
    ensures |kernelData| >= 1 && !evenWidthKernel ==> k.end == |kernelData| - 1 && k.start == -k.end
    ensures |kernelData| >= 2 && evenWidthKernel ==>
      k.end == |kernelData| - 1 && k.end - k.start + 1 == 2 * |kernelData| - 2
    ensures |kernelData| == 1 ==> k.start == 0 && k.end == 0
    ensures k.max == k.end <==> |kernelData| >= 1 || evenWidthKernel
    ensures WellFormed(k) <==> |kernelData| >= 1 || !evenWidthKernel
  {
    var n := |kernelData|;
    var start := if evenWidthKernel then Min(0, -(n - 2)) else -(n - 1);
    var end := Max(n - 1, 0);
    var k := SymmetricKernel(kernelData, start, end, Max(start, end));
    if n == 0 && evenWidthKernel then
      assert start <= 0 <= end && Abs(0) >= |kernelData|;
      k
    else
      k
  }

  /** `radius + 1` copies of `value`. */
  function ConstantKernel(value: real, radius: nat, evenWidthKernel: bool): (k: SymmetricKernel)
    ensures |k.kernel| == radius + 1 && forall i :: 0 <= i <= radius ==> k.kernel[i] == value
    ensures WellFormed(k) && k.end == radius && k.max == radius
    ensures !evenWidthKernel ==> k.start == -(radius as int)
    ensures evenWidthKernel && radius >= 1 ==> k.start == 1 - radius
    ensures evenWidthKernel && radius == 0 ==> k.start == 0
  {
    NewSymmetricKernel(seq(radius + 1, _ => value), evenWidthKernel)
  }

  /** The Gaussian's radius, limited to half the axis (but at least 1). */
  function KernelRadius(baseRadius: nat, maxKernelWidth: nat): (r: nat)
    ensures r <= baseRadius && r <= Max(1, maxKernelWidth / 2)
    ensures r == baseRadius || r == Max(1, maxKernelWidth / 2)
  {
    Min(baseRadius, Max(1, maxKernelWidth / 2))
  }

  /**
   * Whether the kernel of this radius is too wide for the axis and must use the
   * even-width shape: on an axis of width two or more that happens exactly when
   * the width is even and the radius was clamped to half of it.
   */
  function ShouldUseEvenKernelWidth(baseRadius: nat, maxKernelWidth: nat): (r: bool)
    ensures maxKernelWidth >= 2 ==>
      (r <==> maxKernelWidth % 2 == 0 && KernelRadius(baseRadius, maxKernelWidth) == maxKernelWidth / 2)
    ensures maxKernelWidth == 1 ==> (r <==> baseRadius >= 1)
    ensures maxKernelWidth == 0 ==> r
  {
    KernelRadius(baseRadius, maxKernelWidth) * 2 + 1 > maxKernelWidth
  }

  /**
   * The kernel shape chosen for an axis of width `maxKernelWidth` always starts
   * within one wrap of the axis, and its offsets cover at most the width,
   * except on a one-pixel axis, where the even kernel visits offsets 0 and 1.
   */
  lemma GaussianShapeFitsAxis(kernelData: seq<real>, baseRadius: nat, maxKernelWidth: nat)
    requires maxKernelWidth >= 1 && |kernelData| == KernelRadius(baseRadius, maxKernelWidth) + 1
    ensures var k := NewSymmetricKernel(kernelData, ShouldUseEvenKernelWidth(baseRadius, maxKernelWidth));
      && FitsAxis(k, maxKernelWidth)
      && (k.end - k.start + 1 <= maxKernelWidth
          || (maxKernelWidth == 1 && baseRadius >= 1 && k.start == 0 && k.end == 1))
  {
  }

  /**
   * The blue-noise Gaussian: weights for distances 0..radius taken from the
   * Gaussian table, the centre set to 1, and all weights divided by the sum of
   * the off-centre ones (when there are any).
   */
  method BlueNoiseGaussianKernel(gaussian: seq<real>, baseRadius: nat, maxKernelWidth: nat)
    returns (k: SymmetricKernel)
    requires |gaussian| > KernelRadius(baseRadius, maxKernelWidth)
    requires forall i :: 0 <= i < |gaussian| ==> gaussian[i] > 0.0
    ensures var r := KernelRadius(baseRadius, maxKernelWidth);
      var shape := NewSymmetricKernel(gaussian[..r + 1], ShouldUseEvenKernelWidth(baseRadius, maxKernelWidth));
      && |k.kernel| == r + 1
      && k.start == shape.start && k.end == shape.end && k.max == shape.max && k.max == r
      && (r == 0 ==> k.kernel == [1.0])
      && (r > 0 ==> Sum(gaussian[1..r + 1]) > 0.0
                    && k.kernel[0] == 1.0 / Sum(gaussian[1..r + 1])
                    && (forall i :: 1 <= i <= r ==> k.kernel[i] == gaussian[i] / Sum(gaussian[1..r + 1]))
                    && Sum(k.kernel[1..]) == 1.0)
    ensures forall i :: 0 <= i < |k.kernel| ==> k.kernel[i] > 0.0
    ensures maxKernelWidth >= 1 ==> FitsAxis(k, maxKernelWidth)
  {
    var r := KernelRadius(baseRadius, maxKernelWidth);
    var even := ShouldUseEvenKernelWidth(baseRadius, maxKernelWidth);
    var shape := NewSymmetricKernel(gaussian[..r + 1], even);
    var a := new real[r + 1](i requires 0 <= i < r + 1 => gaussian[i]);
    a[0] := 1.0;
    assert a[1..] == gaussian[1..r + 1];
    if shape.max > 0 {
      NormalizeByOffCentreSum(a);
    }
    k := SymmetricKernel(a[..], shape.start, shape.end, shape.max);
    if maxKernelWidth >= 1 {
      GaussianShapeFitsAxis(gaussian[..r + 1], baseRadius, maxKernelWidth);
    }
  }

  /** The two normalisation loops: sum entries 1.., then divide every entry by that sum. */
  method NormalizeByOffCentreSum(a: array<real>)
    requires a.Length >= 2 && forall i :: 0 <= i < a.Length ==> a[i] > 0.0
    modifies a
    ensures Sum(old(a[1..])) > 0.0
    ensures forall i :: 0 <= i < a.Length ==> a[i] == old(a[i]) / Sum(old(a[1..]))
    ensures Sum(a[1..]) == 1.0
    ensures forall i :: 0 <= i < a.Length ==> a[i] > 0.0
  {
    ghost var g := a[..];
    var sum := 0.0;
    var i := 1;
    while i < a.Length
      invariant 1 <= i <= a.Length
      invariant sum == Sum(g[1..i]) && (i > 1 ==> sum > 0.0)
    {
      assert g[1..i + 1] == g[1..i] + [g[i]];
      sum := sum + a[i];
      i := i + 1;
    }
    assert g[1..i] == old(a[1..]);
    i := 0;
    while i < a.Length
      invariant 0 <= i <= a.Length
      invariant forall j :: 0 <= j < i ==> a[j] == g[j] / sum
      invariant forall j :: i <= j < a.Length ==> a[j] == g[j]
    {
      a[i] := a[i] / sum;
      i := i + 1;
    }
    SumDivided(g[1..], sum, a[1..]);
    forall j | 0 <= j < a.Length
      ensures a[j] > 0.0
    {
      DivPositive(g[j], sum);
    }
  }

  /** Dividing every entry by the total makes the entries sum to one. */
  lemma SumDivided(s: seq<real>, total: real, t: seq<real>)
    requires total == Sum(s) && total != 0.0
    requires |t| == |s| && forall j :: 0 <= j < |s| ==> t[j] == s[j] / total
    ensures Sum(t) == 1.0
  {
    SumScaled(s, total, t);
    DivSelf(total);
  }

  lemma DivPositive(x: real, y: real)
    requires x > 0.0 && y > 0.0
    ensures x / y > 0.0
  {
  }

  lemma DivSelf(x: real)
    requires x != 0.0
    ensures x / x == 1.0
  {
  }

  lemma {:induction false} SumScaled(s: seq<real>, d: real, t: seq<real>)
    requires d != 0.0
    requires |t| == |s| && forall j :: 0 <= j < |s| ==> t[j] == s[j] / d
    ensures Sum(t) == Sum(s) / d
  {
    if s != [] {
      var n := |s| - 1;
      SumScaled(s[..n], d, t[..n]);
    }
  }

  /** The constant kernels the splat tests use: value 2 with radius 1 visits offsets -1, 0, 1. */
  lemma ConstantKernelExample()
    ensures ConstantKernel(2.0, 1, false) == SymmetricKernel([2.0, 2.0], -1, 1, 1)
  {
  }
}
