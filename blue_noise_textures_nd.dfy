// BlueNoiseTexturesND: an N-dimensional texture of pixels. `Init` sizes the
// pixel array to the product of the extents, builds one bit mask per group of
// axes (a set bit means "this axis must match for two pixels to interact"),
// and clamps each axis's energy emit range to the texture. Axis 0 is the least
// significant digit of a pixel index.
module Textures {
  import opened MathLemmas
  import Coords
  import Dims
  import Coords3D
  import Dims3D

  datatype Option<T> = None | Some(value: T)

  /** A texel: on/off, its rank (-1 until one is written) and its energy. */
  datatype Pixel = Pixel(on: bool, rank: int, energy: real)

  const DefaultPixel := Pixel(false, -1, 0.0)

  /** A C++ `int`, the type of group numbers. */
  newtype Int32 = x: int | -0x8000_0000 <= x < 0x8000_0000

  // ---------------------------------------------------------------------
  // Integer helpers with the C++ semantics the source relies on
  // ---------------------------------------------------------------------

  /** C++ `/` on `int`: the quotient truncated toward zero. */
  function TruncDiv(a: int, b: int): int
    requires b > 0
  {
    if a >= 0 then a / b else -((-a) / b)
  }

  /** C++ `%` on `int`: the remainder takes the sign of the dividend. */
  function TruncMod(a: int, b: int): int
    requires b > 0
  {
    if a >= 0 then a % b else -((-a) % b)
  }

  /** `std::vector<int>::resize`: keep the first `n` entries, pad with zeros. */
  function Resized(s: seq<int>, n: nat): (r: seq<int>)
    ensures |r| == n
    ensures forall k :: 0 <= k < n ==> r[k] == (if k < |s| then s[k] else 0)
  {
    if n <= |s| then s[..n] else s + seq(n - |s|, _ => 0)
  }

  /** Product of all entries; the product of nothing is 1. */
  function Product(s: seq<int>): int
  {
    if s == [] then 1 else Product(s[..|s| - 1]) * s[|s| - 1]
  }

  predicate AllNonNegative(s: seq<int>)
  {
    forall i :: 0 <= i < |s| ==> s[i] >= 0
  }

  lemma {:induction false} ProductNonNegative(s: seq<int>)
    requires AllNonNegative(s)
    ensures Product(s) >= 0
  {
    if s != [] {
      var p := s[..|s| - 1];
      assert AllNonNegative(p);
      ProductNonNegative(p);
      MulLe(0, Product(p), s[|s| - 1]);
    }
  }

  lemma ProductOfFour(a: int, b: int, c: int, d: int)
    ensures Product([a, b, c, d]) == a * b * c * d
  {
    assert [a][..0] == [];
    assert Product([a]) == a;
    assert [a, b][..1] == [a];
    assert Product([a, b]) == a * b;
    assert [a, b, c][..2] == [a, b];
    assert Product([a, b, c]) == a * b * c;
    assert [a, b, c, d][..3] == [a, b, c];
  }

  /** `d` to the power `k`. */
  function Pow(d: int, k: nat): int
  {
    if k == 0 then 1 else Pow(d, k - 1) * d
  }

  lemma {:induction false} PowPositive(d: int, k: nat)
    requires d >= 1
    ensures Pow(d, k) >= 1
  {
    if k > 0 {
      PowPositive(d, k - 1);
      PosMul(Pow(d, k - 1), d);
    }
  }

  /** `k` copies of the extent `d`. */
  function Uniform(d: int, k: nat): seq<int>
  {
    seq(k, _ => d)
  }

  lemma {:induction false} ProductOfUniform(d: int, k: nat)
    ensures Product(Uniform(d, k)) == Pow(d, k)
  {
    if k > 0 {
      assert Uniform(d, k)[..k - 1] == Uniform(d, k - 1);
      ProductOfUniform(d, k - 1);
    }
  }

  // ---------------------------------------------------------------------
  // Group masks
  // ---------------------------------------------------------------------

  /** The groups `Init` works with: group 0 on each of the `n` axes when none are given. */
  function EffectiveGroups(groups: seq<Int32>, n: nat): (r: seq<Int32>)
    requires |groups| == 0 || |groups| >= n
    ensures |r| >= n
  {
    if |groups| == 0 then seq(n, _ => 0) else groups
  }

  /** The distinct group numbers. */
  function GroupSet(groups: seq<Int32>): set<Int32>
  {
    set i | 0 <= i < |groups| :: groups[i]
  }

  /** The mask with only bit `k` set. */
  function Bit(k: nat): bv32
    requires k < 32
  {
    (1 as bv32) << k
  }

  /** The mask of group `g` over the first `k` axes: bit `i` set when axis `i` is not in `g`. */
  function GroupMask(groups: seq<Int32>, g: Int32, k: nat): bv32
    requires k <= |groups| && k <= 32
  {
    if k == 0 then 0
    else GroupMask(groups, g, k - 1) | (if groups[k - 1] != g then Bit(k - 1) else 0)
  }

  /** The masks of the groups in `order`, in that order. */
  function MasksFor(groups: seq<Int32>, order: seq<Int32>, n: nat): seq<bv32>
    requires n <= |groups| && n <= 32
  {
    seq(|order|, k requires 0 <= k < |order| => GroupMask(groups, order[k], n))
  }

  /** The set of masks, one per distinct group. */
  function MaskSet(groups: seq<Int32>, n: nat): set<bv32>
    requires n <= |groups| && n <= 32
  {
    set g | g in GroupSet(groups) :: GroupMask(groups, g, n)
  }

  /** `order` lists every member of `s` exactly once (the iteration order of an unordered set). */
  predicate IsListing(order: seq<Int32>, s: set<Int32>)
  {
    (forall k :: 0 <= k < |order| ==> order[k] in s)
    && (forall g :: g in s ==> g in order)
    && (forall j, k :: 0 <= j < k < |order| ==> order[j] != order[k])
  }

  /** Bit `i` of a group mask is set exactly when axis `i` exists and is not in the group. */
  lemma {:induction false} MaskBit(groups: seq<Int32>, g: Int32, k: nat, i: nat)
    requires k <= |groups| && k <= 32 && i < 32
    ensures (GroupMask(groups, g, k) >> i) & 1 == (if i < k && groups[i] != g then 1 else 0)
  {
    if k > 0 {
      MaskBit(groups, g, k - 1, i);
      ShiftBit(k - 1, i);
      OrBit(GroupMask(groups, g, k - 1), if groups[k - 1] != g then Bit(k - 1) else 0, i);
    }
  }

  lemma ShiftBit(j: nat, i: nat)
    requires j < 32 && i < 32
    ensures (Bit(j) >> i) & 1 == (if i == j then 1 else 0)
  {
  }

  lemma OrBit(a: bv32, b: bv32, i: nat)
    requires i < 32
    ensures ((a | b) >> i) & 1 == ((a >> i) & 1) | ((b >> i) & 1)
  {
  }

  lemma {:induction false} ListingSize(order: seq<Int32>, s: set<Int32>)
    requires IsListing(order, s)
    ensures |order| == |s|
  {
    if order != [] {
      var last := order[|order| - 1];
      var rest := order[..|order| - 1];
      assert IsListing(rest, s - {last}) by {
        forall g | g in s - {last}
          ensures g in rest
        {
          var k :| 0 <= k < |order| && order[k] == g;
          assert k < |order| - 1;
          assert rest[k] == g;
        }
      }
      ListingSize(rest, s - {last});
    } else {
      assert forall g :: g !in s;
      assert s == {};
    }
  }

  /**
   * Whatever the iteration order, `Init` appends one mask per distinct group,
   * and together they are the mask set.
   */
  lemma ListedMasks(groups: seq<Int32>, order: seq<Int32>, n: nat)
    requires n <= |groups| && n <= 32 && IsListing(order, GroupSet(groups))
    ensures |MasksFor(groups, order, n)| == |GroupSet(groups)|
    ensures (set k | 0 <= k < |order| :: MasksFor(groups, order, n)[k]) == MaskSet(groups, n)
  {
    ListingSize(order, GroupSet(groups));
    var ms := MasksFor(groups, order, n);
    forall m | m in MaskSet(groups, n)
      ensures m in (set k | 0 <= k < |order| :: ms[k])
    {
      var g :| g in GroupSet(groups) && m == GroupMask(groups, g, n);
      var k :| 0 <= k < |order| && order[k] == g;
      assert ms[k] == m;
    }
  }

  lemma {:induction false} SingleGroupMask(groups: seq<Int32>, k: nat)
    requires k <= |groups| && k <= 32 && forall i :: 0 <= i < |groups| ==> groups[i] == 0
    ensures GroupMask(groups, 0, k) == 0
  {
    if k > 0 {
      SingleGroupMask(groups, k - 1);
    }
  }

  /** With no groups given, every axis is in group 0 and the only mask is 0: all pixels interact. */
  lemma DefaultGroupsMask(n: nat)
    requires 1 <= n <= 32
    ensures GroupSet(EffectiveGroups([], n)) == {0}
    ensures MaskSet(EffectiveGroups([], n), n) == {0}
  {
    var gs := EffectiveGroups([], n);
    assert gs[0] == 0;
    SingleGroupMask(gs, n);
  }

  /** The masks of 1Dx1D {0,1}, 2Dx1D {0,0,1} and 1Dx1Dx1D {0,1,2} blue noise. */
  lemma MaskExamples()
    ensures MaskSet([0, 1], 2) == {2, 1}
    ensures MaskSet([0, 0, 1], 3) == {4, 3}
    ensures MaskSet([0, 1, 2], 3) == {6, 5, 3}
  {
    assert [0, 1][0] == 0 && [0, 1][1] == 1;
    assert GroupSet([0, 1]) == {0, 1};
    assert [0, 0, 1][0] == 0 && [0, 0, 1][2] == 1;
    assert GroupSet([0, 0, 1]) == {0, 1};
    assert [0, 1, 2][0] == 0 && [0, 1, 2][1] == 1 && [0, 1, 2][2] == 2;
    assert GroupSet([0, 1, 2]) == {0, 1, 2};
  }

  // ---------------------------------------------------------------------
  // Energy emit ranges
  // ---------------------------------------------------------------------

  /** The offsets [min, max] along one axis over which a pixel emits energy. */
  datatype EmitRange = EmitRange(min: int, max: int)

  /** The range for `radius` on an axis of extent `dim`, clamped to fit the axis. */
  function EmitRangeFor(radius: nat, dim: int): EmitRange
  {
    if radius * 2 + 1 >= dim then
      var r := TruncDiv(dim - 1, 2);
      EmitRange(-r, -r + dim - 1)
    else
      EmitRange(-(radius as int), radius)
  }

  /**
   * The range covers min(2 * radius + 1, dim) offsets; on a non-empty axis it
   * contains 0, and when clamped it ends at dim / 2, so an even axis gets the
   * extra offset on the positive side.
   */
  lemma EmitRangeSpan(radius: nat, dim: int)
    requires dim >= 0
    ensures var e := EmitRangeFor(radius, dim);
            e.max - e.min + 1 == (if radius * 2 + 1 >= dim then dim else radius * 2 + 1)
            && (dim >= 1 ==> e.min <= 0 <= e.max)
            && (radius * 2 + 1 >= dim >= 1 ==> e.max == dim / 2 && -e.min == (dim - 1) / 2)
  {
    if radius * 2 + 1 >= dim >= 1 {
      var q := (dim - 1) / 2;
      assert dim - 1 == 2 * q + (dim - 1) % 2;
      DivModUnique(dim, 2, dim - 1 - q, (dim - 1) % 2 + 1 - 2 * ((dim - 1) % 2));
    }
  }

  // ---------------------------------------------------------------------
  // Pixel indices
  // ---------------------------------------------------------------------

  /** The pixel index of per-axis indices: sum of indices[i] times the product of the earlier extents. */
  function IndexOf(indices: seq<int>, dims: seq<int>): int
    requires |indices| == |dims|
  {
    if indices == [] then 0
    else IndexOf(indices[..|indices| - 1], dims[..|dims| - 1]) + indices[|indices| - 1] * Product(dims[..|dims| - 1])
  }

  /** Horner evaluation from axis 0: x + X * (y + Y * (z + ...)). */
  function HornerIndex(indices: seq<int>, dims: seq<int>): int
    requires |indices| == |dims|
  {
    if indices == [] then 0 else indices[0] + dims[0] * HornerIndex(indices[1..], dims[1..])
  }

  predicate IndicesInRange(indices: seq<int>, dims: seq<int>)
  {
    |indices| == |dims| && forall i :: 0 <= i < |dims| ==> 0 <= indices[i] < dims[i]
  }

  lemma {:induction false} ProductFront(d: seq<int>)
    requires |d| > 0
    ensures Product(d) == d[0] * Product(d[1..])
  {
    if |d| > 1 {
      var n := |d|;
      assert d[..n - 1][1..] == d[1..][..n - 2];
      ProductFront(d[..n - 1]);
      assert d[..n - 1][0] == d[0];
      assert Product(d) == d[0] * Product(d[1..][..n - 2]) * d[n - 1];
    } else {
      assert d[1..] == [];
      assert d[..0] == [];
    }
  }

  lemma {:induction false} IndexOfFront(a: seq<int>, d: seq<int>)
    requires |a| == |d| > 0
    ensures IndexOf(a, d) == a[0] + d[0] * IndexOf(a[1..], d[1..])
  {
    var n := |a|;
    if n == 1 {
      assert a[..0] == [] && d[..0] == [] && a[1..] == [] && d[1..] == [];
    } else {
      var a1, d1 := a[..n - 1], d[..n - 1];
      IndexOfFront(a1, d1);
      assert a1[1..] == a[1..][..n - 2] && d1[1..] == d[1..][..n - 2];
      assert a1[0] == a[0] && d1[0] == d[0];
      ProductFront(d1);
      var low := IndexOf(a[1..][..n - 2], d[1..][..n - 2]);
      var p := Product(d[1..][..n - 2]);
      assert IndexOf(a[1..], d[1..]) == low + a[n - 1] * p;
      assert IndexOf(a, d) == a[0] + d[0] * low + a[n - 1] * (d[0] * p);
    }
  }

  /** The accumulating sum and Horner's form compute the same index. */
  lemma {:induction false} IndexIsHorner(a: seq<int>, d: seq<int>)
    requires |a| == |d|
    ensures IndexOf(a, d) == HornerIndex(a, d)
  {
    if a != [] {
      IndexOfFront(a, d);
      IndexIsHorner(a[1..], d[1..]);
    }
  }

  /** On four axes the index is the 4D pixel-coords index. */
  lemma IndexOfMatches4D(c: Coords.PixelCoords, dims: Dims.Dimensions)
    ensures IndexOf([c.x, c.y, c.z, c.w], [dims.x, dims.y, dims.z, dims.w])
            == Coords.PixelCoordsToPixelIndex(c, dims)
  {
    var a: seq<int> := [c.x, c.y, c.z, c.w];
    var d: seq<int> := [dims.x, dims.y, dims.z, dims.w];
    IndexIsHorner(a, d);
    assert HornerIndex(a[1..][1..][1..], d[1..][1..][1..]) == c.w by {
      assert a[1..][1..][1..][1..] == [] && d[1..][1..][1..][1..] == [];
    }
    assert HornerIndex(a[1..][1..], d[1..][1..]) == c.z + dims.z * c.w;
    assert HornerIndex(a[1..], d[1..]) == c.y + dims.y * (c.z + dims.z * c.w);
  }

  /** On three axes the index is the 3D pixel-coords index. */
  lemma IndexOfMatches3D(c: Coords3D.PixelCoords3D, dims: Dims3D.Dimensions3D)
    ensures IndexOf([c.x, c.y, c.z], [dims.x, dims.y, dims.z])
            == Coords3D.PixelCoords3DToPixelIndex(c, dims)
  {
    var a: seq<int> := [c.x, c.y, c.z];
    var d: seq<int> := [dims.x, dims.y, dims.z];
    IndexIsHorner(a, d);
    assert HornerIndex(a[1..][1..], d[1..][1..]) == c.z by {
      assert a[1..][1..][1..] == [] && d[1..][1..][1..] == [];
    }
    assert HornerIndex(a[1..], d[1..]) == c.y + dims.y * c.z;
  }

  /** In-range indices address a pixel inside the texture. */
  lemma {:induction false} IndexBelowProduct(a: seq<int>, d: seq<int>)
    requires IndicesInRange(a, d)
    ensures 0 <= IndexOf(a, d) < Product(d)
  {
    var n := |a|;
    if n > 0 {
      var a1, d1 := a[..n - 1], d[..n - 1];
      assert IndicesInRange(a1, d1);
      IndexBelowProduct(a1, d1);
      var p := Product(d1);
      MulLe(0, a[n - 1], p);
      MulLe(a[n - 1] + 1, d[n - 1], p);
    }
  }

  /** Distinct in-range indices address distinct pixels. */
  lemma {:induction false} IndexInjective(a: seq<int>, b: seq<int>, d: seq<int>)
    requires IndicesInRange(a, d) && IndicesInRange(b, d) && IndexOf(a, d) == IndexOf(b, d)
    ensures a == b
  {
    var n := |a|;
    if n > 0 {
      var a1, b1, d1 := a[..n - 1], b[..n - 1], d[..n - 1];
      assert IndicesInRange(a1, d1) && IndicesInRange(b1, d1);
      IndexBelowProduct(a1, d1);
      IndexBelowProduct(b1, d1);
      var v := IndexOf(a, d);
      var p := Product(d1);
      DivModUnique(v, p, a[n - 1], IndexOf(a1, d1));
      DivModUnique(v, p, b[n - 1], IndexOf(b1, d1));
      IndexInjective(a1, b1, d1);
      assert a == a1 + [a[n - 1]] && b == b1 + [b[n - 1]];
    }
  }

  /** Axis `i` of `GetPixelIndices`: (index % d^(i+1)) / d^i with C++ `%` and `/`. */
  function Digit(index: int, d: int, i: nat): int
    requires d >= 1
  {
    PowPositive(d, i);
    PowPositive(d, i + 1);
    TruncDiv(TruncMod(index, Pow(d, i + 1)), Pow(d, i))
  }

  /** The `k` axis values `GetPixelIndices` computes for `index` with first extent `d`. */
  function Digits(index: int, d: int, k: nat): seq<int>
    requires d >= 1
  {
    seq(k, i requires 0 <= i < k => Digit(index, d, i))
  }

  /** With all extents `d`, encoding the decoded digits yields the index modulo d^k. */
  lemma {:induction false} DigitsIndex(v: nat, d: int, k: nat)
    requires d >= 1
    ensures Pow(d, k) >= 1 && IndexOf(Digits(v, d, k), Uniform(d, k)) == v % Pow(d, k)
  {
    PowPositive(d, k);
    if k > 0 {
      var ds, us := Digits(v, d, k), Uniform(d, k);
      assert ds[..k - 1] == Digits(v, d, k - 1);
      assert us[..k - 1] == Uniform(d, k - 1);
      DigitsIndex(v, d, k - 1);
      ProductOfUniform(d, k - 1);
      PowPositive(d, k - 1);
      DigitOfNatural(v, d, k - 1);
      TopDigit(v, Pow(d, k - 1), d);
    }
  }

  /** For a non-negative index the C++ operators are the Euclidean ones. */
  lemma DigitOfNatural(v: nat, d: int, i: nat)
    requires d >= 1
    ensures Pow(d, i) >= 1 && Digit(v, d, i) == (v % (Pow(d, i) * d)) / Pow(d, i)
  {
    PowPositive(d, i);
    PowPositive(d, i + 1);
    DigitNat(v, Pow(d, i + 1), Pow(d, i));
  }

  /** The remainder modulo p * d is the remainder modulo p plus the top digit times p. */
  lemma TopDigit(v: nat, p: int, d: int)
    requires p >= 1 && d >= 1
    ensures p * d >= 1 && v % (p * d) == v % p + ((v % (p * d)) / p) * p
  {
    ModMod(v, p, d);
    var m := v % (p * d);
    assert m == (m / p) * p + m % p;
  }

  lemma DigitInRange(v: nat, d: int, i: nat)
    requires d >= 1
    ensures 0 <= Digit(v, d, i) < d
  {
    PowPositive(d, i);
    PowPositive(d, i + 1);
    var p := Pow(d, i);
    DigitNat(v, p * d, p);
    DivBound(v % (p * d), p, d);
  }

  /** When every extent equals the first, decoding an in-range index and re-encoding it gives it back. */
  lemma DecodeThenEncode(v: int, dims: seq<int>)
    requires |dims| > 0 && dims[0] >= 1 && forall i :: 0 <= i < |dims| ==> dims[i] == dims[0]
    requires 0 <= v < Product(dims)
    ensures IndexOf(Digits(v, dims[0], |dims|), dims) == v
  {
    assert dims == Uniform(dims[0], |dims|);
    ProductOfUniform(dims[0], |dims|);
    DigitsIndex(v, dims[0], |dims|);
    ModOfSmall(v, Pow(dims[0], |dims|));
  }

  /** When every extent equals the first, decoding the index of in-range indices gives them back. */
  lemma EncodeThenDecode(indices: seq<int>, dims: seq<int>)
    requires |dims| > 0 && dims[0] >= 1 && forall i :: 0 <= i < |dims| ==> dims[i] == dims[0]
    requires IndicesInRange(indices, dims)
    ensures Digits(IndexOf(indices, dims), dims[0], |dims|) == indices
  {
    var v := IndexOf(indices, dims);
    IndexBelowProduct(indices, dims);
    DecodeThenEncode(v, dims);
    var ds := Digits(v, dims[0], |dims|);
    forall i | 0 <= i < |dims|
      ensures 0 <= ds[i] < dims[i]
    {
      DigitInRange(v, dims[0], i);
    }
    IndexInjective(ds, indices, dims);
  }

  /**
   * With mixed extents the decoding is not the inverse: on extents [2, 3]
   * index 4 is the pixel at [0, 2], but every axis is decoded with radix 2,
   * which yields [0, 0], the indices of pixel 0.
   */
  lemma MixedExtentsDecodeExample()
    ensures 4 < Product([2, 3]) && IndexOf([0, 2], [2, 3]) == 4
    ensures Digits(4, 2, 2) == [0, 0] && IndexOf([0, 0], [2, 3]) == 0
  {
    assert [2, 3][..1] == [2] && [0, 2][..1] == [0] && [0, 0][..1] == [0];
    assert [2][..0] == [] && [0][..0] == [];
    assert Digit(4, 2, 0) == 0 && Digit(4, 2, 1) == 0;
  }

  // ---------------------------------------------------------------------
  // The textures
  // ---------------------------------------------------------------------

  class BlueNoiseTexturesND {
    var dims: seq<int>
    var sigmas: seq<real>
    var pixels: seq<Pixel>
    var masks: seq<bv32>
    var energyEmitMin: seq<int>
    var energyEmitMax: seq<int>

    constructor ()
      ensures dims == [] && sigmas == [] && pixels == [] && masks == []
      ensures energyEmitMin == [] && energyEmitMax == []
    {
      dims := [];
      sigmas := [];
      pixels := [];
      masks := [];
      energyEmitMin := [];
      energyEmitMax := [];
    }

    /**
     * `radii[i]` is the emit radius of axis i, the truncated square root of
     * -2 sigma_i^2 ln 0.005, which leaves only 0.5% of the energy unaccounted for.
     */
    method Init(dims0: seq<int>, sigmas0: seq<real>, groups: seq<Int32>, radii: seq<nat>)
      requires AllNonNegative(dims0) && |dims0| <= 32
      requires |sigmas0| >= |dims0| && |radii| == |dims0|
      requires |groups| == 0 || |groups| >= |dims0|
      modifies this
      ensures dims == dims0 && sigmas == sigmas0
      ensures |pixels| == Product(dims0) && forall i :: 0 <= i < |pixels| ==> pixels[i] == DefaultPixel
      ensures exists order :: IsListing(order, GroupSet(EffectiveGroups(groups, |dims0|)))
                && masks == old(masks) + MasksFor(EffectiveGroups(groups, |dims0|), order, |dims0|)
      ensures |energyEmitMin| == |dims0| && |energyEmitMax| == |dims0|
      ensures forall i :: 0 <= i < |dims0| ==>
                EmitRange(energyEmitMin[i], energyEmitMax[i]) == EmitRangeFor(radii[i], dims0[i])
    {
      dims := dims0;
      sigmas := sigmas0;
      var n := |dims0|;
      var pixelCount := 1;
      var i := 0;
      while i < n
        invariant 0 <= i <= n && pixelCount == Product(dims0[..i])
      {
        pixelCount := pixelCount * dims0[i];
        assert dims0[..i + 1][..i] == dims0[..i];
        i := i + 1;
      }
      assert dims0[..i] == dims0;
      ProductNonNegative(dims0);
      pixels := seq(pixelCount, _ => DefaultPixel);

      // make the masks
      var g := groups;
      if |g| == 0 {
        g := seq(n, _ => 0);
      }
      assert g == EffectiveGroups(groups, n);
      var unique: set<Int32> := {};
      i := 0;
      while i < |g|
        invariant 0 <= i <= |g| && unique == GroupSet(g[..i])
      {
        assert GroupSet(g[..i + 1]) == GroupSet(g[..i]) + {g[i]} by {
          assert g[..i + 1] == g[..i] + [g[i]];
        }
        unique := unique + {g[i]};
        i := i + 1;
      }
      assert g[..i] == g;
      AppendMasks(g, unique, n);

      // the energy emit range of each axis
      var emitMin := Resized(energyEmitMin, n);
      var emitMax := Resized(energyEmitMax, n);
      i := 0;
      while i < n
        invariant 0 <= i <= n && |emitMin| == n && |emitMax| == n
        invariant forall k :: 0 <= k < i ==> EmitRange(emitMin[k], emitMax[k]) == EmitRangeFor(radii[k], dims0[k])
      {
        var radius: int := radii[i];
        if radius * 2 + 1 >= dims0[i] {
          radius := TruncDiv(dims0[i] - 1, 2);
          emitMin := emitMin[i := -radius];
          emitMax := emitMax[i := -radius + dims0[i] - 1];
        } else {
          emitMin := emitMin[i := -radius];
          emitMax := emitMax[i := radius];
        }
        i := i + 1;
      }
      energyEmitMin := emitMin;
      energyEmitMax := emitMax;
    }

    /** Appends the mask of every group in `unique`, in an unspecified order. */
    method AppendMasks(g: seq<Int32>, unique: set<Int32>, n: nat)
      requires n <= |g| && n <= 32
      modifies this`masks
      ensures exists order :: IsListing(order, unique) && masks == old(masks) + MasksFor(g, order, n)
    {
      var remaining := unique;
      ghost var order: seq<Int32> := [];
      while remaining != {}
        invariant remaining <= unique
        invariant forall k :: 0 <= k < |order| ==> order[k] in unique && order[k] !in remaining
        invariant forall x :: x in unique ==> x in remaining || x in order
        invariant forall j, k :: 0 <= j < k < |order| ==> order[j] != order[k]
        invariant masks == old(masks) + MasksFor(g, order, n)
        decreases remaining
      {
        var group :| group in remaining;
        var mask := MaskOf(g, group, n);
        assert MasksFor(g, order + [group], n) == MasksFor(g, order, n) + [mask];
        masks := masks + [mask];
        order := order + [group];
        remaining := remaining - {group};
      }
      assert IsListing(order, unique);
    }

    /** The mask of `group`: bit `index` set for each axis not in it. */
    static method MaskOf(g: seq<Int32>, group: Int32, n: nat) returns (mask: bv32)
      requires n <= |g| && n <= 32
      ensures mask == GroupMask(g, group, n)
    {
      mask := 0;
      var index := 0;
      while index < n
        invariant 0 <= index <= n && mask == GroupMask(g, group, index)
      {
        if g[index] != group {
          mask := mask | Bit(index);
        }
        index := index + 1;
      }
    }

    method GetDims() returns (r: seq<int>)
      ensures r == dims
    {
      r := dims;
    }

    method GetPixels() returns (r: seq<Pixel>)
      ensures r == pixels
    {
      r := pixels;
    }

    /** `None` when the number of indices is not the number of axes (the source aborts). */
    method GetPixelIndex(indices: seq<int>) returns (r: Option<int>)
      ensures |indices| != |dims| ==> r == None
      ensures |indices| == |dims| ==> r == Some(IndexOf(indices, dims))
    {
      if |indices| != |dims| {
        return None;
      }
      var pixelIndex := 0;
      var multiplier := 1;
      var i := 0;
      while i < |dims|
        invariant 0 <= i <= |dims|
        invariant pixelIndex == IndexOf(indices[..i], dims[..i]) && multiplier == Product(dims[..i])
      {
        assert indices[..i + 1][..i] == indices[..i] && dims[..i + 1][..i] == dims[..i];
        pixelIndex := pixelIndex + multiplier * indices[i];
        multiplier := multiplier * dims[i];
        i := i + 1;
      }
      assert indices[..i] == indices && dims[..i] == dims;
      return Some(pixelIndex);
    }

    method GetPixel(indices: seq<int>) returns (p: Pixel)
      requires |indices| == |dims| && 0 <= IndexOf(indices, dims) < |pixels|
      ensures p == pixels[IndexOf(indices, dims)]
    {
      var index := GetPixelIndex(indices);
      p := pixels[index.value];
    }

    /** Decodes `index` into one value per axis, using the first extent as the radix of every axis. */
    method GetPixelIndices(index: int) returns (indices: seq<int>)
      requires |dims| == 0 || dims[0] >= 1
      ensures |indices| == |dims|
      ensures |dims| > 0 ==> indices == Digits(index, dims[0], |dims|)
    {
      indices := seq(|dims|, _ => 0);
      if |dims| == 0 {
        return;
      }
      var a := 1;
      var b := 1;
      var i := 0;
      while i < |dims|
        invariant 0 <= i <= |dims| && |indices| == |dims|
        invariant a == Pow(dims[0], i) && b == a
        invariant forall k :: 0 <= k < i ==> indices[k] == Digit(index, dims[0], k)
      {
        a := a * dims[0];
        PowPositive(dims[0], i + 1);
        indices := indices[i := TruncDiv(TruncMod(index, a), b)];
        b := a;
        i := i + 1;
      }
    }
  }
}
