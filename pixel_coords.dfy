// Conversion between 4D pixel coordinates and the linear pixel index
// (x fastest, then y, z, w). The index-to-coordinates direction keeps the
// w-term of the original, which takes the remainder by x*y*z*y.
module Coords {
  import opened Dims
  import opened MathLemmas

  datatype PixelCoords = PixelCoords(x: nat, y: nat, z: nat, w: nat)
  {
    function Get(axis: nat): nat
      requires axis < 4
    {
      match axis
      case 0 => x
      case 1 => y
      case 2 => z
      case 3 => w
    }

    function Set(axis: nat, v: nat): (r: PixelCoords)
      requires axis < 4
      ensures r.Get(axis) == v
      ensures forall a :: 0 <= a < 4 && a != axis ==> r.Get(a) == Get(a)
    {
      match axis
      case 0 => this.(x := v)
      case 1 => this.(y := v)
      case 2 => this.(z := v)
      case 3 => this.(w := v)
    }

    predicate InRange(dims: Dimensions)
    {
      x < dims.x && y < dims.y && z < dims.z && w < dims.w
    }
  }

  /** Coordinates that agree on every axis are equal. */
  lemma SameCoords(p: PixelCoords, q: PixelCoords)
    requires forall a :: 0 <= a < 4 ==> p.Get(a) == q.Get(a)
    ensures p == q
  {
    assert p.Get(0) == q.Get(0) && p.Get(1) == q.Get(1) && p.Get(2) == q.Get(2) && p.Get(3) == q.Get(3);
  }

  /** Overwriting the one axis on which two coordinates differ makes them equal. */
  lemma SetOverwrites(p: PixelCoords, c: PixelCoords, axis: nat, v: nat)
    requires axis < 4 && forall a :: 0 <= a < 4 && a != axis ==> p.Get(a) == c.Get(a)
    ensures p.Set(axis, v) == c.Set(axis, v)
  {
    SameCoords(p.Set(axis, v), c.Set(axis, v));
  }

  /** The same for two axes, when the first already holds its new value. */
  lemma SetOverwrites2(p: PixelCoords, c: PixelCoords, outer: nat, inner: nat, y: nat, x: nat)
    requires outer < 4 && inner < 4
    requires forall a :: 0 <= a < 4 && a != outer && a != inner ==> p.Get(a) == c.Get(a)
    requires outer != inner ==> p.Get(outer) == y
    ensures p.Set(inner, x) == c.Set(outer, y).Set(inner, x)
  {
    SameCoords(p.Set(inner, x), c.Set(outer, y).Set(inner, x));
  }

  /** Horner evaluation w, z, y, x of the mixed-radix index. */
  function PixelCoordsToPixelIndex(c: PixelCoords, dims: Dimensions): nat
  {
    ((c.w * dims.z + c.z) * dims.y + c.y) * dims.x + c.x
  }

  function PixelIndexToPixelCoords(pixelIndex: nat, dims: Dimensions): PixelCoords
    requires dims.Valid()
  {
    DivisorsPositive(dims);
    DigitNat(pixelIndex, dims.x, 1);
    DigitNat(pixelIndex, dims.x * dims.y, dims.x);
    DigitNat(pixelIndex, dims.x * dims.y * dims.z, dims.x * dims.y);
    DigitNat(pixelIndex, dims.x * dims.y * dims.z * dims.y, dims.x * dims.y * dims.z);
    PixelCoords(
      (pixelIndex % dims.x) / 1,
      (pixelIndex % (dims.x * dims.y)) / dims.x,
      (pixelIndex % (dims.x * dims.y * dims.z)) / (dims.x * dims.y),
      (pixelIndex % (dims.x * dims.y * dims.z * dims.y)) / (dims.x * dims.y * dims.z))
  }

  /** The index of the z-w slice that holds a pixel; each slice is x*y pixels. */
  function XYSlice(c: PixelCoords, dims: Dimensions): nat
  {
    c.w * dims.z + c.z
  }

  /** The digits of an index, written as quotients of successive divisions. */
  lemma IndexDigits(i: nat, dims: Dimensions)
    requires dims.Valid()
    ensures var c := PixelIndexToPixelCoords(i, dims);
      && c.x == i % dims.x
      && c.y == (i / dims.x) % dims.y
      && c.z == ((i / dims.x) / dims.y) % dims.z
      && c.w == (((i / dims.x) / dims.y) / dims.z) % dims.y
  {
    DigitY(i, dims);
    DigitZ(i, dims);
    DigitW(i, dims);
  }

  lemma DigitY(i: nat, dims: Dimensions)
    requires dims.Valid()
    ensures PixelIndexToPixelCoords(i, dims).y == (i / dims.x) % dims.y
  {
    ModDiv(i, dims.x, dims.y);
  }

  lemma DigitZ(i: nat, dims: Dimensions)
    requires dims.Valid()
    ensures PixelIndexToPixelCoords(i, dims).z == ((i / dims.x) / dims.y) % dims.z
  {
    var x, y, z := dims.x, dims.y, dims.z;
    ModDiv(i, x * y, z);
    DivDiv(i, x, y);
  }

  lemma DigitW(i: nat, dims: Dimensions)
    requires dims.Valid()
    ensures PixelIndexToPixelCoords(i, dims).w == (((i / dims.x) / dims.y) / dims.z) % dims.y
  {
    var x, y, z := dims.x, dims.y, dims.z;
    ModDiv(i, x * y * z, y);
    DivDiv(i, x, y);
    DivDiv(i, x * y, z);
  }

  /** A pixel inside the grid has an index inside the grid, lying in its z-w slice. */
  lemma IndexInSlice(c: PixelCoords, dims: Dimensions)
    requires dims.Valid() && c.InRange(dims)
    ensures var i := PixelCoordsToPixelIndex(c, dims);
      && XYSlice(c, dims) < dims.z * dims.w
      && XYSlice(c, dims) * (dims.x * dims.y) <= i < XYSlice(c, dims) * (dims.x * dims.y) + dims.x * dims.y
      && i < dims.NumPixels()
  {
    var x, y, z, w := dims.x, dims.y, dims.z, dims.w;
    var s := c.w * z + c.z;
    var v := c.y * x + c.x;
    MixedRadixBound(c.w, w, c.z, z);
    assert s < w * z;
    MixedRadixBound(c.y, y, c.x, x);
    assert v < y * x;
    var i := PixelCoordsToPixelIndex(c, dims);
    assert i == s * (x * y) + v;
    MixedRadixBound(s, z * w, v, x * y);
    NumPixelsPositive(dims);
  }

  lemma CoordsToIndexBound(c: PixelCoords, dims: Dimensions)
    requires dims.Valid() && c.InRange(dims)
    ensures PixelCoordsToPixelIndex(c, dims) < dims.NumPixels()
  {
    IndexInSlice(c, dims);
  }

  /** Every index inside the grid decodes to coordinates inside the grid, quirk or not. */
  lemma IndexToCoordsInRange(i: nat, dims: Dimensions)
    requires dims.Valid() && i < dims.NumPixels()
    ensures PixelIndexToPixelCoords(i, dims).InRange(dims)
  {
    TopDigitBound(i, dims);
    InRangeGivenTopDigit(i, dims);
  }

  lemma TopDigitBound(i: nat, dims: Dimensions)
    requires dims.Valid() && i < dims.NumPixels()
    ensures ((i / dims.x) / dims.y) / dims.z < dims.w
  {
    var x, y, z, w := dims.x, dims.y, dims.z, dims.w;
    DivDiv(i, x, y);
    DivDiv(i, x * y, z);
    DivBound(i, x * y * z, w);
  }

  lemma InRangeGivenTopDigit(i: nat, dims: Dimensions)
    requires dims.Valid() && ((i / dims.x) / dims.y) / dims.z < dims.w
    ensures PixelIndexToPixelCoords(i, dims).InRange(dims)
  {
    DigitY(i, dims);
    ModBound(i / dims.x, dims.y);
    DigitZ(i, dims);
    ModBound((i / dims.x) / dims.y, dims.z);
    DecodedWBelow(i, dims);
  }

  lemma DecodedWBelow(i: nat, dims: Dimensions)
    requires dims.Valid() && ((i / dims.x) / dims.y) / dims.z < dims.w
    ensures PixelIndexToPixelCoords(i, dims).w < dims.w
  {
    var top := ((i / dims.x) / dims.y) / dims.z;
    if top < dims.y {
      DecodedWIsTopDigit(i, dims);
    } else {
      DecodedWBelowY(i, dims);
    }
  }

  lemma DecodedWBelowY(i: nat, dims: Dimensions)
    requires dims.Valid()
    ensures PixelIndexToPixelCoords(i, dims).w < dims.y
  {
    var x, y, z := dims.x, dims.y, dims.z;
    DivisorsPositive(dims);
    ModBound(i, x * y * z * y);
    DivBound(i % (x * y * z * y), x * y * z, y);
  }

  lemma DecodedWIsTopDigit(i: nat, dims: Dimensions)
    requires dims.Valid() && ((i / dims.x) / dims.y) / dims.z < dims.y
    ensures PixelIndexToPixelCoords(i, dims).w == ((i / dims.x) / dims.y) / dims.z
  {
    var a: nat := i / dims.x;
    var b: nat := a / dims.y;
    var t: nat := b / dims.z;
    DigitW(i, dims);
    ModOfSmall(t, dims.y);
  }

  /** Index -> coordinates -> index is the identity when w <= y. */
  lemma IndexRoundTrip(i: nat, dims: Dimensions)
    requires dims.Valid() && i < dims.NumPixels() && dims.w <= dims.y
    ensures PixelCoordsToPixelIndex(PixelIndexToPixelCoords(i, dims), dims) == i
  {
    TopDigitBound(i, dims);
    RoundTripGivenTopDigit(i, dims);
  }

  lemma RoundTripGivenTopDigit(i: nat, dims: Dimensions)
    requires dims.Valid() && ((i / dims.x) / dims.y) / dims.z < dims.w <= dims.y
    ensures PixelCoordsToPixelIndex(PixelIndexToPixelCoords(i, dims), dims) == i
  {
    var c := PixelIndexToPixelCoords(i, dims);
    IndexDigits(i, dims);
    DecodedWIsTopDigit(i, dims);
    Recompose(i, dims.x, dims.y, dims.z, c.x, c.y, c.z, c.w);
  }

  /**
   * For coordinates inside the grid, coordinates -> index -> coordinates is the
   * identity exactly when the w coordinate is below the y extent.
   */
  lemma CoordsRoundTrip(c: PixelCoords, dims: Dimensions)
    requires dims.Valid() && c.InRange(dims)
    ensures PixelIndexToPixelCoords(PixelCoordsToPixelIndex(c, dims), dims) == c <==> c.w < dims.y
  {
    var x, y, z := dims.x, dims.y, dims.z;
    var t2 := c.w * z + c.z;
    var t1 := t2 * y + c.y;
    var i := PixelCoordsToPixelIndex(c, dims);
    DivModUnique(i, x, t1, c.x);
    DivModUnique(t1, y, t2, c.y);
    DivModUnique(t2, z, c.w, c.z);
    IndexDigits(i, dims);
    var d := PixelIndexToPixelCoords(i, dims);
    assert d.w == c.w % y;
    if c.w < y {
      ModOfSmall(c.w, y);
    } else {
      assert d.w < y <= c.w;
    }
  }

  /** With w <= y the slice of the decoded coordinates is the index divided by x*y. */
  lemma SliceOfDecodedIndex(i: nat, dims: Dimensions)
    requires dims.Valid() && i < dims.NumPixels() && dims.w <= dims.y
    ensures var s := XYSlice(PixelIndexToPixelCoords(i, dims), dims);
      s < dims.z * dims.w && s * (dims.x * dims.y) <= i < s * (dims.x * dims.y) + dims.x * dims.y
  {
    IndexToCoordsInRange(i, dims);
    IndexRoundTrip(i, dims);
    IndexInSlice(PixelIndexToPixelCoords(i, dims), dims);
  }

  /** The preserved quirk: on a 1x1x1x2 grid, index 1 decodes to the origin. */
  lemma DecodeQuirkExample()
    ensures PixelIndexToPixelCoords(1, Dimensions(1, 1, 1, 2)) == PixelCoords(0, 0, 0, 0)
    ensures PixelCoordsToPixelIndex(PixelIndexToPixelCoords(1, Dimensions(1, 1, 1, 2)), Dimensions(1, 1, 1, 2)) == 0
  {
  }

  /** Index 0 is the origin, and the origin is index 0. */
  lemma OriginIsIndexZero(dims: Dimensions)
    requires dims.Valid()
    ensures PixelIndexToPixelCoords(0, dims) == PixelCoords(0, 0, 0, 0)
    ensures PixelCoordsToPixelIndex(PixelCoords(0, 0, 0, 0), dims) == 0
  {
    IndexDigits(0, dims);
  }
}
