// Conversion between 3D pixel coordinates and the linear pixel index (x
// fastest, then y, then z), as the vector tool uses it. Unlike the 4D
// scalar version, every digit is taken with its own extent.
module Coords3D {
  import opened Dims3D
  import opened MathLemmas

  datatype PixelCoords3D = PixelCoords3D(x: nat, y: nat, z: nat)
  {
    predicate InRange(dims: Dimensions3D)
    {
      x < dims.x && y < dims.y && z < dims.z
    }
  }

  /** Horner evaluation z, y, x of the mixed-radix index. */
  function PixelCoords3DToPixelIndex(c: PixelCoords3D, dims: Dimensions3D): nat
  {
    (c.z * dims.y + c.y) * dims.x + c.x
  }

  function PixelIndexToPixelCoords3D(pixelIndex: nat, dims: Dimensions3D): PixelCoords3D
    requires dims.Valid()
  {
    Prod3Positive(dims.x, dims.y, dims.z);
    DigitNat(pixelIndex, dims.x, 1);
    DigitNat(pixelIndex, dims.x * dims.y, dims.x);
    DigitNat(pixelIndex, dims.x * dims.y * dims.z, dims.x * dims.y);
    PixelCoords3D(
      (pixelIndex % dims.x) / 1,
      (pixelIndex % (dims.x * dims.y)) / dims.x,
      (pixelIndex % (dims.x * dims.y * dims.z)) / (dims.x * dims.y))
  }

  /** The decoded coordinates are the digits of successive divisions. */
  lemma Digits3D(i: nat, dims: Dimensions3D)
    requires dims.Valid()
    ensures var c := PixelIndexToPixelCoords3D(i, dims);
      && c.x == i % dims.x
      && c.y == (i / dims.x) % dims.y
      && c.z == ((i / dims.x) / dims.y) % dims.z
  {
    var x, y, z := dims.x, dims.y, dims.z;
    ModDiv(i, x, y);
    ModDiv(i, x * y, z);
    DivDiv(i, x, y);
  }

  /** In-range coordinates give an index inside the grid. */
  lemma CoordsToIndexBound3D(c: PixelCoords3D, dims: Dimensions3D)
    requires c.InRange(dims)
    ensures PixelCoords3DToPixelIndex(c, dims) < dims.NumPixels()
  {
    var x, y, z := dims.x, dims.y, dims.z;
    MixedRadixBound(c.z, z, c.y, y);
    MixedRadixBound(c.z * y + c.y, z * y, c.x, x);
    assert (z * y) * x == x * y * z;
  }

  /** Inside the grid, the quotient by x and y is below z. */
  lemma TopDigitBound3D(i: nat, dims: Dimensions3D)
    requires dims.Valid() && i < dims.NumPixels()
    ensures (i / dims.x) / dims.y < dims.z
  {
    DivDiv(i, dims.x, dims.y);
    DivBound(i, dims.x * dims.y, dims.z);
  }

  /** Every index inside the grid decodes to coordinates inside the grid. */
  lemma IndexToCoordsInRange3D(i: nat, dims: Dimensions3D)
    requires dims.Valid() && i < dims.NumPixels()
    ensures PixelIndexToPixelCoords3D(i, dims).InRange(dims)
  {
    TopDigitBound3D(i, dims);
    InRangeGivenTopDigit3D(i, dims);
  }

  lemma InRangeGivenTopDigit3D(i: nat, dims: Dimensions3D)
    requires dims.Valid() && (i / dims.x) / dims.y < dims.z
    ensures PixelIndexToPixelCoords3D(i, dims).InRange(dims)
  {
    Digits3D(i, dims);
    ModBound(i, dims.x);
    ModBound(i / dims.x, dims.y);
    ModOfSmall((i / dims.x) / dims.y, dims.z);
  }

  /** Index -> coordinates -> index is the identity on the grid. */
  lemma IndexRoundTrip3D(i: nat, dims: Dimensions3D)
    requires dims.Valid() && i < dims.NumPixels()
    ensures PixelCoords3DToPixelIndex(PixelIndexToPixelCoords3D(i, dims), dims) == i
  {
    TopDigitBound3D(i, dims);
    RoundTripGivenTopDigit3D(i, dims);
  }

  lemma RoundTripGivenTopDigit3D(i: nat, dims: Dimensions3D)
    requires dims.Valid() && (i / dims.x) / dims.y < dims.z
    ensures PixelCoords3DToPixelIndex(PixelIndexToPixelCoords3D(i, dims), dims) == i
  {
    ModOfSmall((i / dims.x) / dims.y, dims.z);
    Digits3D(i, dims);
    RoundTripOfDigits3D(i, dims, PixelIndexToPixelCoords3D(i, dims));
  }

  /** Coordinates that are the digits of `i` encode back to `i`. */
  lemma RoundTripOfDigits3D(i: nat, dims: Dimensions3D, c: PixelCoords3D)
    requires dims.Valid()
    requires c.x == i % dims.x && c.y == (i / dims.x) % dims.y && c.z == (i / dims.x) / dims.y
    ensures PixelCoords3DToPixelIndex(c, dims) == i
  {
    Recompose3(i, dims.x, dims.y, c.x, c.y, c.z);
  }

  /** Coordinates -> index -> coordinates is the identity for in-range coordinates. */
  lemma CoordsRoundTrip3D(c: PixelCoords3D, dims: Dimensions3D)
    requires dims.Valid() && c.InRange(dims)
    ensures PixelIndexToPixelCoords3D(PixelCoords3DToPixelIndex(c, dims), dims) == c
  {
    var x, y, z := dims.x, dims.y, dims.z;
    var t := c.z * y + c.y;
    var i := PixelCoords3DToPixelIndex(c, dims);
    DivModUnique(i, x, t, c.x);
    DivModUnique(t, y, c.z, c.y);
    Digits3D(i, dims);
    ModOfSmall(c.z, z);
  }

  /** Index 0 is the origin, and the origin is index 0. */
  lemma OriginIsIndexZero3D(dims: Dimensions3D)
    requires dims.Valid()
    ensures PixelIndexToPixelCoords3D(0, dims) == PixelCoords3D(0, 0, 0)
    ensures PixelCoords3DToPixelIndex(PixelCoords3D(0, 0, 0), dims) == 0
  {
    Digits3D(0, dims);
  }
}
