// The extents of the four-dimensional texture grid (x, y, z, w) and the
// per-axis Gaussian widths.
module Dims {
  import opened MathLemmas

  datatype Dimensions = Dimensions(x: nat, y: nat, z: nat, w: nat)
  {
    /** Every extent is at least one, which all grid operations assume. */
    predicate Valid()
    {
      x >= 1 && y >= 1 && z >= 1 && w >= 1
    }

    function Get(axis: nat): nat
      requires axis < 4
    {
      match axis
      case 0 => x
      case 1 => y
      case 2 => z
      case 3 => w
    }

    function NumPixels(): nat
    {
      x * y * z * w
    }
  }

  datatype SigmaPerDimension = SigmaPerDimension(x: real, y: real, z: real, w: real)

  /** The component-wise comparison behind `operator==` on sigmas. */
  function SigmasEqual(a: SigmaPerDimension, b: SigmaPerDimension): (r: bool)
    ensures r <==> a == b
  {
    a.x == b.x && a.y == b.y && a.z == b.z && a.w == b.w
  }

  lemma NumPixelsPositive(d: Dimensions)
    requires d.Valid()
    ensures d.NumPixels() >= 1
    ensures d.x * d.y >= 1 && d.z * d.w >= 1
    ensures d.NumPixels() == (d.x * d.y) * (d.z * d.w)
  {
    Prod4Positive(d.x, d.y, d.z, d.w);
    PosMul(d.x, d.y);
    PosMul(d.z, d.w);
    Prod4Assoc(d.x, d.y, d.z, d.w);
  }

  /** The divisors used when decoding a pixel index are all positive. */
  lemma DivisorsPositive(d: Dimensions)
    requires d.Valid()
    ensures d.x * d.y >= 1 && d.x * d.y * d.z >= 1 && d.x * d.y * d.z * d.y >= 1
  {
    Prod3Positive(d.x, d.y, d.z);
    Prod4Positive(d.x, d.y, d.z, d.y);
  }
}
