// The extents of a three-dimensional texture grid, as the vector tool uses them.
module Dims3D {
  import opened MathLemmas

  datatype Dimensions3D = Dimensions3D(x: nat, y: nat, z: nat)
  {
    /** Every extent is at least one, which index decoding assumes. */
    predicate Valid()
    {
      x >= 1 && y >= 1 && z >= 1
    }

    /** The pixel count: zero exactly when some extent is, and otherwise at least every extent. */
    function NumPixels(): (r: nat)
      ensures r == 0 <==> x == 0 || y == 0 || z == 0
      ensures r > 0 ==> x <= r && y <= r && z <= r
    {
      if x >= 1 && y >= 1 && z >= 1 then
        PosMul(x, y);
        PosMul(x * y, z);
        x * y * z
      else
        x * y * z
    }
  }

  /** `operator==`: the component-wise comparison, which is equality of the dimensions. */
  function DimsEqual(a: Dimensions3D, b: Dimensions3D): (r: bool)
    ensures r <==> a == b
  {
    a.x == b.x && a.y == b.y && a.z == b.z
  }

  /** The comparison is reflexive and symmetric, and equal dimensions have equal pixel counts. */
  lemma DimsEqualProperties(a: Dimensions3D, b: Dimensions3D)
    ensures DimsEqual(a, a)
    ensures DimsEqual(a, b) == DimsEqual(b, a)
    ensures DimsEqual(a, b) ==> a.NumPixels() == b.NumPixels()
  {
  }
}
