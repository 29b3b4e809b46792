// The shared state of a scalar spatiotemporal blue-noise run: per pixel an
// energy, an on/off flag and a rank (numPixels meaning "not ranked yet"),
// together with the facts about on/off patterns that the algorithm uses.
module Data {
  import opened Dims

  class STBNData {
    const dimensions: Dimensions
    const numPixels: nat
    var energy: seq<real>
    var pixelOn: seq<bool>
    var pixelRank: seq<nat>

    /** Every per-pixel vector has one entry per pixel of the grid. */
    ghost predicate Valid()
      reads this
    {
      numPixels == dimensions.NumPixels()
      && |energy| == numPixels && |pixelOn| == numPixels && |pixelRank| == numPixels
    }

    constructor (dims: Dimensions)
      ensures Valid() && dimensions == dims
      ensures energy == seq(numPixels, _ => 0.0)
      ensures pixelOn == seq(numPixels, _ => false)
      ensures pixelRank == seq(numPixels, _ => numPixels)
    {
      dimensions := dims;
      numPixels := dims.x * dims.y * dims.z * dims.w;
      new;
      energy := seq(numPixels, _ => 0.0);
      pixelOn := seq(numPixels, _ => false);
      pixelRank := seq(numPixels, _ => numPixels);
    }
  }

  /** `operator==`: two states are equal when all their fields are. */
  predicate DataEqual(a: STBNData, b: STBNData)
    reads a, b
  {
    a.dimensions == b.dimensions && a.numPixels == b.numPixels
    && a.energy == b.energy && a.pixelOn == b.pixelOn && a.pixelRank == b.pixelRank
  }

  /** Two freshly constructed states over the same grid compare equal, and a state equals itself. */
  method FreshStatesAreEqual(dims: Dimensions) returns (a: STBNData, b: STBNData)
    ensures fresh(a) && fresh(b) && a != b
    ensures DataEqual(a, a) && DataEqual(a, b)
  {
    a := new STBNData(dims);
    b := new STBNData(dims);
  }

  // ---- on/off patterns ----

  /** The number of pixels that are on. */
  function Count(on: seq<bool>): (r: nat)
    ensures r <= |on|
  {
    if on == [] then 0 else Count(on[..|on| - 1]) + (if on[|on| - 1] then 1 else 0)
  }

  predicate AnyOn(on: seq<bool>)
  {
    exists j :: 0 <= j < |on| && on[j]
  }

  predicate AnyOff(on: seq<bool>)
  {
    exists j :: 0 <= j < |on| && !on[j]
  }

  lemma {:induction false} CountPositive(on: seq<bool>)
    ensures Count(on) > 0 <==> AnyOn(on)
  {
    if on != [] {
      var n := |on| - 1;
      CountPositive(on[..n]);
      if AnyOn(on[..n]) {
        var j :| 0 <= j < n && on[..n][j];
        assert on[j];
      }
      if AnyOn(on) && !on[n] {
        var j :| 0 <= j < |on| && on[j];
        assert on[..n][j];
      }
    }
  }

  lemma {:induction false} CountBelowLength(on: seq<bool>)
    ensures Count(on) < |on| <==> AnyOff(on)
  {
    if on != [] {
      var n := |on| - 1;
      CountBelowLength(on[..n]);
      if AnyOff(on[..n]) {
        var j :| 0 <= j < n && !on[..n][j];
        assert !on[j];
      }
      if AnyOff(on) && on[n] {
        var j :| 0 <= j < |on| && !on[j];
        assert !on[..n][j];
      }
    }
  }

  /** Changing one flag changes the count by the difference of the flags. */
  lemma {:induction false} CountUpdate(on: seq<bool>, i: nat, b: bool)
    requires i < |on|
    ensures Count(on[i := b]) == Count(on) - (if on[i] then 1 else 0) + (if b then 1 else 0)
  {
    var n := |on| - 1;
    if i == n {
      assert on[i := b][..n] == on[..n];
    } else {
      assert on[i := b][..n] == on[..n][i := b];
      CountUpdate(on[..n], i, b);
    }
  }

  function Inverted(on: seq<bool>): (r: seq<bool>)
    ensures |r| == |on| && forall i :: 0 <= i < |on| ==> r[i] == !on[i]
  {
    seq(|on|, i requires 0 <= i < |on| => !on[i])
  }

  lemma {:induction false} CountInverted(on: seq<bool>)
    ensures Count(Inverted(on)) == |on| - Count(on)
  {
    if on != [] {
      var n := |on| - 1;
      assert Inverted(on)[..n] == Inverted(on[..n]);
      CountInverted(on[..n]);
    }
  }

  lemma {:induction false} CountAllOff(on: seq<bool>)
    requires forall i :: 0 <= i < |on| ==> !on[i]
    ensures Count(on) == 0
  {
    if on != [] {
      CountAllOff(on[..|on| - 1]);
    }
  }

  // ---- the extremes the queries look for ----

  /** A running extreme: the -FLT_MAX / FLT_MAX starting values, or an energy seen. */
  datatype Bound = NegInf | Finite(value: real) | PosInf

  /** `b < e`. */
  predicate Below(b: Bound, e: real)
  {
    b.NegInf? || (b.Finite? && b.value < e)
  }

  /** `e < b`. */
  predicate Above(b: Bound, e: real)
  {
    b.PosInf? || (b.Finite? && e < b.value)
  }

  /** `c` is an on pixel whose energy no other on pixel exceeds. */
  predicate IsTightestCluster(energy: seq<real>, on: seq<bool>, c: nat)
    requires |energy| == |on|
  {
    c < |on| && on[c] && forall j :: 0 <= j < |on| && on[j] ==> energy[j] <= energy[c]
  }

  /** `v` is an off pixel whose energy no other off pixel undercuts. */
  predicate IsLargestVoid(energy: seq<real>, on: seq<bool>, v: nat)
    requires |energy| == |on|
  {
    v < |on| && !on[v] && forall j :: 0 <= j < |on| && !on[j] ==> energy[v] <= energy[j]
  }

  /** A tightest cluster that no earlier on pixel ties: the one a forward scan keeps. */
  predicate IsFirstTightestCluster(energy: seq<real>, on: seq<bool>, c: nat)
    requires |energy| == |on|
  {
    IsTightestCluster(energy, on, c) && forall j :: 0 <= j < c && on[j] ==> energy[j] < energy[c]
  }

  predicate IsFirstLargestVoid(energy: seq<real>, on: seq<bool>, v: nat)
    requires |energy| == |on|
  {
    IsLargestVoid(energy, on, v) && forall j :: 0 <= j < v && !on[j] ==> energy[v] < energy[j]
  }

  /** The query contract: some tightest cluster if any pixel is on, else index 0. */
  predicate ClusterAnswer(energy: seq<real>, on: seq<bool>, c: nat)
    requires |energy| == |on|
  {
    if AnyOn(on) then IsTightestCluster(energy, on, c) else c == 0
  }

  predicate VoidAnswer(energy: seq<real>, on: seq<bool>, v: nat)
    requires |energy| == |on|
  {
    if AnyOff(on) then IsLargestVoid(energy, on, v) else v == 0
  }

  /**
   * Two correct cluster answers differ at most in the tie: they have the same
   * energy, and they are the same pixel when only one on pixel has that energy.
   */
  lemma ClusterAnswersAgree(energy: seq<real>, on: seq<bool>, c1: nat, c2: nat)
    requires |energy| == |on|
    requires ClusterAnswer(energy, on, c1) && ClusterAnswer(energy, on, c2)
    ensures AnyOn(on) ==> energy[c1] == energy[c2]
    ensures (forall j :: 0 <= j < |on| && on[j] && j != c1 ==> energy[j] < energy[c1]) ==> c1 == c2
  {
    if !AnyOn(on) {
      assert c1 == 0 == c2;
    }
  }

  lemma VoidAnswersAgree(energy: seq<real>, on: seq<bool>, v1: nat, v2: nat)
    requires |energy| == |on|
    requires VoidAnswer(energy, on, v1) && VoidAnswer(energy, on, v2)
    ensures AnyOff(on) ==> energy[v1] == energy[v2]
    ensures (forall j :: 0 <= j < |on| && !on[j] && j != v1 ==> energy[v1] < energy[j]) ==> v1 == v2
  {
    if !AnyOff(on) {
      assert v1 == 0 == v2;
    }
  }
}
