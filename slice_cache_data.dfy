// The per-slice cache of the slice-cache strategy. The grid is cut into z-w
// slices of x*y consecutive pixels; for every slice the cache keeps the
// greatest energy of its on pixels and the least energy of its off pixels,
// each with the pixel holding it and a dirty flag that says the entry must be
// recomputed before use.
module SliceCacheData {
  import opened Dims
  import opened Coords
  import opened Data
  import opened Splat
  import opened MathLemmas

  /** Pixel `i` lies in slice `s` of slices that are `size` pixels long. */
  predicate InSlice(i: nat, s: nat, size: nat)
  {
    size > 0 && i / size == s
  }

  /** Slice `s` is the range of indices `[s * size, s * size + size)`. */
  lemma SliceRange(i: nat, s: nat, size: nat)
    requires size > 0
    ensures InSlice(i, s, size) <==> s * size <= i < s * size + size
  {
    if s * size <= i < s * size + size {
      DivModUnique(i, size, s, i - s * size);
    }
    if i / size == s {
      assert i == (i / size) * size + i % size;
    }
  }

  /**
   * A clean max entry: `-FLT_MAX` when the slice has no on pixel, otherwise
   * an on pixel of the slice whose energy no on pixel of the slice exceeds.
   */
  predicate MaxEntryOk(energy: seq<real>, on: seq<bool>, size: nat, s: nat, value: Bound, index: nat)
    requires |energy| == |on|
  {
    match value
    case NegInf => forall i :: 0 <= i < |on| && InSlice(i, s, size) ==> !on[i]
    case Finite(v) =>
      && index < |on| && InSlice(index, s, size) && on[index] && energy[index] == v
      && forall i :: 0 <= i < |on| && InSlice(i, s, size) && on[i] ==> energy[i] <= v
    case PosInf => false
  }

  /** A clean min entry: the mirror image over the off pixels, with `FLT_MAX` for none. */
  predicate MinEntryOk(energy: seq<real>, on: seq<bool>, size: nat, s: nat, value: Bound, index: nat)
    requires |energy| == |on|
  {
    match value
    case PosInf => forall i :: 0 <= i < |on| && InSlice(i, s, size) ==> on[i]
    case Finite(v) =>
      && index < |on| && InSlice(index, s, size) && !on[index] && energy[index] == v
      && forall i :: 0 <= i < |on| && InSlice(i, s, size) && !on[i] ==> v <= energy[i]
    case NegInf => false
  }

  /** Every clean max entry is right. */
  predicate MaxSideOk(size: nat, dirty: seq<bool>, value: seq<Bound>, index: seq<nat>, energy: seq<real>, on: seq<bool>)
    requires |energy| == |on| && |dirty| == |value| == |index|
  {
    forall s :: 0 <= s < |dirty| && !dirty[s] ==> MaxEntryOk(energy, on, size, s, value[s], index[s])
  }

  /** Every clean min entry is right. */
  predicate MinSideOk(size: nat, dirty: seq<bool>, value: seq<Bound>, index: seq<nat>, energy: seq<real>, on: seq<bool>)
    requires |energy| == |on| && |dirty| == |value| == |index|
  {
    forall s :: 0 <= s < |dirty| && !dirty[s] ==> MinEntryOk(energy, on, size, s, value[s], index[s])
  }

  class SliceCacheData2Dx1Dx1D {
    const dims: Dimensions
    const sliceSizeXY: nat
    const numSlicesXY: nat
    var dirtyMax: seq<bool>
    var maxValue: seq<Bound>
    var maxValueIndex: seq<nat>
    var dirtyMin: seq<bool>
    var minValue: seq<Bound>
    var minValueIndex: seq<nat>

    /** One entry of each vector per slice. */
    ghost predicate Valid()
      reads this
    {
      sliceSizeXY == dims.x * dims.y && numSlicesXY == dims.z * dims.w
      && |dirtyMax| == numSlicesXY && |maxValue| == numSlicesXY && |maxValueIndex| == numSlicesXY
      && |dirtyMin| == numSlicesXY && |minValue| == numSlicesXY && |minValueIndex| == numSlicesXY
    }

    /** Every entry starts dirty, with the `-FLT_MAX` / `FLT_MAX` sentinels and index 0. */
    constructor (dimensions: Dimensions)
      ensures Valid() && dims == dimensions
      ensures dirtyMax == seq(numSlicesXY, _ => true) && dirtyMin == seq(numSlicesXY, _ => true)
      ensures maxValue == seq(numSlicesXY, _ => NegInf) && minValue == seq(numSlicesXY, _ => PosInf)
      ensures maxValueIndex == seq(numSlicesXY, _ => 0) && minValueIndex == seq(numSlicesXY, _ => 0)
    {
      dims := dimensions;
      sliceSizeXY := dimensions.x * dimensions.y;
      numSlicesXY := dimensions.z * dimensions.w;
      new;
      dirtyMax := seq(numSlicesXY, _ => true);
      maxValue := seq(numSlicesXY, _ => NegInf);
      maxValueIndex := seq(numSlicesXY, _ => 0);
      dirtyMin := seq(numSlicesXY, _ => true);
      minValue := seq(numSlicesXY, _ => PosInf);
      minValueIndex := seq(numSlicesXY, _ => 0);
    }

    /** The cache invariant: every clean entry is right for these energies and flags. */
    ghost predicate Correct(energy: seq<real>, on: seq<bool>)
      reads this
      requires Valid() && |energy| == |on|
    {
      MaxSideOk(sliceSizeXY, dirtyMax, maxValue, maxValueIndex, energy, on)
      && MinSideOk(sliceSizeXY, dirtyMin, minValue, minValueIndex, energy, on)
    }
  }

  /** With every flag dirty the invariant holds whatever the energies: the starting state. */
  lemma AllDirtyIsCorrect(cache: SliceCacheData2Dx1Dx1D, energy: seq<real>, on: seq<bool>)
    requires cache.Valid() && |energy| == |on|
    requires forall s :: 0 <= s < cache.numSlicesXY ==> cache.dirtyMax[s] && cache.dirtyMin[s]
    ensures cache.Correct(energy, on)
  {
  }

  // ---- one pixel's update keeps the entries right ----

  /** A change to a pixel outside slice `s` does not affect the slice's entries. */
  lemma EntryUnaffected(e0: seq<real>, on0: seq<bool>, e1: seq<real>, on1: seq<bool>, size: nat, s: nat,
                        value: Bound, index: nat, p: nat)
    requires |e0| == |on0| == |e1| == |on1| && p < |on0| && !InSlice(p, s, size)
    requires forall j :: 0 <= j < |on0| && j != p ==> e1[j] == e0[j] && on1[j] == on0[j]
    ensures MaxEntryOk(e0, on0, size, s, value, index) ==> MaxEntryOk(e1, on1, size, s, value, index)
    ensures MinEntryOk(e0, on0, size, s, value, index) ==> MinEntryOk(e1, on1, size, s, value, index)
  {
  }

  /** Raising one pixel of the slice: the max entry stays right, or moves to that pixel. */
  lemma MaxEntryRaised(e0: seq<real>, e1: seq<real>, on: seq<bool>, size: nat, s: nat, value: Bound, index: nat,
                       p: nat, w: real)
    requires |e0| == |on| && p < |on| && InSlice(p, s, size) && w >= 0.0
    requires e1 == e0[p := e0[p] + w] && MaxEntryOk(e0, on, size, s, value, index)
    ensures on[p] && Below(value, e1[p]) ==> MaxEntryOk(e1, on, size, s, Finite(e1[p]), p)
    ensures !(on[p] && Below(value, e1[p])) ==> MaxEntryOk(e1, on, size, s, value, index)
  {
    if on[p] && !Below(value, e1[p]) {
      assert value.Finite? && e1[p] <= value.value;
    }
  }

  /** Raising one pixel of the slice keeps the min entry right unless that pixel held the min. */
  lemma MinEntryRaised(e0: seq<real>, e1: seq<real>, on: seq<bool>, size: nat, s: nat, value: Bound, index: nat,
                       p: nat, w: real)
    requires |e0| == |on| && p < |on| && InSlice(p, s, size) && w >= 0.0
    requires e1 == e0[p := e0[p] + w] && MinEntryOk(e0, on, size, s, value, index)
    requires on[p] || value != Finite(e0[p])
    ensures MinEntryOk(e1, on, size, s, value, index)
  {
    if !on[p] {
      assert value.Finite? && value.value < e0[p];
    }
  }

  /** Lowering one pixel of the slice: the min entry stays right, or moves to that pixel. */
  lemma MinEntryLowered(e0: seq<real>, e1: seq<real>, on: seq<bool>, size: nat, s: nat, value: Bound, index: nat,
                        p: nat, w: real)
    requires |e0| == |on| && p < |on| && InSlice(p, s, size) && w >= 0.0
    requires e1 == e0[p := e0[p] - w] && MinEntryOk(e0, on, size, s, value, index)
    ensures !on[p] && Above(value, e1[p]) ==> MinEntryOk(e1, on, size, s, Finite(e1[p]), p)
    ensures !(!on[p] && Above(value, e1[p])) ==> MinEntryOk(e1, on, size, s, value, index)
  {
    if !on[p] && !Above(value, e1[p]) {
      assert value.Finite? && value.value <= e1[p];
    }
  }

  /** Lowering one pixel of the slice keeps the max entry right unless that pixel held the max. */
  lemma MaxEntryLowered(e0: seq<real>, e1: seq<real>, on: seq<bool>, size: nat, s: nat, value: Bound, index: nat,
                        p: nat, w: real)
    requires |e0| == |on| && p < |on| && InSlice(p, s, size) && w >= 0.0
    requires e1 == e0[p := e0[p] - w] && MaxEntryOk(e0, on, size, s, value, index)
    requires !on[p] || value != Finite(e0[p])
    ensures MaxEntryOk(e1, on, size, s, value, index)
  {
    if on[p] {
      assert value.Finite? && e0[p] < value.value;
    }
  }

  // ---- whole sides of the cache ----

  /** The on splat of one pixel of slice `s`: the max side after the possible raise of the slice's entry. */
  lemma MaxSideRaised(size: nat, dirty: seq<bool>, value: seq<Bound>, index: seq<nat>,
                      value1: seq<Bound>, index1: seq<nat>, e0: seq<real>, e1: seq<real>, on: seq<bool>,
                      p: nat, w: real, s: nat)
    requires |e0| == |on| && p < |on| && w >= 0.0 && InSlice(p, s, size)
    requires |dirty| == |value| == |index| && s < |dirty|
    requires e1 == e0[p := e0[p] + w] && MaxSideOk(size, dirty, value, index, e0, on)
    requires if !dirty[s] && on[p] && Below(value[s], e1[p])
             then value1 == value[s := Finite(e1[p])] && index1 == index[s := p]
             else value1 == value && index1 == index
    ensures MaxSideOk(size, dirty, value1, index1, e1, on)
  {
    forall t | 0 <= t < |dirty| && !dirty[t]
      ensures MaxEntryOk(e1, on, size, t, value1[t], index1[t])
    {
      if t == s {
        MaxEntryRaised(e0, e1, on, size, s, value[s], index[s], p, w);
      } else {
        EntryUnaffected(e0, on, e1, on, size, t, value[t], index[t], p);
      }
    }
  }

  /** The on splat of one pixel of slice `s`: the min side after the slice is dirtied if it lost its min. */
  lemma MinSideRaised(size: nat, dirty: seq<bool>, dirty1: seq<bool>, value: seq<Bound>, index: seq<nat>,
                      e0: seq<real>, e1: seq<real>, on: seq<bool>, p: nat, w: real, s: nat)
    requires |e0| == |on| && p < |on| && w >= 0.0 && InSlice(p, s, size)
    requires |dirty| == |value| == |index| && s < |dirty|
    requires e1 == e0[p := e0[p] + w] && MinSideOk(size, dirty, value, index, e0, on)
    requires dirty1 == if !dirty[s] && !on[p] && value[s] == Finite(e0[p]) then dirty[s := true] else dirty
    ensures MinSideOk(size, dirty1, value, index, e1, on)
  {
    forall t | 0 <= t < |dirty1| && !dirty1[t]
      ensures MinEntryOk(e1, on, size, t, value[t], index[t])
    {
      if t == s {
        MinEntryRaised(e0, e1, on, size, s, value[s], index[s], p, w);
      } else {
        EntryUnaffected(e0, on, e1, on, size, t, value[t], index[t], p);
      }
    }
  }

  /** The off splat of one pixel of slice `s`: the min side after the possible lowering of the slice's entry. */
  lemma MinSideLowered(size: nat, dirty: seq<bool>, value: seq<Bound>, index: seq<nat>,
                       value1: seq<Bound>, index1: seq<nat>, e0: seq<real>, e1: seq<real>, on: seq<bool>,
                       p: nat, w: real, s: nat)
    requires |e0| == |on| && p < |on| && w >= 0.0 && InSlice(p, s, size)
    requires |dirty| == |value| == |index| && s < |dirty|
    requires e1 == e0[p := e0[p] - w] && MinSideOk(size, dirty, value, index, e0, on)
    requires if !dirty[s] && !on[p] && Above(value[s], e1[p])
             then value1 == value[s := Finite(e1[p])] && index1 == index[s := p]
             else value1 == value && index1 == index
    ensures MinSideOk(size, dirty, value1, index1, e1, on)
  {
    forall t | 0 <= t < |dirty| && !dirty[t]
      ensures MinEntryOk(e1, on, size, t, value1[t], index1[t])
    {
      if t == s {
        MinEntryLowered(e0, e1, on, size, s, value[s], index[s], p, w);
      } else {
        EntryUnaffected(e0, on, e1, on, size, t, value[t], index[t], p);
      }
    }
  }

  /** The off splat of one pixel of slice `s`: the max side after the slice is dirtied if it lost its max. */
  lemma MaxSideLowered(size: nat, dirty: seq<bool>, dirty1: seq<bool>, value: seq<Bound>, index: seq<nat>,
                       e0: seq<real>, e1: seq<real>, on: seq<bool>, p: nat, w: real, s: nat)
    requires |e0| == |on| && p < |on| && w >= 0.0 && InSlice(p, s, size)
    requires |dirty| == |value| == |index| && s < |dirty|
    requires e1 == e0[p := e0[p] - w] && MaxSideOk(size, dirty, value, index, e0, on)
    requires dirty1 == if !dirty[s] && on[p] && value[s] == Finite(e0[p]) then dirty[s := true] else dirty
    ensures MaxSideOk(size, dirty1, value, index, e1, on)
  {
    forall t | 0 <= t < |dirty1| && !dirty1[t]
      ensures MaxEntryOk(e1, on, size, t, value[t], index[t])
    {
      if t == s {
        MaxEntryLowered(e0, e1, on, size, s, value[s], index[s], p, w);
      } else {
        EntryUnaffected(e0, on, e1, on, size, t, value[t], index[t], p);
      }
    }
  }

  /** Any change to one pixel of slice `s` keeps both sides right once the slice is dirtied. */
  lemma SidesDirtied(size: nat, dirtyMax: seq<bool>, maxValue: seq<Bound>, maxIndex: seq<nat>,
                     dirtyMin: seq<bool>, minValue: seq<Bound>, minIndex: seq<nat>,
                     e0: seq<real>, on0: seq<bool>, e1: seq<real>, on1: seq<bool>, p: nat, s: nat)
    requires |e0| == |on0| == |e1| == |on1| && p < |on0| && InSlice(p, s, size)
    requires |dirtyMax| == |maxValue| == |maxIndex| && |dirtyMin| == |minValue| == |minIndex|
    requires forall j :: 0 <= j < |on0| && j != p ==> e1[j] == e0[j] && on1[j] == on0[j]
    requires MaxSideOk(size, dirtyMax, maxValue, maxIndex, e0, on0)
    requires MinSideOk(size, dirtyMin, minValue, minIndex, e0, on0)
    ensures s < |dirtyMax| ==> MaxSideOk(size, dirtyMax[s := true], maxValue, maxIndex, e1, on1)
    ensures s < |dirtyMin| ==> MinSideOk(size, dirtyMin[s := true], minValue, minIndex, e1, on1)
  {
    forall t | 0 <= t < |dirtyMax| && t != s && !dirtyMax[t]
      ensures MaxEntryOk(e1, on1, size, t, maxValue[t], maxIndex[t])
    {
      EntryUnaffected(e0, on0, e1, on1, size, t, maxValue[t], maxIndex[t], p);
    }
    forall t | 0 <= t < |dirtyMin| && t != s && !dirtyMin[t]
      ensures MinEntryOk(e1, on1, size, t, minValue[t], minIndex[t])
    {
      EntryUnaffected(e0, on0, e1, on1, size, t, minValue[t], minIndex[t], p);
    }
  }

  /** Storing a recomputed, right entry for slice `s` and marking it clean keeps the max side right. */
  lemma MaxSideRepaired(size: nat, dirty: seq<bool>, value: seq<Bound>, index: seq<nat>,
                        energy: seq<real>, on: seq<bool>, s: nat, v: Bound, i: nat)
    requires |energy| == |on| && |dirty| == |value| == |index| && s < |dirty|
    requires MaxSideOk(size, dirty, value, index, energy, on) && MaxEntryOk(energy, on, size, s, v, i)
    ensures MaxSideOk(size, dirty[s := false], value[s := v], index[s := i], energy, on)
  {
  }

  lemma MinSideRepaired(size: nat, dirty: seq<bool>, value: seq<Bound>, index: seq<nat>,
                        energy: seq<real>, on: seq<bool>, s: nat, v: Bound, i: nat)
    requires |energy| == |on| && |dirty| == |value| == |index| && s < |dirty|
    requires MinSideOk(size, dirty, value, index, energy, on) && MinEntryOk(energy, on, size, s, v, i)
    ensures MinSideOk(size, dirty[s := false], value[s := v], index[s := i], energy, on)
  {
  }

  // ---- the queries over the slices ----

  /** `a < b` on energies extended by the two sentinels. */
  predicate Less(a: Bound, b: Bound)
  {
    match a
    case NegInf => !b.NegInf?
    case Finite(x) => b.PosInf? || (b.Finite? && x < b.value)
    case PosInf => false
  }

  /**
   * The running answer of a forward scan for the greatest on energy over the
   * indices `[lo, hi)`: `-FLT_MAX` and index 0 while no on pixel has been seen.
   */
  predicate RangeMax(energy: seq<real>, on: seq<bool>, lo: nat, hi: nat, best: Bound, idx: nat)
    requires |energy| == |on| && lo <= hi <= |on|
  {
    match best
    case NegInf => idx == 0 && forall i :: lo <= i < hi ==> !on[i]
    case Finite(v) =>
      && lo <= idx < hi && on[idx] && energy[idx] == v
      && forall i :: lo <= i < hi && on[i] ==> energy[i] <= v
    case PosInf => false
  }

  /** The mirror image: the least off energy, `FLT_MAX` and index 0 while no off pixel has been seen. */
  predicate RangeMin(energy: seq<real>, on: seq<bool>, lo: nat, hi: nat, best: Bound, idx: nat)
    requires |energy| == |on| && lo <= hi <= |on|
  {
    match best
    case PosInf => idx == 0 && forall i :: lo <= i < hi ==> on[i]
    case Finite(v) =>
      && lo <= idx < hi && !on[idx] && energy[idx] == v
      && forall i :: lo <= i < hi && !on[i] ==> v <= energy[i]
    case NegInf => false
  }

  /** A scan over exactly slice `s` yields a right max entry for it. */
  lemma RangeMaxIsEntry(energy: seq<real>, on: seq<bool>, size: nat, s: nat, best: Bound, idx: nat)
    requires |energy| == |on| && s * size + size <= |on|
    requires RangeMax(energy, on, s * size, s * size + size, best, idx)
    ensures MaxEntryOk(energy, on, size, s, best, idx)
  {
    if size > 0 {
      forall i | 0 <= i < |on|
        ensures InSlice(i, s, size) <==> s * size <= i < s * size + size
      {
        SliceRange(i, s, size);
      }
    }
  }

  lemma RangeMinIsEntry(energy: seq<real>, on: seq<bool>, size: nat, s: nat, best: Bound, idx: nat)
    requires |energy| == |on| && s * size + size <= |on|
    requires RangeMin(energy, on, s * size, s * size + size, best, idx)
    ensures MinEntryOk(energy, on, size, s, best, idx)
  {
    if size > 0 {
      forall i | 0 <= i < |on|
        ensures InSlice(i, s, size) <==> s * size <= i < s * size + size
      {
        SliceRange(i, s, size);
      }
    }
  }

  /** Folding slice `s`'s right entry into the answer over the slices before it, keeping the strictly greater. */
  lemma CombineMax(energy: seq<real>, on: seq<bool>, size: nat, s: nat, best: Bound, idx: nat,
                   sliceBest: Bound, sliceIdx: nat, best1: Bound, idx1: nat)
    requires |energy| == |on| && s * size + size <= |on|
    requires RangeMax(energy, on, 0, s * size, best, idx) && MaxEntryOk(energy, on, size, s, sliceBest, sliceIdx)
    requires if Less(best, sliceBest) then best1 == sliceBest && idx1 == sliceIdx else best1 == best && idx1 == idx
    ensures RangeMax(energy, on, 0, s * size + size, best1, idx1)
  {
    if size > 0 {
      forall i | s * size <= i < s * size + size
        ensures InSlice(i, s, size)
      {
        SliceRange(i, s, size);
      }
      SliceRange(sliceIdx, s, size);
    }
  }

  /** Folding slice `s`'s right entry into the void answer, keeping the strictly smaller. */
  lemma CombineMin(energy: seq<real>, on: seq<bool>, size: nat, s: nat, best: Bound, idx: nat,
                   sliceBest: Bound, sliceIdx: nat, best1: Bound, idx1: nat)
    requires |energy| == |on| && s * size + size <= |on|
    requires RangeMin(energy, on, 0, s * size, best, idx) && MinEntryOk(energy, on, size, s, sliceBest, sliceIdx)
    requires if Less(sliceBest, best) then best1 == sliceBest && idx1 == sliceIdx else best1 == best && idx1 == idx
    ensures RangeMin(energy, on, 0, s * size + size, best1, idx1)
  {
    if size > 0 {
      forall i | s * size <= i < s * size + size
        ensures InSlice(i, s, size)
      {
        SliceRange(i, s, size);
      }
      SliceRange(sliceIdx, s, size);
    }
  }

  /** The answer over every pixel is a correct cluster answer. */
  lemma MaxAnswer(energy: seq<real>, on: seq<bool>, best: Bound, idx: nat)
    requires |energy| == |on| && RangeMax(energy, on, 0, |on|, best, idx)
    ensures ClusterAnswer(energy, on, idx)
  {
  }

  lemma MinAnswer(energy: seq<real>, on: seq<bool>, best: Bound, idx: nat)
    requires |energy| == |on| && RangeMin(energy, on, 0, |on|, best, idx)
    ensures VoidAnswer(energy, on, idx)
  {
  }
}
