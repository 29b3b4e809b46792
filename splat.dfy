// A splat adds (on) or subtracts (off) kernel weights to the energies of the
// pixels around a centre. Every splat is described here as the ordered list of
// single-pixel updates it performs; both energy strategies must perform
// exactly these lists.
module Splat {
  import opened Dims
  import opened Coords
  import opened Kernel
  import opened MathLemmas

  datatype Update = Update(index: nat, delta: real)

  /** Every update names a pixel of a grid of `n` pixels. */
  predicate InBounds(us: seq<Update>, n: nat)
  {
    forall t :: 0 <= t < |us| ==> us[t].index < n
  }

  /**
   * The energies after performing the updates in order. (An update outside the
   * vector would be undefined behaviour; no splat produces one, see the
   * `...InBounds` lemmas, and `Apply` skips it.)
   */
  function Apply(e: seq<real>, us: seq<Update>): (r: seq<real>)
    ensures |r| == |e|
  {
    if us == [] then e
    else
      var prev := Apply(e, us[..|us| - 1]);
      var u := us[|us| - 1];
      if u.index < |prev| then prev[u.index := prev[u.index] + u.delta] else prev
  }

  /** The total added to pixel `j` by the updates. */
  function DeltaAt(us: seq<Update>, j: nat): real
  {
    if us == [] then 0.0
    else DeltaAt(us[..|us| - 1], j) + (if us[|us| - 1].index == j then us[|us| - 1].delta else 0.0)
  }

  function Negated(us: seq<Update>): (r: seq<Update>)
    ensures |r| == |us| && forall t :: 0 <= t < |us| ==> r[t] == Update(us[t].index, -us[t].delta)
  {
    seq(|us|, t requires 0 <= t < |us| => Update(us[t].index, -us[t].delta))
  }

  /** The value added by an on splat, subtracted by an off splat. */
  function Signed(on: bool, w: real): real
  {
    if on then w else -w
  }

  /** Each pixel ends with its old energy plus the total of its updates. */
  lemma {:induction false} ApplyAt(e: seq<real>, us: seq<Update>, j: nat)
    requires j < |e|
    ensures Apply(e, us)[j] == e[j] + DeltaAt(us, j)
  {
    if us != [] {
      ApplyAt(e, us[..|us| - 1], j);
    }
  }

  /** Applying one more update changes just its pixel. */
  lemma ApplySnoc(e: seq<real>, us: seq<Update>, u: Update)
    requires u.index < |e|
    ensures Apply(e, us + [u]) == Apply(e, us)[u.index := Apply(e, us)[u.index] + u.delta]
  {
    assert (us + [u])[..|us|] == us;
  }

  lemma DeltaAtSnoc(us: seq<Update>, u: Update, j: nat)
    ensures DeltaAt(us + [u], j) == DeltaAt(us, j) + (if u.index == j then u.delta else 0.0)
  {
    assert (us + [u])[..|us|] == us;
  }

  lemma {:induction false} DeltaAtConcat(a: seq<Update>, b: seq<Update>, j: nat)
    ensures DeltaAt(a + b, j) == DeltaAt(a, j) + DeltaAt(b, j)
  {
    if b == [] {
      assert a + b == a;
    } else {
      var n := |b| - 1;
      assert a + b == (a + b[..n]) + [b[n]];
      assert b == b[..n] + [b[n]];
      DeltaAtConcat(a, b[..n], j);
      DeltaAtSnoc(a + b[..n], b[n], j);
      DeltaAtSnoc(b[..n], b[n], j);
    }
  }

  /** Two lists in a row act as their concatenation. */
  lemma {:induction false} ApplyConcat(e: seq<real>, a: seq<Update>, b: seq<Update>)
    ensures Apply(e, a + b) == Apply(Apply(e, a), b)
  {
    if b != [] {
      var n := |b| - 1;
      assert (a + b)[..|a + b| - 1] == a + b[..n];
      ApplyConcat(e, a, b[..n]);
    } else {
      assert a + b == a;
    }
  }

  lemma {:induction false} DeltaAtNegated(us: seq<Update>, j: nat)
    ensures DeltaAt(Negated(us), j) == -DeltaAt(us, j)
  {
    if us != [] {
      var n := |us| - 1;
      assert Negated(us)[..n] == Negated(us[..n]);
      DeltaAtNegated(us[..n], j);
    }
  }

  /** Undoing a list of updates with the negated list restores every energy. */
  lemma ApplyThenUndo(e: seq<real>, us: seq<Update>)
    ensures Apply(Apply(e, us), Negated(us)) == e
  {
    var mid := Apply(e, us);
    var r := Apply(mid, Negated(us));
    forall j | 0 <= j < |e|
      ensures r[j] == e[j]
    {
      ApplyAt(e, us, j);
      ApplyAt(mid, Negated(us), j);
      DeltaAtNegated(us, j);
    }
  }

  // ---- toroidal neighbourhoods ----

  /**
   * Coordinate `c + o` wrapped onto an axis of the given width, computed as
   * `(c + o + width) % width`. That remainder has the meaning of the original
   * only for a non-negative `c + o + width`, which every splat requires.
   */
  function WrapCoord(c: nat, o: int, width: nat): (r: nat)
    ensures width >= 1 ==> r < width
  {
    if width == 0 then 0 else (c + o + width) % width
  }

  lemma WrapIsToroidal(c: nat, o: int, width: nat)
    requires width >= 1 && c + o + width >= 0
    ensures WrapCoord(c, o, width) == (c + o) % width
    ensures 0 <= c + o < width ==> WrapCoord(c, o, width) == c + o
  {
    ModAddPeriod(c + o, width);
    if 0 <= c + o < width {
      ModOfSmall(c + o, width);
    }
  }

  /** What a 1D splat along `axis` demands: a grid, a centre in it, a kernel whose offsets wrap at most once. */
  predicate SplatOk1D(dims: Dimensions, c: PixelCoords, axis: nat, k: SymmetricKernel)
  {
    dims.Valid() && c.InRange(dims) && axis < 4 && WellFormed(k)
    && c.Get(axis) + k.start + dims.Get(axis) >= 0
  }

  predicate SplatOk2D(dims: Dimensions, c: PixelCoords, outerAxis: nat, outer: SymmetricKernel,
                      innerAxis: nat, inner: SymmetricKernel)
  {
    SplatOk1D(dims, c, outerAxis, outer) && SplatOk1D(dims, c, innerAxis, inner)
  }

  /** The pixel reached from `c` by offset `o` along one axis. */
  function Offset1D(dims: Dimensions, c: PixelCoords, axis: nat, o: int): PixelCoords
    requires axis < 4
  {
    c.Set(axis, WrapCoord(c.Get(axis), o, dims.Get(axis)))
  }

  /** The pixel reached from `c` by offset `oy` on the outer axis and `ox` on the inner one. */
  function Offset2D(dims: Dimensions, c: PixelCoords, outerAxis: nat, innerAxis: nat, oy: int, ox: int)
    : PixelCoords
    requires outerAxis < 4 && innerAxis < 4
  {
    c.Set(outerAxis, WrapCoord(c.Get(outerAxis), oy, dims.Get(outerAxis)))
     .Set(innerAxis, WrapCoord(c.Get(innerAxis), ox, dims.Get(innerAxis)))
  }

  lemma Offset1DInRange(dims: Dimensions, c: PixelCoords, axis: nat, o: int)
    requires dims.Valid() && c.InRange(dims) && axis < 4
    ensures Offset1D(dims, c, axis, o).InRange(dims)
    ensures PixelCoordsToPixelIndex(Offset1D(dims, c, axis, o), dims) < dims.NumPixels()
  {
    var r := Offset1D(dims, c, axis, o);
    assert forall a :: 0 <= a < 4 ==> r.Get(a) < dims.Get(a);
    CoordsToIndexBound(r, dims);
  }

  lemma Offset2DInRange(dims: Dimensions, c: PixelCoords, outerAxis: nat, innerAxis: nat, oy: int, ox: int)
    requires dims.Valid() && c.InRange(dims) && outerAxis < 4 && innerAxis < 4
    ensures Offset2D(dims, c, outerAxis, innerAxis, oy, ox).InRange(dims)
    ensures PixelCoordsToPixelIndex(Offset2D(dims, c, outerAxis, innerAxis, oy, ox), dims) < dims.NumPixels()
  {
    var r := Offset2D(dims, c, outerAxis, innerAxis, oy, ox);
    assert forall a :: 0 <= a < 4 ==> r.Get(a) < dims.Get(a);
    CoordsToIndexBound(r, dims);
  }

  /** The update for offset `o` of a 1D splat. */
  function Update1D(dims: Dimensions, c: PixelCoords, axis: nat, k: SymmetricKernel, on: bool, o: int): Update
    requires axis < 4
  {
    Update(PixelCoordsToPixelIndex(Offset1D(dims, c, axis, o), dims), Signed(on, Weight(k, o)))
  }

  /** The updates for offsets `k.start` up to (excluding) `hi`, in loop order. */
  function Updates1DUpTo(dims: Dimensions, c: PixelCoords, axis: nat, k: SymmetricKernel, on: bool, hi: int)
    : (us: seq<Update>)
    requires axis < 4
  {
    seq(Max(0, hi - k.start), t => Update1D(dims, c, axis, k, on, k.start + t))
  }

  /** The next offset's update follows the ones before it. */
  lemma Updates1DUpToSnoc(dims: Dimensions, c: PixelCoords, axis: nat, k: SymmetricKernel, on: bool, hi: int)
    requires axis < 4 && hi >= k.start
    ensures Updates1DUpTo(dims, c, axis, k, on, hi + 1)
         == Updates1DUpTo(dims, c, axis, k, on, hi) + [Update1D(dims, c, axis, k, on, hi)]
  {
    var a := Updates1DUpTo(dims, c, axis, k, on, hi + 1);
    var b := Updates1DUpTo(dims, c, axis, k, on, hi) + [Update1D(dims, c, axis, k, on, hi)];
    assert |a| == |b|;
    forall t | 0 <= t < |a|
      ensures a[t] == b[t]
    {
      if t < |a| - 1 {
        assert b[t] == Updates1DUpTo(dims, c, axis, k, on, hi)[t];
      }
    }
  }

  /** A 1D splat along `axis`: one update per kernel offset, from `start` to `end`. */
  function Updates1D(dims: Dimensions, c: PixelCoords, axis: nat, k: SymmetricKernel, on: bool): seq<Update>
    requires axis < 4
  {
    Updates1DUpTo(dims, c, axis, k, on, k.end + 1)
  }

  /** A 1D splat has one update per offset, the `t`-th for offset `start + t`, with the kernel's weight. */
  lemma Updates1DAt(dims: Dimensions, c: PixelCoords, axis: nat, k: SymmetricKernel, on: bool, t: nat)
    requires SplatOk1D(dims, c, axis, k) && t <= k.end - k.start
    ensures |Updates1D(dims, c, axis, k, on)| == k.end - k.start + 1
    ensures Updates1D(dims, c, axis, k, on)[t]
         == Update(PixelCoordsToPixelIndex(Offset1D(dims, c, axis, k.start + t), dims),
                   Signed(on, k.kernel[Abs(k.start + t)]))
  {
    assert Updates1D(dims, c, axis, k, on)[t] == Update1D(dims, c, axis, k, on, k.start + t);
  }

  /** The update for offsets (`oy`, `ox`) of a 2D splat: weight inner * outer. */
  function Update2D(dims: Dimensions, c: PixelCoords, outerAxis: nat, outer: SymmetricKernel,
                    innerAxis: nat, inner: SymmetricKernel, on: bool, oy: int, ox: int): Update
    requires outerAxis < 4 && innerAxis < 4
  {
    Update(PixelCoordsToPixelIndex(Offset2D(dims, c, outerAxis, innerAxis, oy, ox), dims),
           Signed(on, Weight(inner, ox) * Weight(outer, oy)))
  }

  /** One row of a 2D splat: outer offset `oy`, inner offsets `inner.start` up to (excluding) `hi`. */
  function Row2DUpTo(dims: Dimensions, c: PixelCoords, outerAxis: nat, outer: SymmetricKernel,
                     innerAxis: nat, inner: SymmetricKernel, on: bool, oy: int, hi: int): seq<Update>
    requires outerAxis < 4 && innerAxis < 4
  {
    seq(Max(0, hi - inner.start), t => Update2D(dims, c, outerAxis, outer, innerAxis, inner, on, oy, inner.start + t))
  }

  lemma Row2DUpToSnoc(dims: Dimensions, c: PixelCoords, outerAxis: nat, outer: SymmetricKernel,
                      innerAxis: nat, inner: SymmetricKernel, on: bool, oy: int, hi: int)
    requires outerAxis < 4 && innerAxis < 4 && hi >= inner.start
    ensures Row2DUpTo(dims, c, outerAxis, outer, innerAxis, inner, on, oy, hi + 1)
         == Row2DUpTo(dims, c, outerAxis, outer, innerAxis, inner, on, oy, hi)
            + [Update2D(dims, c, outerAxis, outer, innerAxis, inner, on, oy, hi)]
  {
    var a := Row2DUpTo(dims, c, outerAxis, outer, innerAxis, inner, on, oy, hi + 1);
    var b := Row2DUpTo(dims, c, outerAxis, outer, innerAxis, inner, on, oy, hi)
             + [Update2D(dims, c, outerAxis, outer, innerAxis, inner, on, oy, hi)];
    assert |a| == |b|;
    forall t | 0 <= t < |a|
      ensures a[t] == b[t]
    {
      if t < |a| - 1 {
        assert b[t] == Row2DUpTo(dims, c, outerAxis, outer, innerAxis, inner, on, oy, hi)[t];
      }
    }
  }

  function Row2D(dims: Dimensions, c: PixelCoords, outerAxis: nat, outer: SymmetricKernel,
                 innerAxis: nat, inner: SymmetricKernel, on: bool, oy: int): seq<Update>
    requires outerAxis < 4 && innerAxis < 4
  {
    Row2DUpTo(dims, c, outerAxis, outer, innerAxis, inner, on, oy, inner.end + 1)
  }

  /** The rows for outer offsets `outer.start` up to (excluding) `hi`, in loop order. */
  function Updates2DUpTo(dims: Dimensions, c: PixelCoords, outerAxis: nat, outer: SymmetricKernel,
                         innerAxis: nat, inner: SymmetricKernel, on: bool, hi: int): seq<Update>
    requires outerAxis < 4 && innerAxis < 4
    decreases hi - outer.start
  {
    if hi <= outer.start then []
    else
      Updates2DUpTo(dims, c, outerAxis, outer, innerAxis, inner, on, hi - 1)
      + Row2D(dims, c, outerAxis, outer, innerAxis, inner, on, hi - 1)
  }

  /** A 2D splat: for each outer offset, every inner offset, weight inner * outer. */
  function Updates2D(dims: Dimensions, c: PixelCoords, outerAxis: nat, outer: SymmetricKernel,
                     innerAxis: nat, inner: SymmetricKernel, on: bool): seq<Update>
    requires outerAxis < 4 && innerAxis < 4
  {
    Updates2DUpTo(dims, c, outerAxis, outer, innerAxis, inner, on, outer.end + 1)
  }

  /** The `r`-th row of a 2D splat occupies positions `r * rowLength ..` of its updates. */
  lemma {:induction false} Updates2DUpToShape(dims: Dimensions, c: PixelCoords, outerAxis: nat,
                                              outer: SymmetricKernel, innerAxis: nat, inner: SymmetricKernel,
                                              on: bool, hi: int, r: nat, t: nat)
    requires outerAxis < 4 && innerAxis < 4 && inner.start <= inner.end + 1
    requires r < hi - outer.start && t < inner.end + 1 - inner.start
    ensures var n := inner.end + 1 - inner.start;
      var us := Updates2DUpTo(dims, c, outerAxis, outer, innerAxis, inner, on, hi);
      && |us| == (hi - outer.start) * n
      && r * n + t < |us|
      && us[r * n + t] == Update2D(dims, c, outerAxis, outer, innerAxis, inner, on, outer.start + r, inner.start + t)
    decreases hi - outer.start
  {
    var n := inner.end + 1 - inner.start;
    var prev := Updates2DUpTo(dims, c, outerAxis, outer, innerAxis, inner, on, hi - 1);
    var row := Row2D(dims, c, outerAxis, outer, innerAxis, inner, on, hi - 1);
    MulSucc(hi - 1 - outer.start, n);
    if r < hi - 1 - outer.start {
      Updates2DUpToShape(dims, c, outerAxis, outer, innerAxis, inner, on, hi - 1, r, t);
    } else {
      Updates2DUpToLength(dims, c, outerAxis, outer, innerAxis, inner, on, hi - 1);
    }
  }

  lemma {:induction false} Updates2DUpToLength(dims: Dimensions, c: PixelCoords, outerAxis: nat,
                                               outer: SymmetricKernel, innerAxis: nat, inner: SymmetricKernel,
                                               on: bool, hi: int)
    requires outerAxis < 4 && innerAxis < 4 && inner.start <= inner.end + 1 && hi >= outer.start
    ensures |Updates2DUpTo(dims, c, outerAxis, outer, innerAxis, inner, on, hi)|
         == (hi - outer.start) * (inner.end + 1 - inner.start)
    decreases hi - outer.start
  {
    if hi > outer.start {
      Updates2DUpToLength(dims, c, outerAxis, outer, innerAxis, inner, on, hi - 1);
      MulSucc(hi - 1 - outer.start, inner.end + 1 - inner.start);
    }
  }

  /**
   * A 2D splat has one update per pair of offsets, row by row: position
   * `r * n + t` (n inner offsets per row) is the update for outer offset
   * `start + r` and inner offset `start + t` (see `Update2DIs`).
   */
  lemma Updates2DAt(dims: Dimensions, c: PixelCoords, outerAxis: nat, outer: SymmetricKernel,
                    innerAxis: nat, inner: SymmetricKernel, on: bool, r: nat, t: nat)
    requires SplatOk2D(dims, c, outerAxis, outer, innerAxis, inner)
    requires r <= outer.end - outer.start && t <= inner.end - inner.start
    ensures var n := inner.end + 1 - inner.start;
      var us := Updates2D(dims, c, outerAxis, outer, innerAxis, inner, on);
      && |us| == (outer.end + 1 - outer.start) * n
      && r * n + t < |us|
      && us[r * n + t] == Update2D(dims, c, outerAxis, outer, innerAxis, inner, on, outer.start + r, inner.start + t)
  {
    Updates2DUpToShape(dims, c, outerAxis, outer, innerAxis, inner, on, outer.end + 1, r, t);
  }

  // ---- every update of a splat lands inside the grid ----

  lemma Updates1DUpToIndex(dims: Dimensions, c: PixelCoords, axis: nat, k: SymmetricKernel, on: bool, hi: int,
                           t: nat, p: nat)
    requires axis < 4 && t < hi - k.start && p == PixelCoordsToPixelIndex(Offset1D(dims, c, axis, k.start + t), dims)
    ensures Updates1DUpTo(dims, c, axis, k, on, hi)[t].index == p
  {
  }

  lemma Row2DUpToIndex(dims: Dimensions, c: PixelCoords, outerAxis: nat, outer: SymmetricKernel,
                       innerAxis: nat, inner: SymmetricKernel, on: bool, oy: int, hi: int, t: nat, p: nat)
    requires outerAxis < 4 && innerAxis < 4 && t < hi - inner.start
    requires p == PixelCoordsToPixelIndex(Offset2D(dims, c, outerAxis, innerAxis, oy, inner.start + t), dims)
    ensures Row2DUpTo(dims, c, outerAxis, outer, innerAxis, inner, on, oy, hi)[t].index == p
  {
  }

  lemma Updates1DUpToInBounds(dims: Dimensions, c: PixelCoords, axis: nat, k: SymmetricKernel,
                                                 on: bool, hi: int)
    requires dims.Valid() && c.InRange(dims) && axis < 4
    ensures InBounds(Updates1DUpTo(dims, c, axis, k, on, hi), dims.NumPixels())
  {
    var us := Updates1DUpTo(dims, c, axis, k, on, hi);
    forall t | 0 <= t < |us|
      ensures us[t].index < dims.NumPixels()
    {
      Offset1DInRange(dims, c, axis, k.start + t);
      Updates1DUpToIndex(dims, c, axis, k, on, hi, t, PixelCoordsToPixelIndex(Offset1D(dims, c, axis, k.start + t), dims));
    }
  }

  lemma Updates1DInBounds(dims: Dimensions, c: PixelCoords, axis: nat, k: SymmetricKernel, on: bool)
    requires dims.Valid() && c.InRange(dims) && axis < 4
    ensures InBounds(Updates1D(dims, c, axis, k, on), dims.NumPixels())
  {
    Updates1DUpToInBounds(dims, c, axis, k, on, k.end + 1);
  }

  lemma Row2DUpToInBounds(dims: Dimensions, c: PixelCoords, outerAxis: nat, outer: SymmetricKernel,
                                             innerAxis: nat, inner: SymmetricKernel, on: bool, oy: int, hi: int)
    requires dims.Valid() && c.InRange(dims) && outerAxis < 4 && innerAxis < 4
    ensures InBounds(Row2DUpTo(dims, c, outerAxis, outer, innerAxis, inner, on, oy, hi), dims.NumPixels())
  {
    var us := Row2DUpTo(dims, c, outerAxis, outer, innerAxis, inner, on, oy, hi);
    forall t | 0 <= t < |us|
      ensures us[t].index < dims.NumPixels()
    {
      Offset2DInRange(dims, c, outerAxis, innerAxis, oy, inner.start + t);
      Row2DUpToIndex(dims, c, outerAxis, outer, innerAxis, inner, on, oy, hi, t,
                     PixelCoordsToPixelIndex(Offset2D(dims, c, outerAxis, innerAxis, oy, inner.start + t), dims));
    }
  }

  lemma {:induction false} Updates2DUpToInBounds(dims: Dimensions, c: PixelCoords, outerAxis: nat,
                                                 outer: SymmetricKernel, innerAxis: nat, inner: SymmetricKernel,
                                                 on: bool, hi: int)
    requires dims.Valid() && c.InRange(dims) && outerAxis < 4 && innerAxis < 4
    ensures InBounds(Updates2DUpTo(dims, c, outerAxis, outer, innerAxis, inner, on, hi), dims.NumPixels())
    decreases hi - outer.start
  {
    if hi > outer.start {
      Updates2DUpToInBounds(dims, c, outerAxis, outer, innerAxis, inner, on, hi - 1);
      Row2DUpToInBounds(dims, c, outerAxis, outer, innerAxis, inner, on, hi - 1, inner.end + 1);
    }
  }

  lemma Updates2DInBounds(dims: Dimensions, c: PixelCoords, outerAxis: nat, outer: SymmetricKernel,
                          innerAxis: nat, inner: SymmetricKernel, on: bool)
    requires dims.Valid() && c.InRange(dims) && outerAxis < 4 && innerAxis < 4
    ensures InBounds(Updates2D(dims, c, outerAxis, outer, innerAxis, inner, on), dims.NumPixels())
  {
    Updates2DUpToInBounds(dims, c, outerAxis, outer, innerAxis, inner, on, outer.end + 1);
  }

  // ---- one step of the splat loops ----

  /** Applying one more update to an applied prefix. */
  lemma ApplyNext(e0: seq<real>, energy: seq<real>, prefix: seq<Update>, next: seq<Update>, p: nat, w: real)
    requires energy == Apply(e0, prefix) && next == prefix + [Update(p, w)] && p < |e0|
    ensures p < |energy| && Apply(e0, next) == energy[p := energy[p] + w]
  {
    ApplySnoc(e0, prefix, Update(p, w));
  }

  /** The update for offset `iz` is the pixel `p` inside the grid, with the kernel's weight. */
  lemma Updates1DNext(dims: Dimensions, c: PixelCoords, axis: nat, k: SymmetricKernel, on: bool, iz: int, p: nat)
    requires SplatOk1D(dims, c, axis, k) && k.start <= iz <= k.end
    requires p == PixelCoordsToPixelIndex(Offset1D(dims, c, axis, iz), dims)
    ensures p < dims.NumPixels()
    ensures Updates1DUpTo(dims, c, axis, k, on, iz + 1)
         == Updates1DUpTo(dims, c, axis, k, on, iz) + [Update(p, Signed(on, k.kernel[Abs(iz)]))]
  {
    Offset1DInRange(dims, c, axis, iz);
    Updates1DUpToSnoc(dims, c, axis, k, on, iz);
  }

  /** Performing the update for offset `iz` extends the applied prefix by one. */
  lemma Splat1DStep(e0: seq<real>, energy: seq<real>, dims: Dimensions, c: PixelCoords, axis: nat,
                    k: SymmetricKernel, on: bool, iz: int, p: nat)
    requires SplatOk1D(dims, c, axis, k) && k.start <= iz <= k.end && |e0| == dims.NumPixels()
    requires p == PixelCoordsToPixelIndex(Offset1D(dims, c, axis, iz), dims)
    requires energy == Apply(e0, Updates1DUpTo(dims, c, axis, k, on, iz))
    ensures p < |energy|
    ensures Apply(e0, Updates1DUpTo(dims, c, axis, k, on, iz + 1)) == energy[p := energy[p] + Signed(on, k.kernel[Abs(iz)])]
  {
    Updates1DNext(dims, c, axis, k, on, iz, p);
    ApplyNext(e0, energy, Updates1DUpTo(dims, c, axis, k, on, iz), Updates1DUpTo(dims, c, axis, k, on, iz + 1),
              p, Signed(on, k.kernel[Abs(iz)]));
  }

  /** The update for offsets (`iy`, `ix`) is the pixel `p` inside the grid, with weight `kernelX * kernelY`. */
  lemma Row2DNext(done: seq<Update>, dims: Dimensions, c: PixelCoords, outerAxis: nat, outer: SymmetricKernel,
                  innerAxis: nat, inner: SymmetricKernel, on: bool, iy: int, ix: int,
                  kernelX: real, kernelY: real, p: nat)
    requires SplatOk2D(dims, c, outerAxis, outer, innerAxis, inner)
    requires outer.start <= iy <= outer.end && inner.start <= ix <= inner.end
    requires kernelX == inner.kernel[Abs(ix)] && kernelY == outer.kernel[Abs(iy)]
    requires p == PixelCoordsToPixelIndex(Offset2D(dims, c, outerAxis, innerAxis, iy, ix), dims)
    ensures p < dims.NumPixels()
    ensures done + Row2DUpTo(dims, c, outerAxis, outer, innerAxis, inner, on, iy, ix + 1)
         == (done + Row2DUpTo(dims, c, outerAxis, outer, innerAxis, inner, on, iy, ix))
            + [Update(p, Signed(on, kernelX * kernelY))]
  {
    Offset2DInRange(dims, c, outerAxis, innerAxis, iy, ix);
    Update2DIs(dims, c, outerAxis, outer, innerAxis, inner, on, iy, ix, kernelX, kernelY);
    Row2DUpToSnoc(dims, c, outerAxis, outer, innerAxis, inner, on, iy, ix);
    SnocConcat(done, Row2DUpTo(dims, c, outerAxis, outer, innerAxis, inner, on, iy, ix),
               Update(p, Signed(on, kernelX * kernelY)));
  }

  lemma Splat2DStep(e0: seq<real>, energy: seq<real>, done: seq<Update>, dims: Dimensions, c: PixelCoords,
                    outerAxis: nat, outer: SymmetricKernel, innerAxis: nat, inner: SymmetricKernel,
                    on: bool, iy: int, ix: int, kernelX: real, kernelY: real, p: nat)
    requires SplatOk2D(dims, c, outerAxis, outer, innerAxis, inner) && |e0| == dims.NumPixels()
    requires outer.start <= iy <= outer.end && inner.start <= ix <= inner.end
    requires kernelX == inner.kernel[Abs(ix)] && kernelY == outer.kernel[Abs(iy)]
    requires p == PixelCoordsToPixelIndex(Offset2D(dims, c, outerAxis, innerAxis, iy, ix), dims)
    requires energy == Apply(e0, done + Row2DUpTo(dims, c, outerAxis, outer, innerAxis, inner, on, iy, ix))
    ensures p < |energy|
    ensures Apply(e0, done + Row2DUpTo(dims, c, outerAxis, outer, innerAxis, inner, on, iy, ix + 1))
         == energy[p := energy[p] + Signed(on, kernelX * kernelY)]
  {
    Row2DNext(done, dims, c, outerAxis, outer, innerAxis, inner, on, iy, ix, kernelX, kernelY, p);
    ApplyNext(e0, energy, done + Row2DUpTo(dims, c, outerAxis, outer, innerAxis, inner, on, iy, ix),
              done + Row2DUpTo(dims, c, outerAxis, outer, innerAxis, inner, on, iy, ix + 1), p, Signed(on, kernelX * kernelY));
  }

  /** The update for offsets (`oy`, `ox`) of a well-formed 2D splat, with its kernel weights. */
  lemma Update2DIs(dims: Dimensions, c: PixelCoords, outerAxis: nat, outer: SymmetricKernel,
                   innerAxis: nat, inner: SymmetricKernel, on: bool, oy: int, ox: int, kernelX: real, kernelY: real)
    requires outerAxis < 4 && innerAxis < 4 && WellFormed(outer) && WellFormed(inner)
    requires outer.start <= oy <= outer.end && inner.start <= ox <= inner.end
    requires kernelX == inner.kernel[Abs(ox)] && kernelY == outer.kernel[Abs(oy)]
    ensures var u := Update2D(dims, c, outerAxis, outer, innerAxis, inner, on, oy, ox);
      && u.index == PixelCoordsToPixelIndex(Offset2D(dims, c, outerAxis, innerAxis, oy, ox), dims)
      && u.delta == Signed(on, kernelX * kernelY)
  {
  }

  lemma SnocConcat(a: seq<Update>, b: seq<Update>, u: Update)
    ensures a + (b + [u]) == (a + b) + [u]
  {
  }

  /** A finished row extends the applied rows by one. */
  lemma Splat2DRowDone(dims: Dimensions, c: PixelCoords, outerAxis: nat, outer: SymmetricKernel,
                       innerAxis: nat, inner: SymmetricKernel, on: bool, iy: int)
    requires outerAxis < 4 && innerAxis < 4 && outer.start <= iy
    ensures Updates2DUpTo(dims, c, outerAxis, outer, innerAxis, inner, on, iy + 1)
         == Updates2DUpTo(dims, c, outerAxis, outer, innerAxis, inner, on, iy)
            + Row2DUpTo(dims, c, outerAxis, outer, innerAxis, inner, on, iy, inner.end + 1)
  {
  }

  // ---- off splats undo on splats ----

  lemma Updates1DUpToOffIsNegated(dims: Dimensions, c: PixelCoords, axis: nat, k: SymmetricKernel, hi: int)
    requires axis < 4
    ensures Updates1DUpTo(dims, c, axis, k, false, hi) == Negated(Updates1DUpTo(dims, c, axis, k, true, hi))
  {
    var a := Updates1DUpTo(dims, c, axis, k, false, hi);
    var on := Updates1DUpTo(dims, c, axis, k, true, hi);
    forall t | 0 <= t < |a|
      ensures a[t] == Negated(on)[t]
    {
      assert a[t] == Update1D(dims, c, axis, k, false, k.start + t);
      assert on[t] == Update1D(dims, c, axis, k, true, k.start + t);
    }
  }

  /** An off splat performs the updates of the on splat with every weight negated. */
  lemma Updates1DOffIsNegated(dims: Dimensions, c: PixelCoords, axis: nat, k: SymmetricKernel)
    requires axis < 4
    ensures Updates1D(dims, c, axis, k, false) == Negated(Updates1D(dims, c, axis, k, true))
  {
    Updates1DUpToOffIsNegated(dims, c, axis, k, k.end + 1);
  }

  lemma Row2DUpToOffIsNegated(dims: Dimensions, c: PixelCoords, outerAxis: nat, outer: SymmetricKernel,
                              innerAxis: nat, inner: SymmetricKernel, oy: int, hi: int)
    requires outerAxis < 4 && innerAxis < 4
    ensures Row2DUpTo(dims, c, outerAxis, outer, innerAxis, inner, false, oy, hi)
         == Negated(Row2DUpTo(dims, c, outerAxis, outer, innerAxis, inner, true, oy, hi))
  {
    var a := Row2DUpTo(dims, c, outerAxis, outer, innerAxis, inner, false, oy, hi);
    var on := Row2DUpTo(dims, c, outerAxis, outer, innerAxis, inner, true, oy, hi);
    forall t | 0 <= t < |a|
      ensures a[t] == Negated(on)[t]
    {
      assert a[t] == Update2D(dims, c, outerAxis, outer, innerAxis, inner, false, oy, inner.start + t);
      assert on[t] == Update2D(dims, c, outerAxis, outer, innerAxis, inner, true, oy, inner.start + t);
    }
  }

  lemma {:induction false} Updates2DUpToOffIsNegated(dims: Dimensions, c: PixelCoords, outerAxis: nat,
                                                      outer: SymmetricKernel, innerAxis: nat,
                                                      inner: SymmetricKernel, hi: int)
    requires outerAxis < 4 && innerAxis < 4
    ensures Updates2DUpTo(dims, c, outerAxis, outer, innerAxis, inner, false, hi)
         == Negated(Updates2DUpTo(dims, c, outerAxis, outer, innerAxis, inner, true, hi))
    decreases hi - outer.start
  {
    if hi > outer.start {
      Updates2DUpToOffIsNegated(dims, c, outerAxis, outer, innerAxis, inner, hi - 1);
      Row2DUpToOffIsNegated(dims, c, outerAxis, outer, innerAxis, inner, hi - 1, inner.end + 1);
      NegatedConcat(Updates2DUpTo(dims, c, outerAxis, outer, innerAxis, inner, true, hi - 1),
                    Row2D(dims, c, outerAxis, outer, innerAxis, inner, true, hi - 1));
    }
  }

  lemma Updates2DOffIsNegated(dims: Dimensions, c: PixelCoords, outerAxis: nat, outer: SymmetricKernel,
                              innerAxis: nat, inner: SymmetricKernel)
    requires outerAxis < 4 && innerAxis < 4
    ensures Updates2D(dims, c, outerAxis, outer, innerAxis, inner, false)
         == Negated(Updates2D(dims, c, outerAxis, outer, innerAxis, inner, true))
  {
    Updates2DUpToOffIsNegated(dims, c, outerAxis, outer, innerAxis, inner, outer.end + 1);
  }

  lemma NegatedConcat(a: seq<Update>, b: seq<Update>)
    ensures Negated(a + b) == Negated(a) + Negated(b)
  {
  }

  // ---- a splat only touches its wrapped neighbourhood ----

  lemma {:induction false} Updates1DUpToUntouched(dims: Dimensions, c: PixelCoords, axis: nat, k: SymmetricKernel,
                                                  on: bool, hi: int, j: nat)
    requires axis < 4
    requires forall o :: k.start <= o < hi ==> PixelCoordsToPixelIndex(Offset1D(dims, c, axis, o), dims) != j
    ensures DeltaAt(Updates1DUpTo(dims, c, axis, k, on, hi), j) == 0.0
    decreases hi - k.start
  {
    if hi > k.start {
      Updates1DUpToUntouched(dims, c, axis, k, on, hi - 1, j);
      Updates1DUpToSnoc(dims, c, axis, k, on, hi - 1);
      DeltaAtSnoc(Updates1DUpTo(dims, c, axis, k, on, hi - 1), Update1D(dims, c, axis, k, on, hi - 1), j);
    } else {
      assert Updates1DUpTo(dims, c, axis, k, on, hi) == [];
    }
  }

  /** A 1D splat leaves every pixel that no offset reaches as it was. */
  lemma Splat1DLocal(e: seq<real>, dims: Dimensions, c: PixelCoords, axis: nat, k: SymmetricKernel, on: bool, j: nat)
    requires axis < 4 && j < |e|
    requires forall o :: k.start <= o <= k.end ==> PixelCoordsToPixelIndex(Offset1D(dims, c, axis, o), dims) != j
    ensures Apply(e, Updates1D(dims, c, axis, k, on))[j] == e[j]
  {
    ApplyAt(e, Updates1D(dims, c, axis, k, on), j);
    Updates1DUpToUntouched(dims, c, axis, k, on, k.end + 1, j);
  }

  lemma {:induction false} Row2DUpToUntouched(dims: Dimensions, c: PixelCoords, outerAxis: nat, outer: SymmetricKernel,
                                              innerAxis: nat, inner: SymmetricKernel, on: bool, oy: int, hi: int, j: nat)
    requires outerAxis < 4 && innerAxis < 4
    requires forall ox :: inner.start <= ox < hi ==>
      PixelCoordsToPixelIndex(Offset2D(dims, c, outerAxis, innerAxis, oy, ox), dims) != j
    ensures DeltaAt(Row2DUpTo(dims, c, outerAxis, outer, innerAxis, inner, on, oy, hi), j) == 0.0
    decreases hi - inner.start
  {
    if hi > inner.start {
      Row2DUpToUntouched(dims, c, outerAxis, outer, innerAxis, inner, on, oy, hi - 1, j);
      Row2DUpToSnoc(dims, c, outerAxis, outer, innerAxis, inner, on, oy, hi - 1);
      DeltaAtSnoc(Row2DUpTo(dims, c, outerAxis, outer, innerAxis, inner, on, oy, hi - 1),
                  Update2D(dims, c, outerAxis, outer, innerAxis, inner, on, oy, hi - 1), j);
    } else {
      assert Row2DUpTo(dims, c, outerAxis, outer, innerAxis, inner, on, oy, hi) == [];
    }
  }

  lemma {:induction false} Updates2DUpToUntouched(dims: Dimensions, c: PixelCoords, outerAxis: nat, outer: SymmetricKernel,
                                                  innerAxis: nat, inner: SymmetricKernel, on: bool, hi: int, j: nat)
    requires outerAxis < 4 && innerAxis < 4
    requires forall oy, ox :: outer.start <= oy < hi && inner.start <= ox <= inner.end ==>
      PixelCoordsToPixelIndex(Offset2D(dims, c, outerAxis, innerAxis, oy, ox), dims) != j
    ensures DeltaAt(Updates2DUpTo(dims, c, outerAxis, outer, innerAxis, inner, on, hi), j) == 0.0
    decreases hi - outer.start
  {
    if hi > outer.start {
      Updates2DUpToUntouched(dims, c, outerAxis, outer, innerAxis, inner, on, hi - 1, j);
      Row2DUpToUntouched(dims, c, outerAxis, outer, innerAxis, inner, on, hi - 1, inner.end + 1, j);
      DeltaAtConcat(Updates2DUpTo(dims, c, outerAxis, outer, innerAxis, inner, on, hi - 1),
                    Row2D(dims, c, outerAxis, outer, innerAxis, inner, on, hi - 1), j);
    }
  }

  /** A 2D splat leaves every pixel that no pair of offsets reaches as it was. */
  lemma Splat2DLocal(e: seq<real>, dims: Dimensions, c: PixelCoords, outerAxis: nat, outer: SymmetricKernel,
                     innerAxis: nat, inner: SymmetricKernel, on: bool, j: nat)
    requires outerAxis < 4 && innerAxis < 4 && j < |e|
    requires forall oy, ox :: outer.start <= oy <= outer.end && inner.start <= ox <= inner.end ==>
      PixelCoordsToPixelIndex(Offset2D(dims, c, outerAxis, innerAxis, oy, ox), dims) != j
    ensures Apply(e, Updates2D(dims, c, outerAxis, outer, innerAxis, inner, on))[j] == e[j]
  {
    ApplyAt(e, Updates2D(dims, c, outerAxis, outer, innerAxis, inner, on), j);
    Updates2DUpToUntouched(dims, c, outerAxis, outer, innerAxis, inner, on, outer.end + 1, j);
  }

  // ---- the test scenarios ----

  /**
   * The 5x5 scenario centred at x = 4, y = 2: the inner offset +1 wraps to
   * column 0 on every row, with weight inner * outer.
   */
  lemma Splat2DWrapExample(oy: int)
    requires -2 <= oy <= 2
    ensures var dims := Dimensions(5, 5, 1, 1);
      var c := PixelCoords(4, 2, 0, 0);
      Update2D(dims, c, 1, ConstantKernel(3.0, 2, false), 0, ConstantKernel(2.0, 1, false), true, oy, 1)
        == Update(((2 + oy + 5) % 5) * 5, 6.0)
  {
    var dims := Dimensions(5, 5, 1, 1);
    var c := PixelCoords(4, 2, 0, 0);
    var coords := Offset2D(dims, c, 1, 0, oy, 1);
    assert coords == PixelCoords(0, (2 + oy + 5) % 5, 0, 0);
    var outer, inner := ConstantKernel(3.0, 2, false), ConstantKernel(2.0, 1, false);
    assert Weight(outer, oy) == 3.0 && Weight(inner, 1) == 2.0;
  }

  /**
   * On an 8x1x1x1 grid, an on splat at x = 0 with the constant kernel of value 2
   * and radius 1 adds 2 at x = 7 (wrapped), 0 and 1.
   */
  lemma Splat1DWrapExample()
    ensures var dims := Dimensions(8, 1, 1, 1);
      var us := Updates1D(dims, PixelCoords(0, 0, 0, 0), 0, ConstantKernel(2.0, 1, false), true);
      Apply(seq(8, _ => 0.0), us) == [2.0, 2.0, 0.0, 0.0, 0.0, 0.0, 0.0, 2.0]
  {
    ConstantKernelExample();
    Example1DUpdates();
    Example1DApply(seq(8, _ => 0.0), [Update(7, 2.0), Update(0, 2.0), Update(1, 2.0)]);
  }

  lemma Example1DUpdates()
    ensures Updates1D(Dimensions(8, 1, 1, 1), PixelCoords(0, 0, 0, 0), 0, SymmetricKernel([2.0, 2.0], -1, 1, 1), true)
         == [Update(7, 2.0), Update(0, 2.0), Update(1, 2.0)]
  {
    var dims := Dimensions(8, 1, 1, 1);
    var c := PixelCoords(0, 0, 0, 0);
    var k := SymmetricKernel([2.0, 2.0], -1, 1, 1);
    var us := Updates1D(dims, c, 0, k, true);
    assert |us| == 3;
    assert Offset1D(dims, c, 0, -1) == PixelCoords(7, 0, 0, 0);
    assert Offset1D(dims, c, 0, 0) == PixelCoords(0, 0, 0, 0);
    assert Offset1D(dims, c, 0, 1) == PixelCoords(1, 0, 0, 0);
    assert us[0] == Update1D(dims, c, 0, k, true, -1);
    assert us[1] == Update1D(dims, c, 0, k, true, 0);
    assert us[2] == Update1D(dims, c, 0, k, true, 1);
  }

  lemma Example1DApply(e0: seq<real>, us: seq<Update>)
    requires e0 == seq(8, _ => 0.0) && us == [Update(7, 2.0), Update(0, 2.0), Update(1, 2.0)]
    ensures Apply(e0, us) == [2.0, 2.0, 0.0, 0.0, 0.0, 0.0, 0.0, 2.0]
  {
    assert us[..2] == [Update(7, 2.0), Update(0, 2.0)];
    assert us[..2][..1] == [Update(7, 2.0)];
    assert us[..2][..1][..0] == [];
    assert Apply(e0, []) == e0;
    var e1 := Apply(e0, us[..2][..1]);
    assert e1 == e0[7 := 2.0];
    var e2 := Apply(e0, us[..2]);
    assert e2 == e1[0 := 2.0];
    assert Apply(e0, us) == e2[1 := 2.0];
  }

  // ---- the loop bodies of the splats ----

  /** The on splat's update `+= w`. */
  lemma AddedOn(next: seq<real>, energy: seq<real>, p: nat, w: real)
    requires p < |energy| && next == energy[p := energy[p] + Signed(true, w)]
    ensures next == energy[p := energy[p] + w]
  {
  }

  /** The off splat's update `-= w`. */
  lemma SubtractedOff(next: seq<real>, energy: seq<real>, p: nat, w: real)
    requires p < |energy| && next == energy[p := energy[p] + Signed(false, w)]
    ensures next == energy[p := energy[p] - w]
  {
  }

  /** One pass of the 1D loop body: the pixel it computes is the next update's. */
  lemma Splat1DLoopStep(e0: seq<real>, energy: seq<real>, dims: Dimensions, c: PixelCoords, axis: nat,
                        k: SymmetricKernel, on: bool, iz: int, coords: PixelCoords, p: nat)
    requires SplatOk1D(dims, c, axis, k) && k.start <= iz <= k.end && |e0| == dims.NumPixels()
    requires energy == Apply(e0, Updates1DUpTo(dims, c, axis, k, on, iz))
    requires forall a :: 0 <= a < 4 && a != axis ==> coords.Get(a) == c.Get(a)
    requires p == PixelCoordsToPixelIndex(coords.Set(axis, (c.Get(axis) + dims.Get(axis) + iz) % dims.Get(axis)), dims)
    ensures p < |energy|
    ensures Apply(e0, Updates1DUpTo(dims, c, axis, k, on, iz + 1)) == energy[p := energy[p] + Signed(on, k.kernel[Abs(iz)])]
  {
    LoopCoordsAreOffset1D(dims, c, axis, iz, coords);
    Splat1DStep(e0, energy, dims, c, axis, k, on, iz, p);
  }

  /** The coordinates the 1D loop body builds are the offset pixel's. */
  lemma LoopCoordsAreOffset1D(dims: Dimensions, c: PixelCoords, axis: nat, iz: int, coords: PixelCoords)
    requires dims.Valid() && axis < 4
    requires forall a :: 0 <= a < 4 && a != axis ==> coords.Get(a) == c.Get(a)
    ensures coords.Set(axis, (c.Get(axis) + dims.Get(axis) + iz) % dims.Get(axis)) == Offset1D(dims, c, axis, iz)
  {
    var v := (c.Get(axis) + dims.Get(axis) + iz) % dims.Get(axis);
    assert v == WrapCoord(c.Get(axis), iz, dims.Get(axis));
    SetOverwrites(coords, c, axis, v);
  }

  /** One pass of the inner 2D loop body: the pixel it computes is the next update's. */
  lemma Splat2DLoopStep(e0: seq<real>, energy: seq<real>, done: seq<Update>, dims: Dimensions, c: PixelCoords,
                        outerAxis: nat, outer: SymmetricKernel, innerAxis: nat, inner: SymmetricKernel,
                        on: bool, iy: int, ix: int, coords: PixelCoords, pixelY: nat, kernelX: real, kernelY: real,
                        p: nat)
    requires SplatOk2D(dims, c, outerAxis, outer, innerAxis, inner) && |e0| == dims.NumPixels()
    requires outer.start <= iy <= outer.end && inner.start <= ix <= inner.end
    requires energy == Apply(e0, done + Row2DUpTo(dims, c, outerAxis, outer, innerAxis, inner, on, iy, ix))
    requires pixelY == (c.Get(outerAxis) + iy + dims.Get(outerAxis)) % dims.Get(outerAxis)
    requires forall a :: 0 <= a < 4 && a != outerAxis && a != innerAxis ==> coords.Get(a) == c.Get(a)
    requires outerAxis != innerAxis ==> coords.Get(outerAxis) == pixelY
    requires kernelX == inner.kernel[Abs(ix)] && kernelY == outer.kernel[Abs(iy)]
    requires p == PixelCoordsToPixelIndex(
      coords.Set(innerAxis, (c.Get(innerAxis) + ix + dims.Get(innerAxis)) % dims.Get(innerAxis)), dims)
    ensures p < |energy|
    ensures Apply(e0, done + Row2DUpTo(dims, c, outerAxis, outer, innerAxis, inner, on, iy, ix + 1))
         == energy[p := energy[p] + Signed(on, kernelX * kernelY)]
  {
    LoopCoordsAreOffset2D(dims, c, outerAxis, innerAxis, iy, ix, coords, pixelY);
    Splat2DStep(e0, energy, done, dims, c, outerAxis, outer, innerAxis, inner, on, iy, ix, kernelX, kernelY, p);
  }

  /** The coordinates the 2D loops compute are the splat's offset pixel. */
  lemma LoopCoordsAreOffset2D(dims: Dimensions, c: PixelCoords, outerAxis: nat, innerAxis: nat, iy: int, ix: int,
                              coords: PixelCoords, pixelY: nat)
    requires dims.Valid() && outerAxis < 4 && innerAxis < 4
    requires pixelY == (c.Get(outerAxis) + iy + dims.Get(outerAxis)) % dims.Get(outerAxis)
    requires forall a :: 0 <= a < 4 && a != outerAxis && a != innerAxis ==> coords.Get(a) == c.Get(a)
    requires outerAxis != innerAxis ==> coords.Get(outerAxis) == pixelY
    ensures coords.Set(innerAxis, (c.Get(innerAxis) + ix + dims.Get(innerAxis)) % dims.Get(innerAxis))
         == Offset2D(dims, c, outerAxis, innerAxis, iy, ix)
  {
    var x := (c.Get(innerAxis) + ix + dims.Get(innerAxis)) % dims.Get(innerAxis);
    assert pixelY == WrapCoord(c.Get(outerAxis), iy, dims.Get(outerAxis));
    assert x == WrapCoord(c.Get(innerAxis), ix, dims.Get(innerAxis));
    SetOverwrites2(coords, c, outerAxis, innerAxis, pixelY, x);
  }
}
