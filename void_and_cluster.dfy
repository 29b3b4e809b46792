// The void-and-cluster driver: white-noise seeding, the reorganisation into
// blue noise, and the three ranking phases, all through one controller over
// the shared grid.
module VoidAndCluster {
  import opened Dims
  import opened Coords
  import opened Kernel
  import opened Data
  import opened Splat
  import opened Composite
  import opened Controller
  import opened Ranks

  const UINT32_MAX: nat := 0xFFFF_FFFF

  /** The counters of `VoidAndClusterProgressData` that the phase loops drive (the timestamps are left out). */
  datatype ProgressData = ProgressData(
    startedInitializeToWhiteNoise: bool,
    initializeToWhiteNoiseCurrentIndex: nat,
    initializeToWhiteNoiseTargetCount: nat,
    reorganizeToBlueNoiseFinished: bool,
    reorganizeToBlueNoiseIterationsSoFar: nat,
    phase1Part1OnesCountRemaining: nat,
    phase1Part1OnesCountTotal: nat,
    phase1Part2PixelIndex: nat,
    phase2OnesCountCurrent: nat,
    phase2OnesCountTotal: nat,
    phase3Part1PixelCountCurrent: nat,
    phase3Part2OnesCountRemaining: nat,
    phase3Part2OnesCountTotal: nat)

  /** The counters before any stage runs: the totals start at `UINT32_MAX`. */
  const InitialProgress := ProgressData(false, 0, UINT32_MAX, false, 0, UINT32_MAX, UINT32_MAX, 0, 0, UINT32_MAX,
                                        0, UINT32_MAX, UINT32_MAX)

  /** The seeding target: `numPixels * density` truncated, but at least 2. */
  function WhiteNoiseTargetCount(numPixels: nat, density: real): (r: nat)
    ensures r >= 2
    ensures r == 2 || r as real <= numPixels as real * density < r as real + 1.0
  {
    var target := (numPixels as real * density).Floor;
    if target > 2 then target else 2
  }

  /** The bound `uint32_t(numPixels) - 1u` handed to the random generator, with 32-bit wrap-around. */
  function DrawBound(numPixels: nat): (r: nat)
    ensures r <= UINT32_MAX
    ensures numPixels >= 1 ==> r < numPixels
    ensures 1 <= numPixels <= UINT32_MAX ==> r == numPixels - 1
  {
    var low := numPixels % 0x1_0000_0000;
    if low == 0 then UINT32_MAX else low - 1
  }

  /** The energy updates of a controller's splat around pixel `p`. */
  ghost function PixelSplat(u: VCController, p: nat, on: bool): seq<Update>
    requires u.data.dimensions.Valid()
  {
    SplatUpdates(u.implementation.Shape(), u.data.dimensions, PixelIndexToPixelCoords(p, u.data.dimensions),
                 u.kernelX, u.kernelY, u.kernelZ, u.kernelW, on)
  }

  /** The updates of splatting around each pixel of `pixels`, in order. */
  ghost function SplatsAt(u: VCController, pixels: seq<nat>, on: bool): seq<Update>
    requires u.data.dimensions.Valid()
  {
    if pixels == [] then [] else SplatsAt(u, pixels[..|pixels| - 1], on) + PixelSplat(u, pixels[|pixels| - 1], on)
  }

  /** The ranked pixels below `k`, in ascending order. */
  ghost function RankedIndices(rank: seq<nat>, n: nat, k: nat): seq<nat>
    requires k <= |rank|
  {
    if k == 0 then [] else RankedIndices(rank, n, k - 1) + (if rank[k - 1] < n then [k - 1] else [])
  }

  /** The on pixels below `k`, in ascending order. */
  ghost function OnIndices(on: seq<bool>, k: nat): seq<nat>
    requires k <= |on|
  {
    if k == 0 then [] else OnIndices(on, k - 1) + (if on[k - 1] then [k - 1] else [])
  }

  /** A snapshot of the grid the stages work on: the flags, the ranks and the energy. */
  datatype GridState = GridState(on: seq<bool>, rank: seq<nat>, energy: seq<real>)

  /** One removal: `c` is a tightest cluster of `s`; it turns off, gets rank `r` and has its energy splatted away. */
  ghost predicate ClusterRemoved(u: VCController, s: GridState, c: nat, r: nat, s1: GridState)
    requires u.data.dimensions.Valid()
  {
    && |s.energy| == |s.on| && IsTightestCluster(s.energy, s.on, c) && c < |s.rank|
    && s1 == GridState(s.on[c := false], s.rank[c := r], Apply(s.energy, PixelSplat(u, c, false)))
  }

  /** One insertion: `v` is a largest void of `s`; it turns on, gets rank `r` and splats energy around it. */
  ghost predicate VoidFilled(u: VCController, s: GridState, v: nat, r: nat, s1: GridState)
    requires u.data.dimensions.Valid()
  {
    && |s.energy| == |s.on| && IsLargestVoid(s.energy, s.on, v) && v < |s.rank|
    && s1 == GridState(s.on[v := true], s.rank[v := r], Apply(s.energy, PixelSplat(u, v, true)))
  }

  /**
   * One reorganisation swap: `c` is a tightest cluster of `s` and turns off;
   * then `v` is a largest void of that pattern and turns on. Ranks are untouched.
   */
  ghost predicate Swapped(u: VCController, s: GridState, c: nat, v: nat, s1: GridState)
    requires u.data.dimensions.Valid()
  {
    && |s.energy| == |s.on| && IsTightestCluster(s.energy, s.on, c)
    && var on1, e1 := s.on[c := false], Apply(s.energy, PixelSplat(u, c, false));
       IsLargestVoid(e1, on1, v) && s1 == GridState(on1[v := true], s.rank, Apply(e1, PixelSplat(u, v, true)))
  }

  /**
   * `trace` holds the grid before and after each swap, swap `k` moved
   * `clusters[k]` to `voids[k]`, and every swap but the last moved a pixel.
   */
  ghost predicate SwapTrace(u: VCController, trace: seq<GridState>, clusters: seq<nat>, voids: seq<nat>)
    requires u.data.dimensions.Valid()
  {
    && |clusters| == |voids| && |trace| == |clusters| + 1
    && (forall k :: 0 <= k < |clusters| ==> Swapped(u, trace[k], clusters[k], voids[k], trace[k + 1]))
    && (forall k :: 0 <= k < |clusters| - 1 ==> clusters[k] != voids[k])
  }

  lemma SwapTraceStep(u: VCController, trace: seq<GridState>, clusters: seq<nat>, voids: seq<nat>,
                      c: nat, v: nat, s1: GridState)
    requires u.data.dimensions.Valid() && SwapTrace(u, trace, clusters, voids) && !LastSwapStays(clusters, voids)
    requires Swapped(u, trace[|trace| - 1], c, v, s1)
    ensures SwapTrace(u, trace + [s1], clusters + [c], voids + [v])
  {
    var trace1, clusters1, voids1 := trace + [s1], clusters + [c], voids + [v];
    forall k | 0 <= k < |clusters1|
      ensures Swapped(u, trace1[k], clusters1[k], voids1[k], trace1[k + 1])
    {
      if k < |clusters| {
        assert trace1[k] == trace[k] && trace1[k + 1] == trace[k + 1];
      }
    }
  }

  /**
   * `trace` holds the grid before and after each removal; removal `k` took the
   * tightest cluster `removed[k]` and ranked it `total - 1 - k`.
   */
  ghost predicate RemovalTrace(u: VCController, trace: seq<GridState>, removed: seq<nat>, total: nat)
    requires u.data.dimensions.Valid()
  {
    && |trace| == |removed| + 1 && |removed| <= total
    && forall k :: 0 <= k < |removed| ==> ClusterRemoved(u, trace[k], removed[k], total - 1 - k, trace[k + 1])
  }

  lemma RemovalTraceStep(u: VCController, trace: seq<GridState>, removed: seq<nat>, total: nat,
                         s: GridState, c: nat, r: nat, s1: GridState)
    requires u.data.dimensions.Valid() && RemovalTrace(u, trace, removed, total) && |removed| < total
    requires trace[|removed|] == s && r == total - 1 - |removed| && ClusterRemoved(u, s, c, r, s1)
    ensures RemovalTrace(u, trace + [s1], removed + [c], total)
  {
    var trace1, removed1 := trace + [s1], removed + [c];
    forall k | 0 <= k < |removed1|
      ensures ClusterRemoved(u, trace1[k], removed1[k], total - 1 - k, trace1[k + 1])
    {
      if k < |removed| {
        assert trace1[k] == trace[k] && trace1[k + 1] == trace[k + 1];
      }
    }
  }

  /**
   * `trace` holds the grid before and after each removal; removal `k` took the
   * tightest cluster `removed[k]` and ranked it `base + k`.
   */
  ghost predicate RankingTrace(u: VCController, trace: seq<GridState>, removed: seq<nat>, base: int)
    requires u.data.dimensions.Valid()
  {
    && base >= 0 && |trace| == |removed| + 1
    && forall k :: 0 <= k < |removed| ==> ClusterRemoved(u, trace[k], removed[k], base + k, trace[k + 1])
  }

  lemma RankingTraceStep(u: VCController, trace: seq<GridState>, removed: seq<nat>, base: nat,
                         s: GridState, c: nat, r: nat, s1: GridState)
    requires u.data.dimensions.Valid() && RankingTrace(u, trace, removed, base)
    requires trace[|removed|] == s && r == base + |removed| && ClusterRemoved(u, s, c, r, s1)
    ensures RankingTrace(u, trace + [s1], removed + [c], base)
  {
    var trace1, removed1 := trace + [s1], removed + [c];
    forall k | 0 <= k < |removed1|
      ensures ClusterRemoved(u, trace1[k], removed1[k], base + k, trace1[k + 1])
    {
      if k < |removed| {
        assert trace1[k] == trace[k] && trace1[k + 1] == trace[k + 1];
      }
    }
  }

  /**
   * `trace` holds the grid before and after each insertion; insertion `k`
   * filled the largest void `added[k]` and ranked it `base + k`.
   */
  ghost predicate InsertionTrace(u: VCController, trace: seq<GridState>, added: seq<nat>, base: nat)
    requires u.data.dimensions.Valid()
  {
    && |trace| == |added| + 1
    && forall k :: 0 <= k < |added| ==> VoidFilled(u, trace[k], added[k], base + k, trace[k + 1])
  }

  lemma InsertionTraceStep(u: VCController, trace: seq<GridState>, added: seq<nat>, base: nat,
                           s: GridState, v: nat, r: nat, s1: GridState)
    requires u.data.dimensions.Valid() && InsertionTrace(u, trace, added, base)
    requires trace[|added|] == s && r == base + |added| && VoidFilled(u, s, v, r, s1)
    ensures InsertionTrace(u, trace + [s1], added + [v], base)
  {
    var trace1, added1 := trace + [s1], added + [v];
    forall k | 0 <= k < |added1|
      ensures VoidFilled(u, trace1[k], added1[k], base + k, trace1[k + 1])
    {
      if k < |added| {
        assert trace1[k] == trace[k] && trace1[k + 1] == trace[k + 1];
      }
    }
  }

  /** The swaps ended with one that put the removed pixel straight back. */
  ghost predicate LastSwapStays(clusters: seq<nat>, voids: seq<nat>)
  {
    |clusters| == |voids| > 0 && clusters[|clusters| - 1] == voids[|voids| - 1]
  }

  /** One more splat extends the applied sequence by one pixel. */
  lemma SplatsAtStep(u: VCController, e0: seq<real>, e: seq<real>, pixels: seq<nat>, p: nat, on: bool)
    requires u.data.dimensions.Valid()
    requires e == Apply(e0, SplatsAt(u, pixels, on))
    ensures Apply(e, PixelSplat(u, p, on)) == Apply(e0, SplatsAt(u, pixels + [p], on))
  {
    assert (pixels + [p])[..|pixels|] == pixels;
    ApplyConcat(e0, SplatsAt(u, pixels, on), PixelSplat(u, p, on));
  }

  /** One more splat, of the next pixel of `pixels`, extends the applied prefix by one. */
  lemma SplatsAtPrefixStep(u: VCController, e0: seq<real>, e: seq<real>, pixels: seq<nat>, k: nat, on: bool)
    requires u.data.dimensions.Valid() && k < |pixels|
    requires e == Apply(e0, SplatsAt(u, pixels[..k], on))
    ensures Apply(e, PixelSplat(u, pixels[k], on)) == Apply(e0, SplatsAt(u, pixels[..k + 1], on))
  {
    assert pixels[..k + 1] == pixels[..k] + [pixels[k]];
    SplatsAtStep(u, e0, e, pixels[..k], pixels[k], on);
  }

  /** White-noise seeding after `k` draws: exactly the initial pixels and the drawn ones are on. */
  ghost predicate Seeded(on0: seq<bool>, on: seq<bool>, draws: seq<nat>, k: nat)
  {
    |on| == |on0| && k <= |draws|
    && (forall i :: 0 <= i < |on| ==> on[i] == (on0[i] || i in draws[..k]))
    && Count(on) <= Count(on0) + k
    && (k > 0 ==> draws[0] < |on| && on[draws[0]])
  }

  lemma SeedStep(on0: seq<bool>, on: seq<bool>, draws: seq<nat>, k: nat)
    requires Seeded(on0, on, draws, k) && k < |draws| && draws[k] < |on|
    ensures Seeded(on0, on[draws[k] := true], draws, k + 1)
  {
    assert draws[..k + 1] == draws[..k] + [draws[k]];
    CountUpdate(on, draws[k], true);
  }

  lemma SeedDone(on0: seq<bool>, on: seq<bool>, draws: seq<nat>)
    requires Seeded(on0, on, draws, |draws|) && |draws| > 0
    ensures forall i :: 0 <= i < |on| ==> on[i] == (on0[i] || i in draws)
    ensures AnyOn(on) && Count(on) <= Count(on0) + |draws|
  {
    assert draws[..|draws|] == draws;
  }

  /** Phase 1 part 2 after `k` pixels: the ranked pixels below `k` are turned back on. */
  ghost predicate RestoredUpTo(on0: seq<bool>, on: seq<bool>, rank: seq<nat>, n: nat, k: nat)
  {
    |on0| == n && |on| == n && |rank| == n && k <= n
    && forall i :: 0 <= i < n ==> on[i] == (on0[i] || (i < k && rank[i] < n))
  }

  lemma RestoreStep(on0: seq<bool>, on: seq<bool>, rank: seq<nat>, n: nat, k: nat)
    requires RestoredUpTo(on0, on, rank, n, k) && k < n
    ensures RestoredUpTo(on0, if rank[k] < n then on[k := true] else on, rank, n, k + 1)
  {
  }

  lemma RestoreDone(on0: seq<bool>, on: seq<bool>, rank: seq<nat>, n: nat)
    requires RestoredUpTo(on0, on, rank, n, n)
    ensures forall i :: 0 <= i < n ==> on[i] == (on0[i] || rank[i] < n)
  {
  }

  /** Phase 3 part 1 after `k` pixels: the flags below `k` are inverted, the rest untouched. */
  ghost predicate InvertedUpTo(on0: seq<bool>, on: seq<bool>, k: nat)
  {
    |on| == |on0| && k <= |on|
    && forall i :: 0 <= i < |on| ==> on[i] == (if i < k then !on0[i] else on0[i])
  }

  lemma InvertStep(on0: seq<bool>, on: seq<bool>, k: nat)
    requires InvertedUpTo(on0, on, k) && k < |on|
    ensures InvertedUpTo(on0, on[k := !on[k]], k + 1) && on[k := !on[k]][k] == !on0[k]
  {
  }

  lemma InvertDone(on0: seq<bool>, on: seq<bool>)
    requires InvertedUpTo(on0, on, |on|)
    ensures on == Inverted(on0)
  {
  }

  /** Phase 2 so far: the pixels that were on are still on, with their ranks. */
  ghost predicate KeepsOn(on0: seq<bool>, rank0: seq<nat>, on: seq<bool>, rank: seq<nat>)
  {
    |on0| == |rank0| == |on| == |rank|
    && forall i :: 0 <= i < |on0| && on0[i] ==> on[i] && rank[i] == rank0[i]
  }

  lemma KeepsOnAll(on0: seq<bool>, rank0: seq<nat>, on: seq<bool>, rank: seq<nat>)
    requires KeepsOn(on0, rank0, on, rank)
    ensures forall i :: 0 <= i < |on0| && on0[i] ==> on[i] && rank[i] == rank0[i]
  {
  }

  lemma KeepsOnStep(on0: seq<bool>, rank0: seq<nat>, on: seq<bool>, rank: seq<nat>, v: nat, r: nat,
                     on1: seq<bool>, rank1: seq<nat>)
    requires KeepsOn(on0, rank0, on, rank) && v < |on| && !on[v]
    requires on1 == on[v := true] && rank1 == rank[v := r]
    ensures KeepsOn(on0, rank0, on1, rank1)
  {
  }

  /** Phase 3 part 2 so far: the pixels that were off are still off, with their ranks. */
  ghost predicate KeepsOff(on0: seq<bool>, rank0: seq<nat>, on: seq<bool>, rank: seq<nat>)
  {
    |on0| == |rank0| == |on| == |rank|
    && forall i :: 0 <= i < |on0| && !on0[i] ==> !on[i] && rank[i] == rank0[i]
  }

  lemma KeepsOffAll(on0: seq<bool>, rank0: seq<nat>, on: seq<bool>, rank: seq<nat>)
    requires KeepsOff(on0, rank0, on, rank)
    ensures forall i :: 0 <= i < |on0| ==> !on[i] || on0[i]
    ensures forall i :: 0 <= i < |on0| && !on0[i] ==> rank[i] == rank0[i]
  {
  }

  lemma KeepsOffStep(on0: seq<bool>, rank0: seq<nat>, on: seq<bool>, rank: seq<nat>, c: nat, r: nat,
                      on1: seq<bool>, rank1: seq<nat>)
    requires KeepsOff(on0, rank0, on, rank) && c < |on| && on[c]
    requires on1 == on[c := false] && rank1 == rank[c := r]
    ensures KeepsOff(on0, rank0, on1, rank1)
  {
  }

  /** One phase 3 part 2 step on values: the complementary ranks and the untouched off pixels are kept. */
  lemma RankedOffStep(on0: seq<bool>, rank0: seq<nat>, on: seq<bool>, rank: seq<nat>, n: nat, c: nat,
                      on1: seq<bool>, rank1: seq<nat>, r: nat)
    requires ComplementRanks(on, rank, n) && KeepsOff(on0, rank0, on, rank) && c < n && on[c]
    requires r == n - Count(on) && on1 == on[c := false] && rank1 == rank[c := r]
    ensures Count(on1) == Count(on) - 1
    ensures ComplementRanks(on1, rank1, n)
    ensures KeepsOff(on0, rank0, on1, rank1)
  {
    ComplementStep(on, rank, n, c);
    KeepsOffStep(on0, rank0, on, rank, c, r, on1, rank1);
  }

  class VoidAndCluster {
    const numPixels: nat
    const data: STBNData
    const updater: VCController
    const initialBinaryPatternDensity: real
    var pd: ProgressData

    /** The controller is valid and its grid is this driver's grid of `numPixels` pixels. */
    ghost predicate Valid()
      reads updater.Repr()
    {
      this !in updater.Repr() && this !in updater.Caches() && updater.Valid() && data == updater.data && numPixels == data.numPixels
    }

    constructor (initialBinaryPatternDensity: real, updater: VCController)
      requires updater.Valid()
      ensures Valid() && this.updater == updater && this.initialBinaryPatternDensity == initialBinaryPatternDensity
      ensures pd == InitialProgress
    {
      numPixels := updater.data.dimensions.NumPixels();
      data := updater.data;
      this.updater := updater;
      this.initialBinaryPatternDensity := initialBinaryPatternDensity;
      pd := InitialProgress;
    }

    method GetNumPixels() returns (n: nat)
      ensures n == numPixels
    {
      n := numPixels;
    }

    method GetSTBNData() returns (d: STBNData)
      ensures d == data
    {
      d := data;
    }

    method GetProgressData() returns (p: ProgressData)
      ensures p == pd
    {
      p := pd;
    }

    method SplatEnergyOn(pixelIndex: nat)
      requires Valid() && pixelIndex < numPixels
      modifies data`energy, updater.Caches()
      ensures Valid() && data.energy == Apply(old(data.energy), PixelSplat(updater, pixelIndex, true))
    {
      IndexToCoordsInRange(pixelIndex, data.dimensions);
      var pixelCoords := PixelIndexToPixelCoords(pixelIndex, data.dimensions);
      updater.SplatOn(pixelCoords);
    }

    method SplatEnergyOff(pixelIndex: nat)
      requires Valid() && pixelIndex < numPixels
      modifies data`energy, updater.Caches()
      ensures Valid() && data.energy == Apply(old(data.energy), PixelSplat(updater, pixelIndex, false))
    {
      IndexToCoordsInRange(pixelIndex, data.dimensions);
      var pixelCoords := PixelIndexToPixelCoords(pixelIndex, data.dimensions);
      updater.SplatOff(pixelCoords);
    }

    /**
     * Turns on the pixels drawn by the random generator, `draws`, one per
     * target step, splatting each; a repeated draw turns on nothing new.
     */
    method InitializeToWhiteNoise(draws: seq<nat>)
      requires Valid() && |draws| == WhiteNoiseTargetCount(numPixels, initialBinaryPatternDensity)
      requires forall k :: 0 <= k < |draws| ==> draws[k] < DrawBound(numPixels)
      modifies this`pd, data`pixelOn, data`energy, updater.Caches()
      ensures Valid()
      ensures forall i :: 0 <= i < numPixels ==> data.pixelOn[i] == (old(data.pixelOn[i]) || i in draws)
      ensures AnyOn(data.pixelOn) && Count(data.pixelOn) <= old(Count(data.pixelOn)) + |draws|
      ensures data.energy == Apply(old(data.energy), SplatsAt(updater, draws, true))
      ensures pd == old(pd).(startedInitializeToWhiteNoise := true, initializeToWhiteNoiseTargetCount := |draws|,
                             initializeToWhiteNoiseCurrentIndex := |draws|)
    {
      NumPixelsPositive(data.dimensions);
      pd := pd.(startedInitializeToWhiteNoise := true,
                initializeToWhiteNoiseTargetCount := WhiteNoiseTargetCount(numPixels, initialBinaryPatternDensity),
                initializeToWhiteNoiseCurrentIndex := 0);
      SeedPixels(draws);
    }

    /** The seeding loop: one pixel on per draw, counted in the progress data. */
    method SeedPixels(draws: seq<nat>)
      requires Valid() && |draws| > 0 && forall k :: 0 <= k < |draws| ==> draws[k] < numPixels
      requires pd.initializeToWhiteNoiseTargetCount == |draws| && pd.initializeToWhiteNoiseCurrentIndex == 0
      modifies this`pd, data`pixelOn, data`energy, updater.Caches()
      ensures Valid()
      ensures forall i :: 0 <= i < numPixels ==> data.pixelOn[i] == (old(data.pixelOn[i]) || i in draws)
      ensures AnyOn(data.pixelOn) && Count(data.pixelOn) <= old(Count(data.pixelOn)) + |draws|
      ensures data.energy == Apply(old(data.energy), SplatsAt(updater, draws, true))
      ensures pd == old(pd).(initializeToWhiteNoiseCurrentIndex := |draws|)
    {
      ghost var on0, e0 := data.pixelOn, data.energy;
      while pd.initializeToWhiteNoiseCurrentIndex < pd.initializeToWhiteNoiseTargetCount
        invariant Valid()
        invariant pd == old(pd).(initializeToWhiteNoiseCurrentIndex := pd.initializeToWhiteNoiseCurrentIndex)
        invariant Seeded(on0, data.pixelOn, draws, pd.initializeToWhiteNoiseCurrentIndex)
        invariant data.energy == Apply(e0, SplatsAt(updater, draws[..pd.initializeToWhiteNoiseCurrentIndex], true))
        decreases |draws| - pd.initializeToWhiteNoiseCurrentIndex
      {
        SeedNext(draws, on0, e0);
      }
      assert pd.initializeToWhiteNoiseCurrentIndex == |draws|;
      assert draws[..|draws|] == draws;
      SeedDone(on0, data.pixelOn, draws);
    }

    /** The body of the seeding loop: the next drawn pixel turns on. */
    method SeedNext(draws: seq<nat>, ghost on0: seq<bool>, ghost e0: seq<real>)
      requires Valid() && pd.initializeToWhiteNoiseCurrentIndex < |draws|
      requires forall k :: 0 <= k < |draws| ==> draws[k] < numPixels
      requires Seeded(on0, data.pixelOn, draws, pd.initializeToWhiteNoiseCurrentIndex)
      requires data.energy == Apply(e0, SplatsAt(updater, draws[..pd.initializeToWhiteNoiseCurrentIndex], true))
      modifies this`pd, data`pixelOn, data`energy, updater.Caches()
      ensures Valid()
      ensures pd == old(pd).(initializeToWhiteNoiseCurrentIndex := old(pd.initializeToWhiteNoiseCurrentIndex) + 1)
      ensures Seeded(on0, data.pixelOn, draws, pd.initializeToWhiteNoiseCurrentIndex)
      ensures data.energy == Apply(e0, SplatsAt(updater, draws[..pd.initializeToWhiteNoiseCurrentIndex], true))
    {
      var k := pd.initializeToWhiteNoiseCurrentIndex;
      var pixelIndex := draws[k];
      pd := pd.(initializeToWhiteNoiseCurrentIndex := k + 1);
      SeedStep(on0, data.pixelOn, draws, k);
      SplatsAtPrefixStep(updater, e0, data.energy, draws, k, true);
      TurnOn(pixelIndex);
    }

    /** Turns off the tightest cluster and splats its energy away. */
    method TurnOffTightestCluster() returns (tightestClusterIndex: nat)
      requires Valid() && AnyOn(data.pixelOn)
      modifies data`pixelOn, data`energy, updater.Caches()
      ensures Valid() && IsTightestCluster(old(data.energy), old(data.pixelOn), tightestClusterIndex)
      ensures data.pixelOn == old(data.pixelOn)[tightestClusterIndex := false]
      ensures data.energy == Apply(old(data.energy), PixelSplat(updater, tightestClusterIndex, false))
      ensures data.pixelRank == old(data.pixelRank)
    {
      tightestClusterIndex := updater.GetTightestCluster();
      updater.SetPixelOn(tightestClusterIndex, false);
      SplatEnergyOff(tightestClusterIndex);
    }

    /** Turns on the largest void and splats energy around it. */
    method TurnOnLargestVoid() returns (largestVoidIndex: nat)
      requires Valid() && AnyOff(data.pixelOn)
      modifies data`pixelOn, data`energy, updater.Caches()
      ensures Valid() && IsLargestVoid(old(data.energy), old(data.pixelOn), largestVoidIndex)
      ensures data.pixelOn == old(data.pixelOn)[largestVoidIndex := true]
      ensures data.energy == Apply(old(data.energy), PixelSplat(updater, largestVoidIndex, true))
      ensures data.pixelRank == old(data.pixelRank)
    {
      largestVoidIndex := updater.GetLargestVoid();
      updater.SetPixelOn(largestVoidIndex, true);
      SplatEnergyOn(largestVoidIndex);
    }

    /** Turns on one pixel and splats energy around it. */
    method TurnOn(pixelIndex: nat)
      requires Valid() && pixelIndex < numPixels
      modifies data`pixelOn, data`energy, updater.Caches()
      ensures Valid() && data.pixelOn == old(data.pixelOn)[pixelIndex := true]
      ensures data.energy == Apply(old(data.energy), PixelSplat(updater, pixelIndex, true))
    {
      updater.SetPixelOn(pixelIndex, true);
      SplatEnergyOn(pixelIndex);
    }

    /** Inverts one pixel and splats energy around it if it turned on. */
    method InvertAndSplat(pixelIndex: nat)
      requires Valid() && pixelIndex < numPixels
      modifies data`pixelOn, data`energy, updater.Caches()
      ensures Valid() && data.pixelOn == old(data.pixelOn)[pixelIndex := !old(data.pixelOn[pixelIndex])]
      ensures data.energy == if data.pixelOn[pixelIndex] then Apply(old(data.energy), PixelSplat(updater, pixelIndex, true))
                             else old(data.energy)
    {
      updater.InvertPixelOn(pixelIndex);
      if data.pixelOn[pixelIndex] {
        SplatEnergyOn(pixelIndex);
      }
    }

    /** Gives one pixel a rank. */
    method Rank(pixelIndex: nat, rank: nat)
      requires Valid() && pixelIndex < numPixels
      modifies data`pixelRank
      ensures Valid() && data.pixelRank == old(data.pixelRank)[pixelIndex := rank]
    {
      updater.SetPixelRank(pixelIndex, rank);
    }

    /** The tightest cluster turns off, splats its energy away and gets rank `rank`. */
    method TurnOffAndRank(rank: nat) returns (tightestClusterIndex: nat)
      requires Valid() && AnyOn(data.pixelOn)
      modifies data`pixelOn, data`pixelRank, data`energy, updater.Caches()
      ensures Valid() && tightestClusterIndex < numPixels
      ensures ClusterRemoved(updater, GridState(old(data.pixelOn), old(data.pixelRank), old(data.energy)), tightestClusterIndex,
                             rank, GridState(data.pixelOn, data.pixelRank, data.energy))
    {
      tightestClusterIndex := TurnOffTightestCluster();
      Rank(tightestClusterIndex, rank);
    }

    /** One reorganisation step: the tightest cluster turns off, then the largest void turns on. */
    method SwapClusterToVoid() returns (tightestClusterIndex: nat, largestVoidIndex: nat)
      requires Valid() && AnyOn(data.pixelOn)
      modifies data`pixelOn, data`energy, updater.Caches()
      ensures Valid() && AnyOn(data.pixelOn) && Count(data.pixelOn) == old(Count(data.pixelOn))
      ensures IsTightestCluster(old(data.energy), old(data.pixelOn), tightestClusterIndex)
      ensures IsLargestVoid(Apply(old(data.energy), PixelSplat(updater, tightestClusterIndex, false)),
                            old(data.pixelOn)[tightestClusterIndex := false], largestVoidIndex)
      ensures data.pixelOn == old(data.pixelOn)[tightestClusterIndex := false][largestVoidIndex := true]
      ensures data.energy == Apply(Apply(old(data.energy), PixelSplat(updater, tightestClusterIndex, false)),
                                   PixelSplat(updater, largestVoidIndex, true))
    {
      ghost var on0 := data.pixelOn;
      tightestClusterIndex := TurnOffTightestCluster();
      ghost var on1 := data.pixelOn;
      assert !on1[tightestClusterIndex];
      largestVoidIndex := TurnOnLargestVoid();
      CountUpdate(on0, tightestClusterIndex, false);
      CountUpdate(on1, largestVoidIndex, true);
      assert data.pixelOn[largestVoidIndex];
    }

    /**
     * Moves the tightest cluster into the largest void until both are the same
     * pixel. `fuel` bounds the iterations; the loop in the original has none.
     * `trace` holds the grid before and after each swap, and swap `k` moved
     * `clusters[k]` to `voids[k]`.
     */
    method ReorganizeToBlueNoise(fuel: nat)
      returns (ghost trace: seq<GridState>, ghost clusters: seq<nat>, ghost voids: seq<nat>)
      requires Valid() && AnyOn(data.pixelOn)
      modifies this`pd, data`pixelOn, data`energy, updater.Caches()
      ensures Valid() && AnyOn(data.pixelOn) && Count(data.pixelOn) == old(Count(data.pixelOn))
      ensures pd == old(pd).(reorganizeToBlueNoiseIterationsSoFar := pd.reorganizeToBlueNoiseIterationsSoFar,
                             reorganizeToBlueNoiseFinished := pd.reorganizeToBlueNoiseFinished)
      ensures pd.reorganizeToBlueNoiseIterationsSoFar <= fuel
      ensures SwapTrace(updater, trace, clusters, voids) && |clusters| == pd.reorganizeToBlueNoiseIterationsSoFar
      ensures trace[0] == GridState(old(data.pixelOn), old(data.pixelRank), old(data.energy))
      ensures trace[|clusters|] == GridState(data.pixelOn, data.pixelRank, data.energy)
      ensures pd.reorganizeToBlueNoiseFinished == (old(pd.reorganizeToBlueNoiseFinished) || LastSwapStays(clusters, voids))
      ensures pd.reorganizeToBlueNoiseIterationsSoFar < fuel ==> LastSwapStays(clusters, voids)
    {
      ghost var on0, s0 := data.pixelOn, GridState(data.pixelOn, data.pixelRank, data.energy);
      trace, clusters, voids := [s0], [], [];
      pd := pd.(reorganizeToBlueNoiseIterationsSoFar := 0);
      var finished := false;
      while pd.reorganizeToBlueNoiseIterationsSoFar < fuel && !finished
        invariant Reorganizing(Count(on0), s0, trace, clusters, voids, finished)
        invariant pd == old(pd).(reorganizeToBlueNoiseIterationsSoFar := pd.reorganizeToBlueNoiseIterationsSoFar)
        invariant |clusters| == pd.reorganizeToBlueNoiseIterationsSoFar <= fuel
        decreases fuel - pd.reorganizeToBlueNoiseIterationsSoFar
      {
        assert data !in updater.Caches();
        finished, trace, clusters, voids := SwapAndRecord(Count(on0), s0, trace, clusters, voids);
        pd := pd.(reorganizeToBlueNoiseIterationsSoFar := pd.reorganizeToBlueNoiseIterationsSoFar + 1);
      }
      if finished {
        pd := pd.(reorganizeToBlueNoiseFinished := true);
      }
    }

    /**
     * The reorganisation so far: `count` pixels on, the swaps recorded in the
     * trace from `s0` to the current grid, `finished` once the last swap put
     * its pixel back.
     */
    ghost predicate Reorganizing(count: nat, s0: GridState, trace: seq<GridState>, clusters: seq<nat>, voids: seq<nat>,
                                 finished: bool)
      reads updater.Repr()
    {
      && Valid() && AnyOn(data.pixelOn) && Count(data.pixelOn) == count
      && SwapTrace(updater, trace, clusters, voids)
      && trace[0] == s0 && trace[|clusters|] == GridState(data.pixelOn, data.pixelRank, data.energy)
      && finished == LastSwapStays(clusters, voids)
    }

    /** The body of the reorganisation loop: one swap, recorded in the trace; `finished` when it put the pixel back. */
    method SwapAndRecord(ghost count: nat, ghost s0: GridState, ghost trace: seq<GridState>, ghost clusters: seq<nat>, ghost voids: seq<nat>)
      returns (finished: bool, ghost trace1: seq<GridState>, ghost clusters1: seq<nat>, ghost voids1: seq<nat>)
      requires Reorganizing(count, s0, trace, clusters, voids, false)
      modifies data`pixelOn, data`energy, updater.Caches()
      ensures Reorganizing(count, s0, trace1, clusters1, voids1, finished)
      ensures |clusters1| == |clusters| + 1
    {
      var tightestClusterIndex, largestVoidIndex := SwapClusterToVoid();
      SwapTraceStep(updater, trace, clusters, voids, tightestClusterIndex, largestVoidIndex,
                    GridState(data.pixelOn, data.pixelRank, data.energy));
      trace1 := trace + [GridState(data.pixelOn, data.pixelRank, data.energy)];
      clusters1, voids1 := clusters + [tightestClusterIndex], voids + [largestVoidIndex];
      finished := tightestClusterIndex == largestVoidIndex;
    }

    /**
     * Removes the tightest cluster until no pixel is on; the pixel removed
     * when `r` pixels remain after it gets rank `r`.
     */
    method Phase1Part1() returns (ghost trace: seq<GridState>, ghost removed: seq<nat>)
      requires Valid() && forall i :: 0 <= i < numPixels ==> data.pixelRank[i] >= numPixels
      modifies this`pd, data`pixelOn, data`pixelRank, data`energy, updater.Caches()
      ensures Valid()
      ensures forall i :: 0 <= i < numPixels ==> !data.pixelOn[i] && (data.pixelRank[i] < numPixels <==> old(data.pixelOn[i]))
      ensures forall i :: 0 <= i < numPixels && !old(data.pixelOn[i]) ==> data.pixelRank[i] == old(data.pixelRank[i])
      ensures RanksBelow(data.pixelRank, numPixels, old(Count(data.pixelOn))) && DistinctRanks(data.pixelRank, numPixels)
      ensures pd == old(pd).(phase1Part1OnesCountRemaining := 0, phase1Part1OnesCountTotal := old(Count(data.pixelOn)))
      ensures RemovalTrace(updater, trace, removed, old(Count(data.pixelOn))) && |removed| == old(Count(data.pixelOn))
      ensures trace[0] == GridState(old(data.pixelOn), old(data.pixelRank), old(data.energy))
      ensures trace[|removed|] == GridState(data.pixelOn, data.pixelRank, data.energy)
    {
      ghost var on0, rank0 := data.pixelOn, data.pixelRank;
      trace, removed := [GridState(data.pixelOn, data.pixelRank, data.energy)], [];
      var count := updater.GetPixelOnCount();
      pd := pd.(phase1Part1OnesCountRemaining := count, phase1Part1OnesCountTotal := count);
      RemovalStarts(on0, rank0, numPixels);
      while pd.phase1Part1OnesCountRemaining > 0
        invariant Valid()
        invariant pd == old(pd).(phase1Part1OnesCountRemaining := pd.phase1Part1OnesCountRemaining,
                                 phase1Part1OnesCountTotal := Count(on0))
        invariant RemovalRanks(on0, rank0, data.pixelOn, data.pixelRank, numPixels, Count(on0), pd.phase1Part1OnesCountRemaining)
        invariant RemovalTrace(updater, trace, removed, Count(on0)) && |removed| + pd.phase1Part1OnesCountRemaining == Count(on0)
        invariant trace[0] == GridState(on0, rank0, old(data.energy))
        invariant trace[|removed|] == GridState(data.pixelOn, data.pixelRank, data.energy)
        decreases pd.phase1Part1OnesCountRemaining
      {
        ghost var before := GridState(data.pixelOn, data.pixelRank, data.energy);
        assert data !in updater.Caches();
        var tightestClusterIndex := RemoveTightestCluster(on0, rank0);
        RemovalTraceStep(updater, trace, removed, Count(on0), before, tightestClusterIndex, pd.phase1Part1OnesCountRemaining,
                         GridState(data.pixelOn, data.pixelRank, data.energy));
        trace, removed := trace + [GridState(data.pixelOn, data.pixelRank, data.energy)], removed + [tightestClusterIndex];
      }
      RemovalDone(on0, rank0, data.pixelOn, data.pixelRank, numPixels, Count(on0));
    }

    /** The body of the phase 1 part 1 loop: the tightest cluster turns off, ranked by the count left after it. */
    method RemoveTightestCluster(ghost on0: seq<bool>, ghost rank0: seq<nat>) returns (tightestClusterIndex: nat)
      requires Valid() && pd.phase1Part1OnesCountRemaining > 0
      requires RemovalRanks(on0, rank0, data.pixelOn, data.pixelRank, numPixels, Count(on0), pd.phase1Part1OnesCountRemaining)
      modifies this`pd, data`pixelOn, data`pixelRank, data`energy, updater.Caches()
      ensures Valid() && pd == old(pd).(phase1Part1OnesCountRemaining := old(pd.phase1Part1OnesCountRemaining) - 1)
      ensures RemovalRanks(on0, rank0, data.pixelOn, data.pixelRank, numPixels, Count(on0), pd.phase1Part1OnesCountRemaining)
      ensures ClusterRemoved(updater, GridState(old(data.pixelOn), old(data.pixelRank), old(data.energy)), tightestClusterIndex,
                             pd.phase1Part1OnesCountRemaining, GridState(data.pixelOn, data.pixelRank, data.energy))
    {
      ghost var on, rank := data.pixelOn, data.pixelRank;
      CountPositive(on);
      var remaining := pd.phase1Part1OnesCountRemaining;
      pd := pd.(phase1Part1OnesCountRemaining := remaining - 1);
      assert data !in updater.Caches();
      tightestClusterIndex := TurnOffAndRank(remaining - 1);
      RemovalStep(on0, rank0, on, rank, numPixels, Count(on0), remaining, tightestClusterIndex,
                  data.pixelOn, data.pixelRank, pd.phase1Part1OnesCountRemaining);
    }

    /**
     * Turns back on, in ascending order, every pixel that has a rank, splatting each.
     * The progress index starts at 0 and ends at `numPixels`.
     */
    method Phase1Part2()
      requires Valid()
      modifies this`pd, data`pixelOn, data`energy, updater.Caches()
      ensures Valid()
      ensures forall i :: 0 <= i < numPixels ==> data.pixelOn[i] == (old(data.pixelOn[i]) || data.pixelRank[i] < numPixels)
      ensures data.energy == Apply(old(data.energy), SplatsAt(updater, RankedIndices(data.pixelRank, numPixels, numPixels), true))
      ensures pd == old(pd).(phase1Part2PixelIndex := numPixels)
    {
      ghost var on0, rank0, e0 := data.pixelOn, data.pixelRank, data.energy;
      pd := pd.(phase1Part2PixelIndex := 0);
      RestoreRankedPixels(on0, rank0, e0);
      pd := pd.(phase1Part2PixelIndex := numPixels);
      RestoreDone(on0, data.pixelOn, rank0, numPixels);
    }

    /** The phase 1 part 2 loop over every pixel index. */
    method RestoreRankedPixels(ghost on0: seq<bool>, ghost rank0: seq<nat>, ghost e0: seq<real>)
      requires Valid() && data.pixelOn == on0 && data.pixelRank == rank0 && data.energy == e0
      modifies data`pixelOn, data`energy, updater.Caches()
      ensures Restoring(on0, rank0, e0, numPixels)
    {
      var pixelIndex := 0;
      while pixelIndex < numPixels
        invariant pixelIndex <= numPixels
        invariant Restoring(on0, rank0, e0, pixelIndex)
      {
        RestorePixelAt(pixelIndex, on0, rank0, e0);
        pixelIndex := pixelIndex + 1;
      }
    }

    /** Phase 1 part 2 after `k` pixels: only the flags and the energy have changed, by the restored pixels below `k`. */
    ghost predicate Restoring(on0: seq<bool>, rank0: seq<nat>, e0: seq<real>, k: nat)
      reads updater.Repr()
    {
      Valid() && data.pixelRank == rank0 && RestoredUpTo(on0, data.pixelOn, rank0, numPixels, k)
      && data.energy == Apply(e0, SplatsAt(updater, RankedIndices(rank0, numPixels, k), true))
    }

    /** The body of the phase 1 part 2 loop: pixel `i` turns back on if it has a rank. */
    method RestorePixelAt(i: nat, ghost on0: seq<bool>, ghost rank0: seq<nat>, ghost e0: seq<real>)
      requires i < numPixels && Restoring(on0, rank0, e0, i)
      modifies data`pixelOn, data`energy, updater.Caches()
      ensures Restoring(on0, rank0, e0, i + 1)
    {
      RestoreStep(on0, data.pixelOn, rank0, numPixels, i);
      if data.pixelRank[i] < numPixels {
        SplatsAtStep(updater, e0, data.energy, RankedIndices(rank0, numPixels, i), i, true);
        TurnOn(i);
      } else {
        assert RankedIndices(rank0, numPixels, i + 1) == RankedIndices(rank0, numPixels, i);
      }
    }

    /** Phase 1 ranks the pixels that are on, then restores them: the ranks are then progressive. */
    method Phase1()
      requires Valid() && forall i :: 0 <= i < numPixels ==> data.pixelRank[i] >= numPixels
      modifies this`pd, data`pixelOn, data`pixelRank, data`energy, updater.Caches()
      ensures Valid() && data.pixelOn == old(data.pixelOn)
      ensures ProgressiveRanks(data.pixelOn, data.pixelRank, numPixels)
    {
      ghost var on0 := data.pixelOn;
      ghost var trace, removed := Phase1Part1();
      Phase1Part2();
      RestoredIsProgressive(on0, data.pixelOn, data.pixelRank, numPixels);
    }

    /** Turns on the largest void, ranked by the count so far, until half the pixels are on. */
    method Phase2() returns (ghost trace: seq<GridState>, ghost added: seq<nat>)
      requires Valid() && ProgressiveRanks(data.pixelOn, data.pixelRank, numPixels)
      modifies this`pd, data`pixelOn, data`pixelRank, data`energy, updater.Caches()
      ensures Valid() && ProgressiveRanks(data.pixelOn, data.pixelRank, numPixels)
      ensures Count(data.pixelOn) == Max(old(Count(data.pixelOn)), numPixels / 2)
      ensures forall i :: 0 <= i < numPixels && old(data.pixelOn[i]) ==> data.pixelOn[i] && data.pixelRank[i] == old(data.pixelRank[i])
      ensures pd == old(pd).(phase2OnesCountCurrent := Count(data.pixelOn), phase2OnesCountTotal := numPixels / 2)
      ensures InsertionTrace(updater, trace, added, old(Count(data.pixelOn)))
      ensures |added| == Count(data.pixelOn) - old(Count(data.pixelOn))
      ensures trace[0] == GridState(old(data.pixelOn), old(data.pixelRank), old(data.energy))
      ensures trace[|added|] == GridState(data.pixelOn, data.pixelRank, data.energy)
    {
      ghost var on0, rank0 := data.pixelOn, data.pixelRank;
      trace, added := [GridState(data.pixelOn, data.pixelRank, data.energy)], [];
      var count := updater.GetPixelOnCount();
      pd := pd.(phase2OnesCountCurrent := count, phase2OnesCountTotal := numPixels / 2);
      ghost var s0 := trace[0];
      while pd.phase2OnesCountCurrent < pd.phase2OnesCountTotal
        invariant Inserting(on0, rank0, s0, trace, added)
        invariant pd == old(pd).(phase2OnesCountCurrent := Count(data.pixelOn), phase2OnesCountTotal := numPixels / 2)
        invariant Count(data.pixelOn) <= Max(Count(on0), numPixels / 2)
        decreases numPixels - pd.phase2OnesCountCurrent
      {
        ghost var before, count := GridState(data.pixelOn, data.pixelRank, data.energy), Count(data.pixelOn);
        assert data !in updater.Caches();
        var largestVoidIndex := AddLargestVoid(on0, rank0);
        InsertionTraceStep(updater, trace, added, Count(on0), before, largestVoidIndex, count,
                           GridState(data.pixelOn, data.pixelRank, data.energy));
        trace, added := trace + [GridState(data.pixelOn, data.pixelRank, data.energy)], added + [largestVoidIndex];
      }
      KeepsOnAll(on0, rank0, data.pixelOn, data.pixelRank);
    }

    /** Phase 2 so far: progressive ranks kept, and the insertions recorded in the trace from `s0` to the current grid. */
    ghost predicate Inserting(on0: seq<bool>, rank0: seq<nat>, s0: GridState, trace: seq<GridState>, added: seq<nat>)
      reads updater.Repr()
    {
      && Valid() && ProgressiveRanks(data.pixelOn, data.pixelRank, numPixels)
      && KeepsOn(on0, rank0, data.pixelOn, data.pixelRank)
      && InsertionTrace(updater, trace, added, Count(on0)) && Count(on0) + |added| == Count(data.pixelOn)
      && trace[0] == s0 && trace[|added|] == GridState(data.pixelOn, data.pixelRank, data.energy)
    }

    /** The body of the phase 2 loop: the largest void turns on, ranked by the count so far. */
    method AddLargestVoid(ghost on0: seq<bool>, ghost rank0: seq<nat>) returns (largestVoidIndex: nat)
      requires Valid() && ProgressiveRanks(data.pixelOn, data.pixelRank, numPixels)
      requires KeepsOn(on0, rank0, data.pixelOn, data.pixelRank)
      requires pd.phase2OnesCountCurrent == Count(data.pixelOn) < numPixels
      modifies this`pd, data`pixelOn, data`pixelRank, data`energy, updater.Caches()
      ensures Valid() && ProgressiveRanks(data.pixelOn, data.pixelRank, numPixels)
      ensures KeepsOn(on0, rank0, data.pixelOn, data.pixelRank) && Count(data.pixelOn) == old(Count(data.pixelOn)) + 1
      ensures pd == old(pd).(phase2OnesCountCurrent := old(pd.phase2OnesCountCurrent) + 1)
      ensures VoidFilled(updater, GridState(old(data.pixelOn), old(data.pixelRank), old(data.energy)), largestVoidIndex,
                         old(Count(data.pixelOn)), GridState(data.pixelOn, data.pixelRank, data.energy))
    {
      var count := pd.phase2OnesCountCurrent;
      pd := pd.(phase2OnesCountCurrent := count + 1);
      ghost var on, rank := data.pixelOn, data.pixelRank;
      CountBelowLength(on);
      assert data !in updater.Caches();
      largestVoidIndex := TurnOnLargestVoid();
      Rank(largestVoidIndex, count);
      InsertionStep(on, rank, numPixels, largestVoidIndex, data.pixelOn, data.pixelRank, count);
      KeepsOnStep(on0, rank0, on, rank, largestVoidIndex, count, data.pixelOn, data.pixelRank);
    }

    /** Zeroes the energy, then inverts every flag in ascending order, splatting each pixel that turns on. */
    method Phase3Part1()
      requires Valid()
      modifies this`pd, data`pixelOn, data`energy, updater.Caches()
      ensures Valid() && data.pixelOn == Inverted(old(data.pixelOn))
      ensures data.energy == Apply(seq(numPixels, _ => 0.0), SplatsAt(updater, OnIndices(data.pixelOn, numPixels), true))
      ensures pd == old(pd).(phase3Part1PixelCountCurrent := numPixels)
    {
      updater.SetAllEnergyToZero();
      InvertAllPixels();
    }

    /** The phase 3 part 1 loop: every flag inverted in ascending order, each pixel that turns on splatted. */
    method InvertAllPixels()
      requires Valid()
      modifies this`pd, data`pixelOn, data`energy, updater.Caches()
      ensures Valid() && data.pixelOn == Inverted(old(data.pixelOn))
      ensures data.energy == Apply(old(data.energy), SplatsAt(updater, OnIndices(Inverted(old(data.pixelOn)), numPixels), true))
      ensures pd == old(pd).(phase3Part1PixelCountCurrent := numPixels)
    {
      ghost var on0, e0 := data.pixelOn, data.energy;
      pd := pd.(phase3Part1PixelCountCurrent := 0);
      InvertPixels(on0, e0);
      pd := pd.(phase3Part1PixelCountCurrent := numPixels);
    }

    /** The phase 3 part 1 loop over every pixel index. */
    method InvertPixels(ghost on0: seq<bool>, ghost e0: seq<real>)
      requires Valid() && data.pixelOn == on0 && data.energy == e0
      modifies data`pixelOn, data`energy, updater.Caches()
      ensures Valid() && data.pixelOn == Inverted(on0)
      ensures data.energy == Apply(e0, SplatsAt(updater, OnIndices(Inverted(on0), numPixels), true))
    {
      var pixelIndex := 0;
      while pixelIndex < numPixels
        invariant pixelIndex <= numPixels
        invariant Inverting(on0, e0, pixelIndex)
      {
        InvertPixelAt(pixelIndex, on0, e0);
        pixelIndex := pixelIndex + 1;
      }
      InvertingDone(on0, e0, pixelIndex);
    }

    /** After every pixel: the flags are the inverse of `on0`, and the energy is splatted by each pixel now on. */
    lemma InvertingDone(on0: seq<bool>, e0: seq<real>, k: nat)
      requires Inverting(on0, e0, k) && k >= numPixels
      ensures k == numPixels && data.pixelOn == Inverted(on0)
      ensures data.energy == Apply(e0, SplatsAt(updater, OnIndices(Inverted(on0), numPixels), true))
    {
      InvertDone(on0, data.pixelOn);
    }

    /** Phase 3 part 1 after `k` pixels: the flags below `k` inverted, and the energy splatted by those that turned on. */
    ghost predicate Inverting(on0: seq<bool>, e0: seq<real>, k: nat)
      reads updater.Repr()
    {
      Valid() && InvertedUpTo(on0, data.pixelOn, k)
      && data.energy == Apply(e0, SplatsAt(updater, OnIndices(Inverted(on0), k), true))
    }

    /** The body of the phase 3 part 1 loop: pixel `i` is inverted, and splatted if it turned on. */
    method InvertPixelAt(i: nat, ghost on0: seq<bool>, ghost e0: seq<real>)
      requires i < numPixels && Inverting(on0, e0, i)
      modifies data`pixelOn, data`energy, updater.Caches()
      ensures Inverting(on0, e0, i + 1)
    {
      ghost var inverted := Inverted(on0);
      InvertStep(on0, data.pixelOn, i);
      if !data.pixelOn[i] {
        SplatsAtStep(updater, e0, data.energy, OnIndices(inverted, i), i, true);
      } else {
        assert OnIndices(inverted, i + 1) == OnIndices(inverted, i);
      }
      InvertAndSplat(i);
    }

    /**
     * Removes the tightest cluster until no pixel is on; the pixel removed
     * when `r` pixels are on gets rank `numPixels - r`.
     */
    method Phase3Part2() returns (ghost trace: seq<GridState>, ghost removed: seq<nat>)
      requires Valid() && ComplementRanks(data.pixelOn, data.pixelRank, numPixels)
      modifies this`pd, data`pixelOn, data`pixelRank, data`energy, updater.Caches()
      ensures Valid() && IsPermutation(data.pixelRank, numPixels)
      ensures forall i :: 0 <= i < numPixels ==> !data.pixelOn[i]
      ensures forall i :: 0 <= i < numPixels && !old(data.pixelOn[i]) ==> data.pixelRank[i] == old(data.pixelRank[i])
      ensures pd == old(pd).(phase3Part2OnesCountRemaining := 0, phase3Part2OnesCountTotal := old(Count(data.pixelOn)))
      ensures old(Count(data.pixelOn)) <= numPixels && |removed| == old(Count(data.pixelOn))
      ensures RankingTrace(updater, trace, removed, numPixels - |removed|)
      ensures trace[0] == GridState(old(data.pixelOn), old(data.pixelRank), old(data.energy))
      ensures trace[|removed|] == GridState(data.pixelOn, data.pixelRank, data.energy)
    {
      ghost var on0, rank0 := data.pixelOn, data.pixelRank;
      trace, removed := [GridState(data.pixelOn, data.pixelRank, data.energy)], [];
      CountBelowLength(on0);
      var count := updater.GetPixelOnCount();
      pd := pd.(phase3Part2OnesCountTotal := count, phase3Part2OnesCountRemaining := count);
      ghost var s0, base: nat := trace[0], numPixels - Count(on0);
      trace, removed := RankRemaining(on0, rank0, s0, base, trace, removed);
      RankingDone(on0, rank0, s0, base, trace, removed);
    }

    /** Once no pixel is on, the ranks are a permutation and the pixels that were off kept theirs. */
    lemma RankingDone(on0: seq<bool>, rank0: seq<nat>, s0: GridState, base: nat, trace: seq<GridState>, removed: seq<nat>)
      requires Ranking(on0, rank0, s0, base, trace, removed, 0)
      ensures IsPermutation(data.pixelRank, numPixels)
      ensures forall i :: 0 <= i < numPixels ==> !data.pixelOn[i]
      ensures forall i :: 0 <= i < numPixels && !on0[i] ==> data.pixelRank[i] == rank0[i]
      ensures RankingTrace(updater, trace, removed, numPixels - |removed|)
    {
      CountPositive(data.pixelOn);
      ComplementDone(data.pixelOn, data.pixelRank, numPixels);
      KeepsOffAll(on0, rank0, data.pixelOn, data.pixelRank);
    }

    /**
     * Phase 3 part 2 so far: `remaining` pixels still on, the complement ranks
     * kept, and the removals recorded in the trace from `s0` to the current grid.
     */
    ghost predicate Ranking(on0: seq<bool>, rank0: seq<nat>, s0: GridState, base: nat, trace: seq<GridState>,
                            removed: seq<nat>, remaining: nat)
      reads updater.Repr()
    {
      && Valid() && ComplementRanks(data.pixelOn, data.pixelRank, numPixels)
      && KeepsOff(on0, rank0, data.pixelOn, data.pixelRank) && remaining == Count(data.pixelOn)
      && base + Count(on0) == numPixels && |removed| + remaining == Count(on0)
      && RankingTrace(updater, trace, removed, base)
      && trace[0] == s0 && trace[|removed|] == GridState(data.pixelOn, data.pixelRank, data.energy)
    }

    /** The phase 3 part 2 loop: ranked removals until no pixel is on, counted down in the progress data. */
    method RankRemaining(ghost on0: seq<bool>, ghost rank0: seq<nat>, ghost s0: GridState, ghost base: nat,
                         ghost trace: seq<GridState>, ghost removed: seq<nat>)
      returns (ghost trace1: seq<GridState>, ghost removed1: seq<nat>)
      requires Ranking(on0, rank0, s0, base, trace, removed, pd.phase3Part2OnesCountRemaining)
      modifies this`pd, data`pixelOn, data`pixelRank, data`energy, updater.Caches()
      ensures Ranking(on0, rank0, s0, base, trace1, removed1, 0)
      ensures pd == old(pd).(phase3Part2OnesCountRemaining := 0)
    {
      trace1, removed1 := trace, removed;
      var remaining := pd.phase3Part2OnesCountRemaining;
      while remaining > 0
        invariant Ranking(on0, rank0, s0, base, trace1, removed1, remaining)
        invariant pd == old(pd).(phase3Part2OnesCountRemaining := remaining)
      {
        trace1, removed1 := RankAndRecord(on0, rank0, s0, base, trace1, removed1, remaining);
        remaining := remaining - 1;
        pd := pd.(phase3Part2OnesCountRemaining := remaining);
      }
    }

    /** The body of the phase 3 part 2 loop: one ranked removal, recorded in the trace. */
    method RankAndRecord(ghost on0: seq<bool>, ghost rank0: seq<nat>, ghost s0: GridState, ghost base: nat,
                         ghost trace: seq<GridState>, ghost removed: seq<nat>, remaining: nat)
      returns (ghost trace1: seq<GridState>, ghost removed1: seq<nat>)
      requires remaining > 0 && Ranking(on0, rank0, s0, base, trace, removed, remaining)
      modifies data`pixelOn, data`pixelRank, data`energy, updater.Caches()
      ensures Ranking(on0, rank0, s0, base, trace1, removed1, remaining - 1)
    {
      ghost var before := GridState(data.pixelOn, data.pixelRank, data.energy);
      var rank := numPixels - remaining;
      assert data !in updater.Caches();
      var tightestClusterIndex := RankTightestCluster(rank, on0, rank0);
      RankingTraceStep(updater, trace, removed, base, before, tightestClusterIndex, rank,
                       GridState(data.pixelOn, data.pixelRank, data.energy));
      trace1, removed1 := trace + [GridState(data.pixelOn, data.pixelRank, data.energy)], removed + [tightestClusterIndex];
    }

    /** One phase 3 part 2 step: the tightest cluster turns off with rank `numPixels` minus the count on. */
    method RankTightestCluster(rank: nat, ghost on0: seq<bool>, ghost rank0: seq<nat>) returns (tightestClusterIndex: nat)
      requires Valid() && ComplementRanks(data.pixelOn, data.pixelRank, numPixels)
      requires KeepsOff(on0, rank0, data.pixelOn, data.pixelRank)
      requires Count(data.pixelOn) > 0 && rank == numPixels - Count(data.pixelOn)
      modifies data`pixelOn, data`pixelRank, data`energy, updater.Caches()
      ensures Valid() && ComplementRanks(data.pixelOn, data.pixelRank, numPixels)
      ensures KeepsOff(on0, rank0, data.pixelOn, data.pixelRank) && Count(data.pixelOn) == old(Count(data.pixelOn)) - 1
      ensures ClusterRemoved(updater, GridState(old(data.pixelOn), old(data.pixelRank), old(data.energy)), tightestClusterIndex,
                             rank, GridState(data.pixelOn, data.pixelRank, data.energy))
    {
      ghost var on, oldRank := data.pixelOn, data.pixelRank;
      CountPositive(on);
      assert data !in updater.Caches();
      tightestClusterIndex := TurnOffAndRank(rank);
      RankedOffStep(on0, rank0, on, oldRank, numPixels, tightestClusterIndex, data.pixelOn, data.pixelRank, rank);
    }

    /** Phase 3 ranks every pixel left unranked, completing a permutation. */
    method Phase3()
      requires Valid() && ProgressiveRanks(data.pixelOn, data.pixelRank, numPixels)
      modifies this`pd, data`pixelOn, data`pixelRank, data`energy, updater.Caches()
      ensures Valid() && IsPermutation(data.pixelRank, numPixels)
      ensures forall i :: 0 <= i < numPixels && old(data.pixelRank[i]) < numPixels ==> data.pixelRank[i] == old(data.pixelRank[i])
    {
      InvertedIsComplement(data.pixelOn, data.pixelRank, numPixels);
      Phase3Part1();
      ghost var trace, removed := Phase3Part2();
    }
  }
}
