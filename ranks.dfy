// The rank bookkeeping of the void-and-cluster phases. A rank below the
// pixel count `n` is an assigned rank; `n` itself (any rank >= n) means
// "unranked". Each phase keeps one of the predicates below, and the last
// phase ends with every pixel ranked by a permutation of [0, n).
module Ranks {
  import opened Data

  /** No two pixels share an assigned rank. */
  predicate DistinctRanks(rank: seq<nat>, n: nat)
  {
    forall i, j :: 0 <= i < |rank| && 0 <= j < |rank| && i != j && rank[i] < n ==> rank[i] != rank[j]
  }

  /** Every assigned rank is below `bound`. */
  predicate RanksBelow(rank: seq<nat>, n: nat, bound: int)
  {
    forall i :: 0 <= i < |rank| && rank[i] < n ==> rank[i] < bound
  }

  /** The ranks are a permutation of [0, n): `n` distinct values, each below `n`. */
  predicate IsPermutation(rank: seq<nat>, n: nat)
  {
    |rank| == n && (forall i :: 0 <= i < n ==> rank[i] < n) && DistinctRanks(rank, n)
  }

  /**
   * After phase 1 and after phase 2: the on pixels are exactly the ranked
   * ones, with distinct ranks below their count.
   */
  predicate ProgressiveRanks(on: seq<bool>, rank: seq<nat>, n: nat)
  {
    |on| == n && |rank| == n && (forall i :: 0 <= i < n ==> (on[i] <==> rank[i] < n))
    && RanksBelow(rank, n, Count(on)) && DistinctRanks(rank, n)
  }

  /**
   * During phase 3: the on pixels are exactly the unranked ones, and the
   * assigned ranks are distinct and below the number of off pixels.
   */
  predicate ComplementRanks(on: seq<bool>, rank: seq<nat>, n: nat)
  {
    |on| == n && |rank| == n && (forall i :: 0 <= i < n ==> (on[i] <==> rank[i] >= n))
    && RanksBelow(rank, n, n - Count(on)) && DistinctRanks(rank, n)
  }

  /**
   * Phase 1 part 1 after some removals: the pixels removed so far are the
   * ranked ones, with distinct ranks in [remaining, total); the rest keep
   * their ranks, and `remaining` pixels are still on.
   */
  predicate RemovalRanks(on0: seq<bool>, rank0: seq<nat>, on: seq<bool>, rank: seq<nat>, n: nat,
                         total: nat, remaining: nat)
  {
    |on0| == n && |rank0| == n && |on| == n && |rank| == n
    && total == Count(on0) && remaining == Count(on) && remaining <= total
    && (forall i :: 0 <= i < n && on[i] ==> on0[i])
    && (forall i :: 0 <= i < n ==> (on0[i] && !on[i] <==> rank[i] < n))
    && (forall i :: 0 <= i < n && !(on0[i] && !on[i]) ==> rank[i] == rank0[i])
    && (forall i :: 0 <= i < n && rank[i] < n ==> remaining <= rank[i] < total)
    && DistinctRanks(rank, n)
  }

  /** A value below every assigned rank, or above all of them, can rank an unranked pixel. */
  lemma FreshRank(rank: seq<nat>, n: nat, p: nat, r: nat)
    requires p < |rank| && rank[p] >= n && DistinctRanks(rank, n)
    requires forall i :: 0 <= i < |rank| && rank[i] < n ==> rank[i] != r
    ensures DistinctRanks(rank[p := r], n)
  {
  }

  /** Before any removal, with every pixel unranked. */
  lemma RemovalStarts(on: seq<bool>, rank: seq<nat>, n: nat)
    requires |on| == n && |rank| == n && forall i :: 0 <= i < n ==> rank[i] >= n
    ensures RemovalRanks(on, rank, on, rank, n, Count(on), Count(on))
  {
  }

  /** Removing an on pixel and giving it rank `remaining - 1`. */
  lemma RemovalStep(on0: seq<bool>, rank0: seq<nat>, on: seq<bool>, rank: seq<nat>, n: nat,
                    total: nat, remaining: nat, c: nat, on1: seq<bool>, rank1: seq<nat>, left: nat)
    requires RemovalRanks(on0, rank0, on, rank, n, total, remaining)
    requires c < n && on[c] && left + 1 == remaining
    requires on1 == on[c := false] && rank1 == rank[c := left]
    ensures RemovalRanks(on0, rank0, on1, rank1, n, total, left)
  {
    CountUpdate(on, c, false);
    FreshRank(rank, n, c, left);
  }

  /** With no pixel left on, exactly the initially on pixels are ranked, below their count. */
  lemma RemovalDone(on0: seq<bool>, rank0: seq<nat>, on: seq<bool>, rank: seq<nat>, n: nat, total: nat)
    requires RemovalRanks(on0, rank0, on, rank, n, total, 0)
    ensures forall i :: 0 <= i < n ==> !on[i] && (rank[i] < n <==> on0[i])
    ensures RanksBelow(rank, n, total) && DistinctRanks(rank, n)
  {
    CountPositive(on);
  }

  /** Restoring the on states of the ranked pixels makes the ranks progressive. */
  lemma RestoredIsProgressive(on0: seq<bool>, on: seq<bool>, rank: seq<nat>, n: nat)
    requires |on0| == n && |on| == n && |rank| == n
    requires forall i :: 0 <= i < n ==> (rank[i] < n <==> on0[i]) && on[i] == (rank[i] < n)
    requires RanksBelow(rank, n, Count(on0)) && DistinctRanks(rank, n)
    ensures on == on0 && ProgressiveRanks(on, rank, n)
  {
    assert forall i :: 0 <= i < n ==> on[i] == on0[i];
  }

  /** Phase 2: turning an off pixel on with rank equal to the count so far. */
  lemma InsertionStep(on: seq<bool>, rank: seq<nat>, n: nat, v: nat, on1: seq<bool>, rank1: seq<nat>, r: nat)
    requires ProgressiveRanks(on, rank, n) && v < n && !on[v] && Count(on) < n
    requires r == Count(on) && on1 == on[v := true] && rank1 == rank[v := r]
    ensures Count(on1) == Count(on) + 1
    ensures ProgressiveRanks(on1, rank1, n)
  {
    CountUpdate(on, v, true);
    FreshRank(rank, n, v, r);
  }

  /** Inverting every flag turns progressive ranks into complementary ones. */
  lemma InvertedIsComplement(on: seq<bool>, rank: seq<nat>, n: nat)
    requires ProgressiveRanks(on, rank, n)
    ensures ComplementRanks(Inverted(on), rank, n)
  {
    CountInverted(on);
  }

  /** Phase 3: removing an on pixel and giving it rank `n - Count(on)`. */
  lemma ComplementStep(on: seq<bool>, rank: seq<nat>, n: nat, c: nat)
    requires ComplementRanks(on, rank, n) && c < n && on[c]
    ensures Count(on[c := false]) == Count(on) - 1 && n - Count(on) < n
    ensures ComplementRanks(on[c := false], rank[c := n - Count(on)], n)
  {
    CountUpdate(on, c, false);
    CountPositive(on);
    FreshRank(rank, n, c, n - Count(on));
  }

  /** With no pixel left on in phase 3, every pixel is ranked and the ranks are a permutation. */
  lemma ComplementDone(on: seq<bool>, rank: seq<nat>, n: nat)
    requires ComplementRanks(on, rank, n) && Count(on) == 0
    ensures IsPermutation(rank, n)
  {
    CountPositive(on);
  }
}
