/** What happens to the shared sample pool (config.splitters) and to a
    worker's splitter_intervals during a sampling round of hss_thread.
    Every worker starts with splitter_intervals = p - 1 zeros. In the first
    round, worker 0 sorts the pool and sets interval i to the pooled sample at
    rank (i + 1) * (T / p), T being the pool size; no other worker ever writes
    its own splitter_intervals. After the histogram, every worker adds its
    counters into the first p entries of the pool. */
module Splitters {
  import opened Arithmetic
  import opened Sorting
  import opened Bins

  /** splitter_intervals as every worker creates it: p - 1 zeros. */
  function InitialIntervals(p: nat): (ivs: seq<int>)
    requires 1 <= p
    ensures |ivs| == p - 1
    ensures forall i :: 0 <= i < p - 1 ==> ivs[i] == 0
  {
    seq(p - 1, _ => 0)
  }

  /** Against p - 1 zero intervals, the intervals every worker but 0 keeps,
      the histogram puts every negative value in bin 0 and every other value
      in the last bin p - 1. */
  lemma ZeroIntervalsBin(p: nat, v: int)
    requires 1 <= p
    ensures Bin(InitialIntervals(p), v) == if v < 0 then 0 else p - 1
  {
    var ivs := InitialIntervals(p);
    BinIsCountAtMost(ivs, v);
    CountAtMostAtBoundary(ivs, v, if v < 0 then 0 else p - 1);
  }

  /** The pool rank of interval i: (i + 1) * (T / p). It is a valid index of a
      non-empty pool for each of the p - 1 intervals. */
  function SplitterRank(t: nat, p: nat, i: nat): (r: nat)
    requires 1 <= p && 1 <= t && i < p - 1
    ensures r < t
  {
    var q := t / p;
    DivTimesAtMost(t, p);
    MulMonotone(i + 1, p - 1, q);
    MulSucc(p - 1, q);
    (i + 1) * q
  }

  /** Ranks do not decrease with the interval index. */
  lemma RankMonotone(t: nat, p: nat, i: nat, j: nat)
    requires 1 <= p && 1 <= t && i <= j < p - 1
    ensures SplitterRank(t, p, i) <= SplitterRank(t, p, j)
  {
    MulMonotone(i + 1, j + 1, t / p);
  }

  /** Lines 78-83. Worker 0, in round 0 only, sorts the pool in place and
      writes exactly p - 1 intervals, each the pooled sample at its rank, so
      the intervals come out non-decreasing. Everyone else changes nothing.
      With p = 1 no interval is written and the pool may be empty; with
      p >= 2 the program indexes the pool, which must then be non-empty. */
  method SelectSplitters(tid: nat, iter: nat, pool: seq<int>, intervals: seq<int>, p: nat)
    returns (newPool: seq<int>, newIntervals: seq<int>)
    requires 1 <= p && |intervals| == p - 1
    requires tid == 0 && iter == 0 && 2 <= p ==> 1 <= |pool|
    ensures |newIntervals| == p - 1
    ensures tid == 0 && iter == 0 ==>
              Sorted(newPool) && multiset(newPool) == multiset(pool) &&
              |newPool| == |pool| && Sorted(newIntervals) &&
              forall i :: 0 <= i < p - 1 ==> newIntervals[i] == newPool[SplitterRank(|pool|, p, i)]
    ensures !(tid == 0 && iter == 0) ==> newPool == pool && newIntervals == intervals
  {
    newPool, newIntervals := pool, intervals;
    if tid == 0 && iter == 0 {
      newPool := Sort(pool);
      assert |newPool| == |pool| by {
        assert |multiset(newPool)| == |multiset(pool)|;
      }
      var i := 0;
      while i < p - 1
        invariant 0 <= i <= p - 1
        invariant |newIntervals| == p - 1
        invariant forall k :: 0 <= k < i ==> newIntervals[k] == newPool[SplitterRank(|pool|, p, k)]
      {
        newIntervals := newIntervals[i := newPool[SplitterRank(|newPool|, p, i)]];
        i := i + 1;
      }
      forall i, j | 0 <= i < j < p - 1 ensures newIntervals[i] <= newIntervals[j] {
        RankMonotone(|pool|, p, i, j);
      }
    }
  }

  /** Line 98: every worker adds its p counters into the first p entries of
      the pool. The program does not check that the pool has p entries. */
  method AddHistogram(pool: seq<int>, hist: seq<int>) returns (newPool: seq<int>)
    requires |hist| <= |pool|
    ensures |newPool| == |pool|
    ensures forall i :: 0 <= i < |hist| ==> newPool[i] == pool[i] + hist[i]
    ensures forall i :: |hist| <= i < |pool| ==> newPool[i] == pool[i]
  {
    newPool := pool;
    var i := 0;
    while i < |hist|
      invariant 0 <= i <= |hist|
      invariant |newPool| == |pool|
      invariant forall k :: 0 <= k < i ==> newPool[k] == pool[k] + hist[k]
      invariant forall k :: i <= k < |pool| ==> newPool[k] == pool[k]
    {
      newPool := newPool[i := newPool[i] + hist[i]];
      i := i + 1;
    }
  }

  /** Adding counters can leave a sorted pool unsorted, so the final partition
      may search a pool that is not sorted: this happens whenever counter 0
      exceeds counter 1 by more than the gap between the first two samples
      (for example [1, 2] with counters [5, 0] becomes [6, 2]). */
  method AddHistogramCanUnsort(pool: seq<int>, hist: seq<int>) returns (newPool: seq<int>)
    requires Sorted(pool) && 2 <= |hist| <= |pool|
    requires pool[1] - pool[0] < hist[0] - hist[1]
    ensures |newPool| == |pool|
    ensures forall i :: 0 <= i < |hist| ==> newPool[i] == pool[i] + hist[i]
    ensures !Sorted(newPool)
  {
    newPool := AddHistogram(pool, hist);
  }
}
