/** The capped local histogram of hss_thread: local_hist has one counter per
    worker; for each value of local_data the counter of its bin (against the
    worker's splitter_intervals, p - 1 entries) is incremented only while it is
    below target_max. target_max is a parameter here: the program computes it
    in floating point and truncates it to int, so it may even be negative. */
module Histogram {
  import opened Bins
  import opened Partition

  function Min(a: int, b: int): int { if a <= b then a else b }

  function Max(a: int, b: int): int { if a <= b then b else a }

  /** Sum of the counters, accumulated from the front. */
  function Sum(h: seq<int>): int {
    if h == [] then 0 else Sum(h[..|h| - 1]) + h[|h| - 1]
  }

  /** Number of values of s that fall in bins 0 .. k-1. */
  function BinTotal(s: seq<int>, splitters: seq<int>, k: nat): nat {
    if k == 0 then 0 else BinTotal(s, splitters, k - 1) + |OwnBucket(s, splitters, k - 1)|
  }

  /** Appending one value adds one to the total exactly when its bin is below k. */
  lemma {:induction false} BinTotalSnoc(s: seq<int>, x: int, splitters: seq<int>, k: nat)
    ensures BinTotal(s + [x], splitters, k) ==
            BinTotal(s, splitters, k) + (if Bin(splitters, x) < k then 1 else 0)
  {
    assert (s + [x])[..|s + [x]| - 1] == s;
    if k > 0 {
      BinTotalSnoc(s, x, splitters, k - 1);
    }
  }

  /** No values, no bin holds anything. */
  lemma {:induction false} BinTotalEmpty(splitters: seq<int>, k: nat)
    ensures BinTotal([], splitters, k) == 0
  {
    if k > 0 {
      BinTotalEmpty(splitters, k - 1);
    }
  }

  /** Once k exceeds every possible bin, the bins hold all of s. */
  lemma {:induction false} BinTotalCoversAll(s: seq<int>, splitters: seq<int>, k: nat)
    requires |splitters| < k
    ensures BinTotal(s, splitters, k) == |s|
  {
    if s != [] {
      var init := s[..|s| - 1];
      assert s == init + [s[|s| - 1]];
      BinTotalCoversAll(init, splitters, k);
      BinTotalSnoc(init, s[|s| - 1], splitters, k);
    } else {
      BinTotalEmpty(splitters, k);
    }
  }

  /** Counters bounded bin by bin by the bin sizes sum to at most the bins' total. */
  lemma {:induction false} SumAtMostBinTotal(h: seq<int>, s: seq<int>, splitters: seq<int>)
    requires forall b :: 0 <= b < |h| ==> h[b] <= |OwnBucket(s, splitters, b)|
    ensures Sum(h) <= BinTotal(s, splitters, |h|)
  {
    if h != [] {
      var init := h[..|h| - 1];
      assert forall b :: 0 <= b < |init| ==> init[b] == h[b];
      SumAtMostBinTotal(init, s, splitters);
    }
  }

  /** Lines 88-95. Counter b ends as the number of values in bin b, capped at
      max(0, target_max); no counter exceeds the cap and together they count
      at most |local_data| values. */
  method LocalHistogram(localData: seq<int>, splitterIntervals: seq<int>, p: nat, targetMax: int)
    returns (hist: seq<int>)
    requires 1 <= p && |splitterIntervals| == p - 1
    ensures |hist| == p
    ensures forall b :: 0 <= b < p ==>
              hist[b] == Min(|OwnBucket(localData, splitterIntervals, b)|, Max(0, targetMax))
    ensures forall b :: 0 <= b < p ==> 0 <= hist[b] <= Max(0, targetMax)
    ensures Sum(hist) <= |localData|
  {
    hist := seq(p, _ => 0);
    var i := 0;
    while i < |localData|
      invariant 0 <= i <= |localData|
      invariant |hist| == p
      invariant forall b :: 0 <= b < p ==>
                  hist[b] == Min(|OwnBucket(localData[..i], splitterIntervals, b)|, Max(0, targetMax))
    {
      var val := localData[i];
      var bin := Bin(splitterIntervals, val);
      forall b | 0 <= b < p
        ensures |OwnBucket(localData[..i + 1], splitterIntervals, b)| ==
                |OwnBucket(localData[..i], splitterIntervals, b)| + (if b == bin then 1 else 0)
      {
        OwnBucketExtend(localData, i, splitterIntervals, b);
      }
      if hist[bin] < targetMax {
        hist := hist[bin := hist[bin] + 1];
      }
      i := i + 1;
    }
    assert localData[..|localData|] == localData;
    SumAtMostBinTotal(hist, localData, splitterIntervals);
    BinTotalCoversAll(localData, splitterIntervals, p);
  }
}
