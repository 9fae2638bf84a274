/** The per-worker steps put together, with the shared pool that the final
    partition searches given as a parameter (its contents depend on the
    random samples). Worker tid ends with the sorted values of its own chunk
    whose bin against that pool is tid; main concatenates these in tid order.
    Values never move between workers, so a value whose bin is not the worker
    that loaded it is lost, and main then takes the loss error path. */
module Pipeline {
  import opened Sorting
  import opened Chunking
  import opened Bins
  import opened Partition
  import opened Assembly
  import opened Worker
  import opened Splitters
  import opened Histogram

  /** What worker tid's local_data holds when hss_thread returns. */
  predicate WorkerBucket(data: seq<int>, p: nat, splitters: seq<int>, tid: nat, bucket: seq<int>)
    requires 1 <= p && tid < p
  {
    Sorted(bucket) && multiset(bucket) == multiset(OwnBucket(Chunk(data, p, tid), splitters, tid))
  }

  /** The local_data of all p workers, in tid order. */
  predicate WorkerBuckets(data: seq<int>, p: nat, splitters: seq<int>, buckets: seq<seq<int>>)
    requires 1 <= p
  {
    |buckets| == p && forall tid :: 0 <= tid < p ==> WorkerBucket(data, p, splitters, tid, buckets[tid])
  }

  /** Every value's bin is the worker whose chunk holds its index. */
  predicate NoneMisplaced(data: seq<int>, p: nat, splitters: seq<int>)
    requires 1 <= p
  {
    forall k :: 0 <= k < |data| ==> Bin(splitters, data[k]) == Owner(|data|, p, k)
  }

  /** hss_thread for one worker, as far as its local_data is concerned: load
      and sort the chunk, then extract the own bucket against the pool. */
  method RunWorker(data: seq<int>, p: nat, tid: nat, splitters: seq<int>) returns (localData: seq<int>)
    requires 1 <= p && tid < p
    ensures WorkerBucket(data, p, splitters, tid, localData)
  {
    var td := new ThreadData(tid);
    td.LoadChunk(data, p);
    ghost var loaded := td.localData;
    td.ExtractBucket(splitters);
    OwnBucketPermutation(loaded, Chunk(data, p, tid), splitters, tid);
    localData := td.localData;
  }

  /** All workers, then the checks of main. The loss error is reported exactly
      when some value is misplaced; otherwise the run validates, whatever the
      pool, so the "Sorting failed!" branch is never taken. */
  method RunPipeline(data: seq<int>, p: nat, splitters: seq<int>)
    returns (buckets: seq<seq<int>>, outcome: Outcome)
    requires 1 <= p
    ensures WorkerBuckets(data, p, splitters, buckets)
    ensures outcome.ElementsLost? <==> !NoneMisplaced(data, p, splitters)
    ensures outcome == SortingValidated <==> NoneMisplaced(data, p, splitters)
    ensures outcome != SortingFailed
    ensures outcome == SortingValidated ==>
              Sorted(Flatten(buckets)) && multiset(Flatten(buckets)) == multiset(data)
  {
    buckets := [];
    var tid := 0;
    while tid < p
      invariant 0 <= tid <= p
      invariant |buckets| == tid
      invariant forall t :: 0 <= t < tid ==> WorkerBucket(data, p, splitters, t, buckets[t])
    {
      var localData := RunWorker(data, p, tid, splitters);
      buckets := buckets + [localData];
      tid := tid + 1;
    }
    outcome := Validate(buckets, |data|);
    NoLossIffNoneMisplaced(data, p, splitters, buckets);
    OutputSorted(data, p, splitters, buckets);
    if NoneMisplaced(data, p, splitters) {
      ValidatedIsSortedInput(data, p, splitters, buckets);
    }
  }

  /** Concatenating the first k chunks gives the data up to the end of chunk k - 1. */
  lemma {:induction false} ChunksPrefix(data: seq<int>, p: nat, k: nat)
    requires 1 <= k <= p
    ensures Flatten(Chunks(data, p)[..k]) == data[..ChunkEnd(|data|, p, k - 1)]
  {
    var cs := Chunks(data, p);
    var n := |data|;
    var start, end := ChunkStart(n, p, k - 1), ChunkEnd(n, p, k - 1);
    assert cs[..k][..k - 1] == cs[..k - 1];
    assert Flatten(cs[..k]) == Flatten(cs[..k - 1]) + data[start..end];
    if k == 1 {
      ChunksAdjacent(n, p, 0);
      assert Flatten(cs[..0]) == [];
    } else {
      ChunksPrefix(data, p, k - 1);
      ChunksAdjacent(n, p, k - 2);
      assert data[..end] == data[..start] + data[start..end];
    }
  }

  /** The chunks, concatenated in worker-id order, give back the data. */
  lemma ChunksTile(data: seq<int>, p: nat)
    requires 1 <= p
    ensures Flatten(Chunks(data, p)) == data
  {
    ChunksPrefix(data, p, p);
    ChunksAdjacent(|data|, p, p - 1);
    assert Chunks(data, p)[..p] == Chunks(data, p);
  }

  /** No value is created: the output is a sub-multiset of the input. */
  lemma OutputSubMultiset(data: seq<int>, p: nat, splitters: seq<int>, buckets: seq<seq<int>>)
    requires 1 <= p && WorkerBuckets(data, p, splitters, buckets)
    ensures multiset(Flatten(buckets)) <= multiset(data)
  {
    var cs := Chunks(data, p);
    forall t | 0 <= t < p ensures multiset(buckets[t]) <= multiset(cs[t]) {
      OwnBucketSubMultiset(cs[t], splitters, t);
    }
    FlattenSubMultiset(buckets, cs);
    ChunksTile(data, p);
  }

  /** Whatever the pool, sorted or not, every value of an earlier worker's
      bucket is below every value of a later worker's, so the concatenation
      is sorted. */
  lemma OutputSorted(data: seq<int>, p: nat, splitters: seq<int>, buckets: seq<seq<int>>)
    requires 1 <= p && WorkerBuckets(data, p, splitters, buckets)
    ensures Sorted(Flatten(buckets))
  {
    forall i, j, x, y | 0 <= i < j < |buckets| && x in buckets[i] && y in buckets[j]
      ensures x <= y
    {
      assert x in multiset(buckets[i]) && y in multiset(buckets[j]);
      OwnBucketMembers(Chunk(data, p, i), splitters, i, x);
      OwnBucketMembers(Chunk(data, p, j), splitters, j, y);
      BinsOrdered(splitters, x, y);
    }
    FlattenSorted(buckets);
  }

  /** Each chunk keeps all its values exactly when no value of the data is misplaced. */
  lemma ChunksKeepAllIffNoneMisplaced(data: seq<int>, p: nat, splitters: seq<int>)
    requires 1 <= p
    ensures (forall t, j :: 0 <= t < p && 0 <= j < |Chunk(data, p, t)| ==>
               Bin(splitters, Chunk(data, p, t)[j]) == t)
            <==> NoneMisplaced(data, p, splitters)
  {
    var n := |data|;
    if forall t, j :: 0 <= t < p && 0 <= j < |Chunk(data, p, t)| ==> Bin(splitters, Chunk(data, p, t)[j]) == t {
      forall k | 0 <= k < n ensures Bin(splitters, data[k]) == Owner(n, p, k) {
        var t := Owner(n, p, k);
        OwnerHoldsIndex(n, p, k);
        assert Chunk(data, p, t)[k - ChunkStart(n, p, t)] == data[k];
      }
    }
    if NoneMisplaced(data, p, splitters) {
      forall t, j | 0 <= t < p && 0 <= j < |Chunk(data, p, t)| ensures Bin(splitters, Chunk(data, p, t)[j]) == t {
        var k := ChunkStart(n, p, t) + j;
        assert Chunk(data, p, t)[j] == data[k];
        OwnerUnique(n, p, k, t);
      }
    }
  }

  /** The outputs add up to the input size exactly when no value is misplaced;
      otherwise something is lost. */
  lemma NoLossIffNoneMisplaced(data: seq<int>, p: nat, splitters: seq<int>, buckets: seq<seq<int>>)
    requires 1 <= p && WorkerBuckets(data, p, splitters, buckets)
    ensures TotalSize(buckets) <= |data|
    ensures TotalSize(buckets) == |data| <==> NoneMisplaced(data, p, splitters)
  {
    var cs := Chunks(data, p);
    forall t | 0 <= t < p ensures |buckets[t]| == |OwnBucket(cs[t], splitters, t)| <= |cs[t]| {
      assert |multiset(buckets[t])| == |multiset(OwnBucket(cs[t], splitters, t))|;
    }
    TotalSizeAtMost(buckets, cs);
    ChunksTile(data, p);
    FlattenLength(cs);
    forall t | 0 <= t < p
      ensures |buckets[t]| == |cs[t]| <==> forall j :: 0 <= j < |cs[t]| ==> Bin(splitters, cs[t][j]) == t
    {
      OwnBucketKeepsAll(cs[t], splitters, t);
    }
    ChunksKeepAllIffNoneMisplaced(data, p, splitters);
  }

  /** A sub-multiset as large as the whole is the whole. */
  lemma SubMultisetSameSize(a: multiset<int>, b: multiset<int>)
    requires a <= b && |a| == |b|
    ensures a == b
  {
    var d := b - a;
    assert b == a + d;
    assert |b| == |a| + |d|;
  }

  /** When no value is misplaced, the run outputs exactly the sorted input:
      the same values, each as often, in order. */
  lemma ValidatedIsSortedInput(data: seq<int>, p: nat, splitters: seq<int>, buckets: seq<seq<int>>)
    requires 1 <= p && WorkerBuckets(data, p, splitters, buckets)
    requires NoneMisplaced(data, p, splitters)
    ensures Sorted(Flatten(buckets)) && multiset(Flatten(buckets)) == multiset(data)
  {
    OutputSubMultiset(data, p, splitters, buckets);
    OutputSorted(data, p, splitters, buckets);
    NoLossIffNoneMisplaced(data, p, splitters, buckets);
    FlattenLength(buckets);
    SubMultisetSameSize(multiset(Flatten(buckets)), multiset(data));
  }

  /** One worker and an empty pool (the sampling rounds run log2(1) = 0
      times): nothing is lost and the output is the sorted input. */
  lemma SingleWorker(data: seq<int>, buckets: seq<seq<int>>)
    requires WorkerBuckets(data, 1, [], buckets)
    ensures Flatten(buckets) == buckets[0]
    ensures Sorted(Flatten(buckets)) && multiset(Flatten(buckets)) == multiset(data)
  {
    assert Chunk(data, 1, 0) == data;
    assert buckets[..0] == [];
    OwnBucketSubMultiset(data, [], 0);
    OwnBucketKeepsAll(data, [], 0);
    assert multiset(OwnBucket(data, [], 0)) == multiset(data) by {
      forall x ensures multiset(OwnBucket(data, [], 0))[x] == multiset(data)[x] {
        OwnBucketCount(data, [], 0, x);
      }
    }
  }

  /** The input and the expected output hold the same values. */
  lemma FiveValuesSameMultiset()
    ensures multiset([5, 3, 1, 4, 2]) == multiset([1, 2, 3, 4, 5])
  {
  }

  /** The only sorted arrangement of 5, 3, 1, 4, 2 is 1, 2, 3, 4, 5. */
  lemma SortedFiveValues(out: seq<int>)
    requires Sorted(out) && multiset(out) == multiset([5, 3, 1, 4, 2])
    ensures out == [1, 2, 3, 4, 5]
  {
    FiveValuesSameMultiset();
    assert Sorted([1, 2, 3, 4, 5]);
    SortedPermutationUnique(out, [1, 2, 3, 4, 5]);
  }

  /** One worker sorting [5, 3, 1, 4, 2] outputs [1, 2, 3, 4, 5]. */
  lemma FiveValuesOneWorker(buckets: seq<seq<int>>)
    requires WorkerBuckets([5, 3, 1, 4, 2], 1, [], buckets)
    ensures Flatten(buckets) == [1, 2, 3, 4, 5]
  {
    SingleWorker([5, 3, 1, 4, 2], buckets);
    SortedFiveValues(Flatten(buckets));
  }

  /** The one sampling round of two workers on [2, 1] (log2(2) = 1 round of
      one sample each), given a cap target_max of at least 1, which
      (1 + epsilon) * (2 / 2) is for every epsilon >= 0. Worker 0 loads [2] and
      worker 1 loads [1]; each samples its only value, so the pool is [2, 1] or
      [1, 2], and worker 0 sorts it to [1, 2] and sets its interval to the
      sample at rank 1, which is 2. Worker 1 keeps its zero interval. Both
      values land in bin 1, and adding both histograms gives the pool [1, 4]
      that the final partition searches. */
  method TwoWorkersRound(targetMax: int) returns (pool: seq<int>)
    requires 1 <= targetMax
    ensures pool == [1, 4]
  {
    var sorted, intervals0, intervals1 := TwoWorkersSplitters();
    var hist0, hist1 := TwoWorkersHistograms(intervals0, intervals1, targetMax);
    var pool0 := AddHistogram(sorted, hist0);
    pool := AddHistogram(pool0, hist1);
    assert pool[0] == 1 && pool[1] == 4;
  }

  /** Lines 56-83 of that round: the chunks are [2] and [1], worker 0 sorts
      the pooled samples to [1, 2] and takes the interval [2], and worker 1
      keeps [0]. */
  method TwoWorkersSplitters() returns (sorted: seq<int>, intervals0: seq<int>, intervals1: seq<int>)
    ensures sorted == [1, 2] && intervals0 == [2] && intervals1 == [0]
  {
    var data := [2, 1];
    TwoChunks();
    var samples := Chunk(data, 2, 0) + Chunk(data, 2, 1);
    sorted, intervals0 := SelectSplitters(0, 0, samples, InitialIntervals(2), 2);
    TwoSamplesSorted(sorted);
    RankOfTwoSamples();
    var same;
    same, intervals1 := SelectSplitters(1, 0, sorted, InitialIntervals(2), 2);
  }

  /** Lines 88-95 of that round: both workers count their value in bin 1. */
  method TwoWorkersHistograms(intervals0: seq<int>, intervals1: seq<int>, targetMax: int)
    returns (hist0: seq<int>, hist1: seq<int>)
    requires intervals0 == [2] && intervals1 == [0] && 1 <= targetMax
    ensures hist0 == [0, 1] && hist1 == [0, 1]
  {
    TwoChunks();
    hist0 := LocalHistogram(Chunk([2, 1], 2, 0), intervals0, 2, targetMax);
    hist1 := LocalHistogram(Chunk([2, 1], 2, 1), intervals1, 2, targetMax);
    RoundBuckets();
  }

  /** Two workers split [2, 1] into [2] and [1]. */
  lemma TwoChunks()
    ensures Chunk([2, 1], 2, 0) == [2] && Chunk([2, 1], 2, 1) == [1]
  {
  }

  /** The pooled samples 2 and 1 sort to [1, 2]. */
  lemma TwoSamplesSorted(sorted: seq<int>)
    requires Sorted(sorted) && multiset(sorted) == multiset([2] + [1])
    ensures sorted == [1, 2]
  {
    assert multiset([2] + [1]) == multiset([1, 2]);
    assert Sorted([1, 2]);
    SortedPermutationUnique(sorted, [1, 2]);
  }

  /** With two samples and two workers, the one interval is the sample at rank 1. */
  lemma RankOfTwoSamples()
    ensures SplitterRank(2, 2, 0) == 1
  {
  }

  /** Against the interval [2], worker 0's value 2 is in bin 1; against the
      zero interval [0], worker 1's value 1 is in bin 1 too. */
  lemma RoundBuckets()
    ensures OwnBucket([2], [2], 0) == [] && |OwnBucket([2], [2], 1)| == 1
    ensures OwnBucket([1], [0], 0) == [] && |OwnBucket([1], [0], 1)| == 1
  {
    assert Bin([2], 2) == 1 && Bin([0], 1) == 1;
    assert [2][..0] == [] && [1][..0] == [];
  }

  /** On [2, 1] with two workers, worker 0 loads [2] and worker 1 loads [1];
      against the pool [1, 4] both values have bin 1. */
  lemma TwoWorkersBuckets()
    ensures OwnBucket(Chunk([2, 1], 2, 0), [1, 4], 0) == []
    ensures OwnBucket(Chunk([2, 1], 2, 1), [1, 4], 1) == [1]
  {
    assert Chunk([2, 1], 2, 0) == [2] && Chunk([2, 1], 2, 1) == [1];
    assert Bin([1, 4], 2) == 1 && Bin([1, 4], 1) == 1;
    assert [2][..0] == [] && [1][..0] == [];
  }

  /** A sequence holding exactly one copy of x is [x]. */
  lemma SingletonFromMultiset(b: seq<int>, x: int)
    requires multiset(b) == multiset{x}
    ensures b == [x]
  {
    assert |b| == |multiset(b)| == 1;
    assert b[0] in multiset(b);
  }

  /** Two parts concatenate to their sum. */
  lemma FlattenTwo(a: seq<int>, b: seq<int>)
    ensures Flatten([a, b]) == a + b
  {
    assert [a, b][..1] == [a] && [a][..0] == [];
    assert Flatten([a]) == a;
  }

  /** On [2, 1] with two workers and the pool [1, 4], worker 0 ends with no
      value and worker 1 with the value 1. */
  lemma TwoWorkersBucketContents(buckets: seq<seq<int>>)
    requires WorkerBuckets([2, 1], 2, [1, 4], buckets)
    ensures multiset(buckets[0]) == multiset{} && multiset(buckets[1]) == multiset{1}
  {
    TwoWorkersBuckets();
    assert WorkerBucket([2, 1], 2, [1, 4], 0, buckets[0]);
    assert WorkerBucket([2, 1], 2, [1, 4], 1, buckets[1]);
  }

  /** Two workers on [2, 1] whose partition searches the pool [1, 4]: worker 0
      drops 2 (its bin is 1), worker 1 keeps 1, and one value is lost. */
  lemma TwoWorkersLoseOne(buckets: seq<seq<int>>)
    requires WorkerBuckets([2, 1], 2, [1, 4], buckets)
    ensures Flatten(buckets) == [1]
    ensures TotalSize(buckets) == 1
  {
    TwoWorkersBucketContents(buckets);
    var b0, b1 := buckets[0], buckets[1];
    assert |b0| == |multiset(b0)| == 0;
    SingletonFromMultiset(b1, 1);
    assert buckets == [b0, b1];
    FlattenTwo(b0, b1);
    FlattenLength(buckets);
  }
}
