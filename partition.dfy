/** Bucket extraction at the end of hss_thread: the worker walks its own
    local_data and keeps, in order, the values whose bin against the shared
    pool equals its own tid (push_back into `partitioned`). */
module Partition {
  import opened Bins

  /** The values of s whose bin against splitters is tid, in their order in s. */
  function OwnBucket(s: seq<int>, splitters: seq<int>, tid: nat): (r: seq<int>)
    ensures |r| <= |s|
  {
    if s == [] then []
    else
      var last := s[|s| - 1];
      OwnBucket(s[..|s| - 1], splitters, tid) + (if Bin(splitters, last) == tid then [last] else [])
  }

  /** Extending a prefix by one value grows only that value's bin, by one. */
  lemma OwnBucketExtend(s: seq<int>, i: nat, splitters: seq<int>, tid: nat)
    requires i < |s|
    ensures OwnBucket(s[..i + 1], splitters, tid) ==
            OwnBucket(s[..i], splitters, tid) + (if Bin(splitters, s[i]) == tid then [s[i]] else [])
  {
    assert s[..i + 1][..i] == s[..i];
  }

  /** The loop at lines 104-110: push_back every value whose bin is tid. */
  method KeepOwnBucket(localData: seq<int>, splitters: seq<int>, tid: nat) returns (partitioned: seq<int>)
    ensures partitioned == OwnBucket(localData, splitters, tid)
  {
    partitioned := [];
    var i := 0;
    while i < |localData|
      invariant 0 <= i <= |localData|
      invariant partitioned == OwnBucket(localData[..i], splitters, tid)
    {
      var val := localData[i];
      OwnBucketExtend(localData, i, splitters, tid);
      if Bin(splitters, val) == tid {
        partitioned := partitioned + [val];
      }
      i := i + 1;
    }
    assert localData[..|localData|] == localData;
  }

  /** As a multiset, the bucket holds every copy of the values whose bin is
      tid and nothing else: every other value is dropped. */
  lemma {:induction false} OwnBucketCount(s: seq<int>, splitters: seq<int>, tid: nat, x: int)
    ensures multiset(OwnBucket(s, splitters, tid))[x] ==
            if Bin(splitters, x) == tid then multiset(s)[x] else 0
  {
    if s != [] {
      var init := s[..|s| - 1];
      assert s == init + [s[|s| - 1]];
      OwnBucketCount(init, splitters, tid, x);
    }
  }

  /** The bucket is a sub-multiset of the worker's data. */
  lemma OwnBucketSubMultiset(s: seq<int>, splitters: seq<int>, tid: nat)
    ensures multiset(OwnBucket(s, splitters, tid)) <= multiset(s)
  {
    forall x ensures multiset(OwnBucket(s, splitters, tid))[x] <= multiset(s)[x] {
      OwnBucketCount(s, splitters, tid, x);
    }
  }

  /** Every value of the bucket has bin tid. */
  lemma OwnBucketMembers(s: seq<int>, splitters: seq<int>, tid: nat, x: int)
    requires x in OwnBucket(s, splitters, tid)
    ensures x in s && Bin(splitters, x) == tid
  {
    OwnBucketCount(s, splitters, tid, x);
    assert x in multiset(OwnBucket(s, splitters, tid));
  }

  /** Nothing is dropped exactly when every value of s has bin tid. */
  lemma {:induction false} OwnBucketKeepsAll(s: seq<int>, splitters: seq<int>, tid: nat)
    ensures |OwnBucket(s, splitters, tid)| == |s| <==>
            forall k :: 0 <= k < |s| ==> Bin(splitters, s[k]) == tid
  {
    if s != [] {
      var init := s[..|s| - 1];
      OwnBucketKeepsAll(init, splitters, tid);
      if forall k :: 0 <= k < |s| ==> Bin(splitters, s[k]) == tid {
        assert forall k :: 0 <= k < |init| ==> Bin(splitters, init[k]) == tid by {
          forall k | 0 <= k < |init| ensures Bin(splitters, init[k]) == tid {
            assert init[k] == s[k];
          }
        }
      } else {
        var k :| 0 <= k < |s| && Bin(splitters, s[k]) != tid;
        if k < |init| {
          assert init[k] == s[k];
        }
      }
    }
  }

  /** Which values the bucket keeps depends only on the multiset of the
      input, not on its order (the worker extracts from its sorted chunk). */
  lemma OwnBucketPermutation(a: seq<int>, b: seq<int>, splitters: seq<int>, tid: nat)
    requires multiset(a) == multiset(b)
    ensures multiset(OwnBucket(a, splitters, tid)) == multiset(OwnBucket(b, splitters, tid))
  {
    forall x ensures multiset(OwnBucket(a, splitters, tid))[x] == multiset(OwnBucket(b, splitters, tid))[x] {
      OwnBucketCount(a, splitters, tid, x);
      OwnBucketCount(b, splitters, tid, x);
    }
  }
}
