/** ThreadData: a worker's id and its local_data vector, which hss_thread
    first fills with the worker's chunk and sorts, and at the end replaces
    with the sorted values of its own bucket. The samples vector belongs to
    the sampling step, which is not part of this model. */
module Worker {
  import opened Sorting
  import opened Chunking
  import opened Bins
  import opened Partition

  class ThreadData {
    const tid: nat
    var localData: seq<int>

    constructor (tid: nat)
      ensures this.tid == tid && localData == []
    {
      this.tid := tid;
      localData := [];
    }

    /** Lines 53-57: copy data[start..end) into local_data and sort it in place. */
    method LoadChunk(data: seq<int>, p: nat)
      requires 1 <= p && tid < p
      modifies this
      ensures Sorted(localData)
      ensures multiset(localData) == multiset(Chunk(data, p, tid))
    {
      var n := |data|;
      var chunkSize := n / p;
      var start := tid * chunkSize;
      var end := if tid == p - 1 then n else start + chunkSize;
      assert start == ChunkStart(n, p, tid) && end == ChunkEnd(n, p, tid);
      localData := data[start..end];
      SortLocalData();
    }

    /** Line 57: sorts local_data in place. */
    method SortLocalData()
      modifies this
      ensures Sorted(localData)
      ensures multiset(localData) == multiset(old(localData))
    {
      localData := Sort(localData);
    }

    /** Lines 104-112: keep the values whose bin against the pool is tid, sort
        them, and make them the new local_data; every other value is dropped. */
    method ExtractBucket(splitters: seq<int>)
      modifies this
      ensures Sorted(localData)
      ensures multiset(localData) == multiset(OwnBucket(old(localData), splitters, tid))
      ensures forall x :: x in localData ==> x in old(localData) && Bin(splitters, x) == tid
    {
      var partitioned := KeepOwnBucket(localData, splitters, tid);
      var bucket := Sort(partitioned);
      forall x | x in bucket ensures x in localData && Bin(splitters, x) == tid {
        assert x in multiset(bucket);
        OwnBucketMembers(localData, splitters, tid, x);
      }
      localData := bucket;
    }
  }
}
