/** The partition planner at the top of hss_thread: worker tid of p gets the
    half-open index range [tid * (n / p), end), where end is n for the last
    worker and start + n / p for every other one. */
module Chunking {
  import opened Arithmetic

  /** First index of worker tid's chunk: tid * chunk_size with chunk_size = n / p. */
  function ChunkStart(n: nat, p: nat, tid: nat): nat
    requires 1 <= p
  {
    tid * (n / p)
  }

  /** (k + 1) * (n / p) does not pass n while k < p. */
  lemma {:induction false} MultipleWithin(n: nat, p: nat, k: nat)
    requires 1 <= p && k < p
    ensures (k + 1) * (n / p) <= n
  {
    DivTimesAtMost(n, p);
    MulMonotone(k + 1, p, n / p);
  }

  /** One past the last index of worker tid's chunk; the last worker absorbs the remainder. */
  function ChunkEnd(n: nat, p: nat, tid: nat): (e: nat)
    requires 1 <= p && tid < p
    ensures ChunkStart(n, p, tid) <= e <= n
  {
    MultipleWithin(n, p, tid);
    MulSucc(tid, n / p);
    if tid == p - 1 then n else ChunkStart(n, p, tid) + n / p
  }

  /** The chunk copied into local_data: data[start..end). */
  function Chunk(data: seq<int>, p: nat, tid: nat): seq<int>
    requires 1 <= p && tid < p
  {
    var start, end := ChunkStart(|data|, p, tid), ChunkEnd(|data|, p, tid);
    data[start..end]
  }

  /** The chunks of all workers, in worker-id order. */
  function Chunks(data: seq<int>, p: nat): (cs: seq<seq<int>>)
    requires 1 <= p
    ensures |cs| == p
    ensures forall tid :: 0 <= tid < p ==> cs[tid] == Chunk(data, p, tid)
  {
    seq(p, tid requires 0 <= tid < p => Chunk(data, p, tid))
  }

  /** The ranges tile [0, n): the first starts at 0, each ends where the next
      starts, and the last ends at n. */
  lemma ChunksAdjacent(n: nat, p: nat, tid: nat)
    requires 1 <= p && tid < p
    ensures tid == 0 ==> ChunkStart(n, p, tid) == 0
    ensures tid == p - 1 ==> ChunkEnd(n, p, tid) == n
    ensures tid + 1 < p ==> ChunkEnd(n, p, tid) == ChunkStart(n, p, tid + 1)
  {
    MulSucc(tid, n / p);
  }

  /** Chunks of two different workers do not overlap: an earlier worker's
      range ends no later than a later worker's range starts. */
  lemma {:induction false} ChunksDisjoint(n: nat, p: nat, t1: nat, t2: nat)
    requires 1 <= p && t1 < t2 < p
    ensures ChunkEnd(n, p, t1) <= ChunkStart(n, p, t2)
  {
    MulSucc(t1, n / p);
    MulMonotone(t1 + 1, t2, n / p);
  }

  /** The worker whose range holds index k: k / (n / p), except that the
      last worker also owns the remainder. */
  function Owner(n: nat, p: nat, k: nat): (tid: nat)
    requires 1 <= p && k < n
    ensures tid < p
  {
    var c := n / p;
    if c == 0 || p - 1 <= k / c then p - 1 else k / c
  }

  /** Index k lies in its owner's range. */
  lemma OwnerHoldsIndex(n: nat, p: nat, k: nat)
    requires 1 <= p && k < n
    ensures ChunkStart(n, p, Owner(n, p, k)) <= k < ChunkEnd(n, p, Owner(n, p, k))
  {
    var c := n / p;
    if c != 0 {
      var q := k / c;
      DivBrackets(k, c);
      if q < p - 1 {
        MulSucc(q, c);
        assert ChunkEnd(n, p, q) == (q + 1) * c;
      } else {
        MulMonotone(p - 1, q, c);
      }
    }
  }

  /** Every index of [0, n) lies in exactly one worker's range. */
  lemma OwnerUnique(n: nat, p: nat, k: nat, tid: nat)
    requires 1 <= p && k < n && tid < p
    requires ChunkStart(n, p, tid) <= k < ChunkEnd(n, p, tid)
    ensures tid == Owner(n, p, k)
  {
    var o := Owner(n, p, k);
    OwnerHoldsIndex(n, p, k);
    if tid < o {
      ChunksDisjoint(n, p, tid, o);
    } else if o < tid {
      ChunksDisjoint(n, p, o, tid);
    }
  }
}
