/** The bin of a value: distance(begin, upper_bound(splitters, val)).
    std::upper_bound is the halving search written out in UpperBoundFrom. The
    C++ library requires the range to be partitioned with respect to the
    value (every entry <= v before every entry > v), which a sorted range
    always is, and the call is undefined behaviour otherwise; on such a range
    the bin is the number of entries <= v. The halving loop the library runs
    is total, so the bin is defined (and bounded) on every range, including
    the unsorted pool the final partition uses, and it is monotone in the
    value on every range. */
module Bins {
  /** Halving search over s[first..first + len), as std::upper_bound does it:
      look at the middle entry; if v is below it keep the lower half, else
      continue after it. */
  function UpperBoundFrom(s: seq<int>, first: nat, len: nat, v: int): (r: nat)
    requires first + len <= |s|
    ensures first <= r <= first + len
    decreases len
  {
    if len == 0 then first
    else
      var half := len / 2;
      var middle := first + half;
      if v < s[middle] then UpperBoundFrom(s, first, half, v)
      else UpperBoundFrom(s, middle + 1, len - half - 1, v)
  }

  /** The bin of v: the number of positions upper_bound skips over. */
  function Bin(splitters: seq<int>, v: int): (b: nat)
    ensures b <= |splitters|
  {
    UpperBoundFrom(splitters, 0, |splitters|, v)
  }

  /** Number of entries of s that are <= v. */
  function CountAtMost(s: seq<int>, v: int): (c: nat)
    ensures c <= |s|
  {
    if s == [] then 0 else (if s[0] <= v then 1 else 0) + CountAtMost(s[1..], v)
  }

  /** std::upper_bound's precondition: no entry <= v comes after an entry > v. */
  predicate PartitionedBy(s: seq<int>, v: int) {
    forall i, j :: 0 <= i < j < |s| && s[j] <= v ==> s[i] <= v
  }

  /** On a partitioned range the search stops exactly at the boundary between
      the entries <= v and the entries > v. */
  lemma {:induction false} UpperBoundFromSplits(s: seq<int>, first: nat, len: nat, v: int)
    requires first + len <= |s|
    requires PartitionedBy(s, v)
    requires forall k :: 0 <= k < first ==> s[k] <= v
    requires forall k :: first + len <= k < |s| ==> v < s[k]
    ensures forall k :: 0 <= k < UpperBoundFrom(s, first, len, v) ==> s[k] <= v
    ensures forall k :: UpperBoundFrom(s, first, len, v) <= k < |s| ==> v < s[k]
    decreases len
  {
    if len > 0 {
      var half := len / 2;
      var middle := first + half;
      if v < s[middle] {
        assert forall k :: middle <= k < |s| ==> v < s[k];
        UpperBoundFromSplits(s, first, half, v);
      } else {
        assert forall k :: 0 <= k <= middle ==> s[k] <= v;
        UpperBoundFromSplits(s, middle + 1, len - half - 1, v);
      }
    }
  }

  /** When s[..r] are all <= v and s[r..] all > v, exactly r entries are <= v. */
  lemma {:induction false} CountAtMostAtBoundary(s: seq<int>, v: int, r: nat)
    requires r <= |s|
    requires forall k :: 0 <= k < r ==> s[k] <= v
    requires forall k :: r <= k < |s| ==> v < s[k]
    ensures CountAtMost(s, v) == r
  {
    if s != [] {
      CountAtMostAtBoundary(s[1..], v, if r == 0 then 0 else r - 1);
    }
  }

  /** On a partitioned (in particular on a sorted) range, the bin is the number
      of entries <= v, and it separates those from the entries > v. */
  lemma BinIsCountAtMost(s: seq<int>, v: int)
    requires PartitionedBy(s, v)
    ensures Bin(s, v) == CountAtMost(s, v)
    ensures forall k :: 0 <= k < Bin(s, v) ==> s[k] <= v
    ensures forall k :: Bin(s, v) <= k < |s| ==> v < s[k]
  {
    UpperBoundFromSplits(s, 0, |s|, v);
    CountAtMostAtBoundary(s, v, Bin(s, v));
  }

  /** The halving search is monotone in the value on every range, sorted or
      not: at each step a larger value goes right whenever a smaller one does. */
  lemma {:induction false} UpperBoundFromMonotone(s: seq<int>, first: nat, len: nat, v: int, w: int)
    requires first + len <= |s| && v <= w
    ensures UpperBoundFrom(s, first, len, v) <= UpperBoundFrom(s, first, len, w)
    decreases len
  {
    if len > 0 {
      var half := len / 2;
      var middle := first + half;
      UpperBoundFromStep(s, first, len, v);
      UpperBoundFromStep(s, first, len, w);
      if w < s[middle] {
        UpperBoundFromMonotone(s, first, half, v, w);
      } else if s[middle] <= v {
        UpperBoundFromMonotone(s, middle + 1, len - half - 1, v, w);
      }
    }
  }

  /** One step of the search on a non-empty range. */
  lemma UpperBoundFromStep(s: seq<int>, first: nat, len: nat, v: int)
    requires first + len <= |s| && 0 < len
    ensures v < s[first + len / 2] ==>
              UpperBoundFrom(s, first, len, v) == UpperBoundFrom(s, first, len / 2, v)
    ensures s[first + len / 2] <= v ==>
              UpperBoundFrom(s, first, len, v) == UpperBoundFrom(s, first + len / 2 + 1, len - len / 2 - 1, v)
  {
  }

  /** Bins are monotone on every pool: v <= w puts w in the same or a later bin. */
  lemma BinMonotone(s: seq<int>, v: int, w: int)
    requires v <= w
    ensures Bin(s, v) <= Bin(s, w)
  {
    UpperBoundFromMonotone(s, 0, |s|, v, w);
  }

  /** On every pool, a value in an earlier bin is strictly below a value in a
      later bin. */
  lemma BinsOrdered(s: seq<int>, v: int, w: int)
    requires Bin(s, v) < Bin(s, w)
    ensures v < w
  {
    if w <= v {
      BinMonotone(s, w, v);
    }
  }
}
