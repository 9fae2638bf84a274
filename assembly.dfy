/** The end of main: after the workers are joined, their local_data vectors
    are appended to `sorted` in worker-id order while total_elements sums
    their sizes; the run fails with the loss message when the total differs
    from array_size, and otherwise reports whether `sorted` is in order. */
module Assembly {
  import opened Sorting

  /** Concatenation in order. */
  function Flatten(bs: seq<seq<int>>): seq<int> {
    if bs == [] then [] else Flatten(bs[..|bs| - 1]) + bs[|bs| - 1]
  }

  /** Sum of the sizes. */
  function TotalSize(bs: seq<seq<int>>): nat {
    if bs == [] then 0 else TotalSize(bs[..|bs| - 1]) + |bs[|bs| - 1]|
  }

  /** The concatenation is as long as the sizes add up to. */
  lemma {:induction false} FlattenLength(bs: seq<seq<int>>)
    ensures |Flatten(bs)| == TotalSize(bs)
  {
    if bs != [] {
      FlattenLength(bs[..|bs| - 1]);
    }
  }

  /** A value of the concatenation comes from one of the parts. */
  lemma {:induction false} FlattenMember(bs: seq<seq<int>>, x: int)
    requires x in Flatten(bs)
    ensures exists t :: 0 <= t < |bs| && x in bs[t]
  {
    var init := bs[..|bs| - 1];
    if x in Flatten(init) {
      FlattenMember(init, x);
      var t :| 0 <= t < |init| && x in init[t];
      assert bs[t] == init[t];
    } else {
      assert x in bs[|bs| - 1];
    }
  }

  /** Parts that are sub-multisets of other parts, position by position,
      concatenate to a sub-multiset. */
  lemma {:induction false} FlattenSubMultiset(bs: seq<seq<int>>, cs: seq<seq<int>>)
    requires |bs| == |cs|
    requires forall t :: 0 <= t < |bs| ==> multiset(bs[t]) <= multiset(cs[t])
    ensures multiset(Flatten(bs)) <= multiset(Flatten(cs))
  {
    if bs != [] {
      var n := |bs| - 1;
      assert forall t :: 0 <= t < n ==> bs[..n][t] == bs[t] && cs[..n][t] == cs[t];
      FlattenSubMultiset(bs[..n], cs[..n]);
    }
  }

  /** Sizes bounded part by part add up to the other total, with equality
      exactly when every part has its bound's size. */
  lemma {:induction false} TotalSizeAtMost(bs: seq<seq<int>>, cs: seq<seq<int>>)
    requires |bs| == |cs|
    requires forall t :: 0 <= t < |bs| ==> |bs[t]| <= |cs[t]|
    ensures TotalSize(bs) <= TotalSize(cs)
    ensures TotalSize(bs) == TotalSize(cs) <==> forall t :: 0 <= t < |bs| ==> |bs[t]| == |cs[t]|
  {
    if bs != [] {
      var n := |bs| - 1;
      assert forall t :: 0 <= t < n ==> bs[..n][t] == bs[t] && cs[..n][t] == cs[t];
      TotalSizeAtMost(bs[..n], cs[..n]);
    }
  }

  /** Sorted parts, each of whose values is at most every value of every
      later part, concatenate to a sorted sequence. */
  lemma {:induction false} FlattenSorted(bs: seq<seq<int>>)
    requires forall t :: 0 <= t < |bs| ==> Sorted(bs[t])
    requires forall i, j, x, y :: 0 <= i < j < |bs| && x in bs[i] && y in bs[j] ==> x <= y
    ensures Sorted(Flatten(bs))
  {
    if bs != [] {
      var n := |bs| - 1;
      var init := bs[..n];
      var last := bs[n];
      assert forall t :: 0 <= t < n ==> init[t] == bs[t];
      FlattenSorted(init);
      var f := Flatten(init);
      assert Flatten(bs) == f + last;
      forall i, j | 0 <= i < j < |f| + |last| ensures (f + last)[i] <= (f + last)[j] {
        if j >= |f| && i < |f| {
          assert f[i] in f;
          FlattenMember(init, f[i]);
          var t :| 0 <= t < n && f[i] in init[t];
          assert (f + last)[j] == last[j - |f|];
          assert last[j - |f|] in bs[n];
        } else if i >= |f| {
          assert (f + last)[i] == last[i - |f|] && (f + last)[j] == last[j - |f|];
        }
      }
    }
  }

  /** Lines 147-152: append each bucket to `sorted` and add its size to the total. */
  method Assemble(buckets: seq<seq<int>>) returns (sorted: seq<int>, totalElements: nat)
    ensures sorted == Flatten(buckets)
    ensures totalElements == TotalSize(buckets)
    ensures totalElements == |sorted|
  {
    sorted, totalElements := [], 0;
    var i := 0;
    while i < |buckets|
      invariant 0 <= i <= |buckets|
      invariant sorted == Flatten(buckets[..i])
      invariant totalElements == TotalSize(buckets[..i])
    {
      assert buckets[..i + 1][..i] == buckets[..i];
      sorted := sorted + buckets[i];
      totalElements := totalElements + |buckets[i]|;
      i := i + 1;
    }
    assert buckets[..|buckets|] == buckets;
    FlattenLength(buckets);
  }

  /** How main ends. ElementsLost carries the count it reports, which is the
      size_t difference array_size - total_elements and so wraps modulo 2^64. */
  datatype Outcome = ElementsLost(reported: nat) | SortingValidated | SortingFailed
  {
    /** The process exit code: 1 on the loss error, 0 otherwise (a failed
        order check only prints a message). */
    function ExitCode(): int {
      if ElementsLost? then 1 else 0
    }
  }

  const SizeModulus: nat := 0x1_0000_0000_0000_0000

  /** Lines 147-169 without the printing: assemble, take the loss error path
      exactly when the total differs from array_size, otherwise check the order. */
  method Validate(buckets: seq<seq<int>>, arraySize: nat) returns (outcome: Outcome)
    ensures outcome.ElementsLost? <==> TotalSize(buckets) != arraySize
    ensures outcome.ElementsLost? ==> outcome.reported == (arraySize - TotalSize(buckets)) % SizeModulus
    ensures outcome == SortingValidated <==> TotalSize(buckets) == arraySize && Sorted(Flatten(buckets))
    ensures outcome.ExitCode() == if TotalSize(buckets) != arraySize then 1 else 0
  {
    var sorted, totalElements := Assemble(buckets);
    if totalElements != arraySize {
      outcome := ElementsLost((arraySize - totalElements) % SizeModulus);
    } else if Sorted(sorted) {
      outcome := SortingValidated;
    } else {
      outcome := SortingFailed;
    }
  }
}
