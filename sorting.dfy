/** Ordering of integer sequences and the sort used by every worker.
    The program calls std::sort on a worker's vector (it sorts the chunk it
    loaded and, at the end, the bucket it kept) and std::is_sorted on the
    assembled output; both are modelled here by the predicate Sorted and the
    method Sort, whose contract is exactly "non-decreasing and a permutation". */
module Sorting {

  /** Non-decreasing order, the order std::sort establishes and std::is_sorted checks. */
  predicate Sorted(s: seq<int>) {
    forall i, j :: 0 <= i < j < |s| ==> s[i] <= s[j]
  }

  /** Prepending a lower bound of a sorted sequence keeps it sorted. */
  lemma ConsSorted(x: int, t: seq<int>)
    requires Sorted(t)
    requires forall y :: y in t ==> x <= y
    ensures Sorted([x] + t)
  {
    forall i, j | 0 <= i < j < |t| + 1 ensures ([x] + t)[i] <= ([x] + t)[j] {
      assert ([x] + t)[j] == t[j - 1];
      if i > 0 {
        assert ([x] + t)[i] == t[i - 1];
      } else {
        assert t[j - 1] in t;
      }
    }
  }

  /** Places x into a sorted sequence, keeping it sorted. */
  function Insert(s: seq<int>, x: int): (r: seq<int>)
    requires Sorted(s)
    ensures Sorted(r)
    ensures multiset(r) == multiset(s) + multiset{x}
  {
    if s == [] then [x]
    else if x <= s[0] then
      ConsSorted(x, s);
      [x] + s
    else
      assert s == [s[0]] + s[1..];
      assert Sorted(s[1..]);
      var tail := Insert(s[1..], x);
      assert forall y :: y in tail ==> s[0] <= y by {
        forall y | y in tail ensures s[0] <= y {
          assert y in multiset(tail);
          assert y in multiset(s[1..]) || y == x;
        }
      }
      ConsSorted(s[0], tail);
      [s[0]] + tail
  }

  /** Model of std::sort: the result is non-decreasing and a permutation of the input. */
  method Sort(s: seq<int>) returns (r: seq<int>)
    ensures Sorted(r)
    ensures multiset(r) == multiset(s)
  {
    r := [];
    var i := 0;
    while i < |s|
      invariant 0 <= i <= |s|
      invariant Sorted(r)
      invariant multiset(r) == multiset(s[..i])
    {
      assert s[..i + 1] == s[..i] + [s[i]];
      r := Insert(r, s[i]);
      i := i + 1;
    }
    assert s[..|s|] == s;
  }

  /** The smallest element of a non-empty sorted sequence is its head. */
  lemma HeadIsMinimum(s: seq<int>, x: int)
    requires Sorted(s) && x in multiset(s)
    ensures s != [] && s[0] <= x
  {
    assert x in s;
  }

  /** A sorted permutation is unique: two sorted sequences with the same
      elements are equal. So the contract of Sort determines its result, and
      sorting an already sorted sequence gives it back unchanged. */
  lemma {:induction false} SortedPermutationUnique(a: seq<int>, b: seq<int>)
    requires Sorted(a) && Sorted(b)
    requires multiset(a) == multiset(b)
    ensures a == b
  {
    if a != [] {
      assert a == [a[0]] + a[1..];
      assert a[0] in multiset(b);
      HeadIsMinimum(b, a[0]);
      assert b == [b[0]] + b[1..];
      assert b[0] in multiset(a);
      HeadIsMinimum(a, b[0]);
      assert a[0] == b[0];
      assert multiset(a) == multiset{a[0]} + multiset(a[1..]);
      assert multiset(b) == multiset{b[0]} + multiset(b[1..]);
      assert multiset(a[1..]) == multiset(a) - multiset{a[0]};
      assert multiset(b[1..]) == multiset(b) - multiset{b[0]};
      SortedPermutationUnique(a[1..], b[1..]);
    } else {
      assert |multiset(b)| == 0;
    }
  }
}
