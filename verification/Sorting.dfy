/**
 The slice of the C++ standard library's sorting contract that the piece tracker relies on.
 */
module Sorting {

  ghost predicate IsSorted(s: seq<int>) {
    |s| < 2 || (s[0] <= s[1] && IsSorted(s[1..]))
  }

  function Insert(x: int, s: seq<int>): (r: seq<int>)
    ensures |r| == |s| + 1
  {
    if s == [] || x <= s[0] then [x] + s else [s[0]] + Insert(x, s[1..])
  }

  function Sorted(s: seq<int>): (r: seq<int>)
    ensures |r| == |s|
  {
    if s == [] then [] else Insert(s[0], Sorted(s[1..]))
  }

  /** What std::partial_sort(begin, begin + m, end) leaves when no slot behind m is smaller than a slot before m. */
  function SortPrefix(s: seq<int>, m: nat): (r: seq<int>)
    requires m <= |s|
    ensures |r| == |s|
  {
    Sorted(s[..m]) + s[m..]
  }

  lemma {:induction false} InsertSorts(x: int, s: seq<int>)
    requires IsSorted(s)
    ensures IsSorted(Insert(x, s))
  {
    if s == [] || x <= s[0] {
    } else {
      InsertSorts(x, s[1..]);
      assert Insert(x, s)[1..] == Insert(x, s[1..]);
    }
  }

  lemma {:induction false} InsertPermutes(x: int, s: seq<int>)
    ensures multiset(Insert(x, s)) == multiset{x} + multiset(s)
  {
    if s == [] || x <= s[0] {
    } else {
      InsertPermutes(x, s[1..]);
      assert s == [s[0]] + s[1..];
    }
  }

  lemma {:induction false} SortedSorts(s: seq<int>)
    ensures IsSorted(Sorted(s))
  {
    if s == [] {
    } else {
      SortedSorts(s[1..]);
      InsertSorts(s[0], Sorted(s[1..]));
    }
  }

  lemma {:induction false} SortedPermutes(s: seq<int>)
    ensures multiset(Sorted(s)) == multiset(s)
  {
    if s == [] {
    } else {
      SortedPermutes(s[1..]);
      InsertPermutes(s[0], Sorted(s[1..]));
      assert s == [s[0]] + s[1..];
    }
  }

  /** Sorting is the identity on what is already sorted. */
  lemma {:induction false} SortedOfSorted(s: seq<int>)
    requires IsSorted(s)
    ensures Sorted(s) == s
  {
    if |s| < 2 {
      assert s != [] ==> s == [s[0]] + s[1..] && s[1..] == [];
    } else {
      SortedOfSorted(s[1..]);
      assert s == [s[0]] + s[1..];
    }
  }

  /** The adjacent form of sortedness gives the pairwise one. */
  lemma {:induction false} SortedPairwise(s: seq<int>, i: nat, j: nat)
    requires IsSorted(s) && i <= j < |s|
    ensures s[i] <= s[j]
    decreases j
  {
    if i == j {
    } else if i > 0 {
      SortedPairwise(s[1..], i - 1, j - 1);
    } else {
      SortedPairwise(s[1..], 0, j - 1);
    }
  }
}
