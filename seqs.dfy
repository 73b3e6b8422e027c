/**
 * Sequence helpers shared by the models: occurrence counting (Python's
 * `list.count`, the loop of C `number_freq`) and the ascending sort that the
 * programs obtain from their libraries (`qsort`, `list.sort`).
 */
module Seqs {

  /** Number of occurrences of `x` in `s`, counted from the last element back. */
  function Count(s: seq<int>, x: int): (n: nat)
    ensures n <= |s|
    ensures n == multiset(s)[x]
  {
    if s == [] then 0
    else
      assert s == s[..|s| - 1] + [s[|s| - 1]];
      Count(s[..|s| - 1], x) + (if s[|s| - 1] == x then 1 else 0)
  }

  predicate Sorted(s: seq<int>)
  {
    forall i, j :: 0 <= i < j < |s| ==> s[i] <= s[j]
  }

  /** Inserts `x` into the sorted sequence `s` before its first element larger than `x`. */
  function Insert(x: int, s: seq<int>): (r: seq<int>)
    requires Sorted(s)
    ensures Sorted(r)
    ensures multiset(r) == multiset(s) + multiset{x}
    ensures |r| == |s| + 1 && r[0] == (if s == [] || x <= s[0] then x else s[0])
  {
    if s == [] then [x]
    else if x <= s[0] then
      SortedCons(x, s);
      [x] + s
    else
      assert s == [s[0]] + s[1..];
      var t := Insert(x, s[1..]);
      SortedCons(s[0], t);
      [s[0]] + t
  }

  /** A value no larger than the head of a sorted sequence can go in front. */
  lemma SortedCons(v: int, t: seq<int>)
    requires Sorted(t) && (t != [] ==> v <= t[0])
    ensures Sorted([v] + t)
  {
    var r := [v] + t;
    forall i, j | 0 <= i < j < |r|
      ensures r[i] <= r[j]
    {
      assert r[j] == t[j - 1];
      if i > 0 { assert r[i] == t[i - 1]; }
    }
  }

  /** The ascending permutation of `s` (insertion sort). */
  function SortSeq(s: seq<int>): (r: seq<int>)
    ensures |r| == |s|
    ensures Sorted(r)
    ensures multiset(r) == multiset(s)
  {
    if s == [] then []
    else
      assert s == [s[0]] + s[1..];
      Insert(s[0], SortSeq(s[1..]))
  }
}
