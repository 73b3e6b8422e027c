/**
 * Day 1, Python solution: split the two columns, sort both, then
 *   dist = sum(map(lambda l, r: abs(l - r), left, right))
 *   sim  = sum(map(lambda l: l * right.count(l), left))
 * The lines of the input file arrive already split and parsed as pairs.
 */
module Day01Py {
  import opened Seqs

  function Abs(x: int): nat
  {
    if x < 0 then -x else x
  }

  function Firsts(pairs: seq<(int, int)>): seq<int>
  {
    seq(|pairs|, i requires 0 <= i < |pairs| => pairs[i].0)
  }

  function Seconds(pairs: seq<(int, int)>): seq<int>
  {
    seq(|pairs|, i requires 0 <= i < |pairs| => pairs[i].1)
  }

  /** The append loop: each line gives one element to each column. */
  method SplitColumns(lines: seq<(int, int)>) returns (left: seq<int>, right: seq<int>)
    ensures |left| == |right| == |lines|
    ensures forall i :: 0 <= i < |lines| ==> left[i] == lines[i].0 && right[i] == lines[i].1
  {
    left, right := [], [];
    for k := 0 to |lines|
      invariant |left| == |right| == k
      invariant forall i :: 0 <= i < k ==> left[i] == lines[i].0 && right[i] == lines[i].1
    {
      var (l, r) := lines[k];
      left := left + [l];
      right := right + [r];
    }
  }

  /** Sum of |l - r| over positionally paired elements of equal-length lists. */
  function SumAbsDiff(left: seq<int>, right: seq<int>): nat
    requires |left| == |right|
  {
    if left == [] then 0
    else SumAbsDiff(left[..|left| - 1], right[..|right| - 1]) + Abs(left[|left| - 1] - right[|right| - 1])
  }

  /**
   * `map` over two lists stops at the shorter one. For lists of equal length
   * the distance is zero exactly when they are equal.
   */
  function Dist(left: seq<int>, right: seq<int>): (d: nat)
    ensures |left| == |right| ==> (d == 0 <==> left == right)
  {
    var m := if |left| <= |right| then |left| else |right|;
    assert |left| == |right| ==> left[..m] == left && right[..m] == right;
    SumAbsDiffZeroIff(left[..m], right[..m]);
    SumAbsDiff(left[..m], right[..m])
  }

  /** Sum of l * right.count(l) over the left list. */
  function Sim(left: seq<int>, right: seq<int>): int
  {
    if left == [] then 0
    else Sim(left[..|left| - 1], right) + left[|left| - 1] * Count(right, left[|left| - 1])
  }

  /** The whole script after reading: split, sort in place, then the two sums. */
  method Run(lines: seq<(int, int)>) returns (left: seq<int>, right: seq<int>, dist: nat, sim: int)
    ensures Sorted(left) && multiset(left) == multiset(Firsts(lines))
    ensures Sorted(right) && multiset(right) == multiset(Seconds(lines))
    ensures |left| == |right| == |lines|
    ensures dist == Dist(left, right) && sim == Sim(left, right)
  {
    left, right := SplitColumns(lines);
    assert left == Firsts(lines) && right == Seconds(lines);
    left := SortSeq(left);
    right := SortSeq(right);
    assert |left| == |multiset(left)| && |right| == |multiset(right)|;
    dist := Dist(left, right);
    sim := Sim(left, right);
  }

  lemma {:induction false} SumAbsDiffZeroIff(left: seq<int>, right: seq<int>)
    requires |left| == |right|
    ensures SumAbsDiff(left, right) == 0 <==> left == right
  {
    if left != [] {
      var n := |left| - 1;
      SumAbsDiffZeroIff(left[..n], right[..n]);
      assert left == left[..n] + [left[n]] && right == right[..n] + [right[n]];
    }
  }

  /** Swapping the two columns leaves the distance unchanged. */
  lemma {:induction false} DistSymmetric(left: seq<int>, right: seq<int>)
    ensures Dist(left, right) == Dist(right, left)
  {
    var m := if |left| <= |right| then |left| else |right|;
    SumAbsDiffSymmetric(left[..m], right[..m]);
  }

  lemma {:induction false} SumAbsDiffSymmetric(left: seq<int>, right: seq<int>)
    requires |left| == |right|
    ensures SumAbsDiff(left, right) == SumAbsDiff(right, left)
  {
    if left != [] {
      SumAbsDiffSymmetric(left[..|left| - 1], right[..|right| - 1]);
    }
  }

  /** Left values that do not occur in `right` contribute nothing. */
  lemma {:induction false} SimIgnoresAbsent(left: seq<int>, right: seq<int>, x: int)
    requires x !in right
    ensures Sim(left + [x], right) == Sim(left, right)
  {
    assert (left + [x])[..|left|] == left;
    assert multiset(right)[x] == 0;
  }

  /** Similarity depends only on the multiset of left values: sorting `left` does not change it. */
  lemma {:induction false} SimOfSorted(left: seq<int>, right: seq<int>)
    ensures Sim(SortSeq(left), right) == Sim(left, right)
  {
    if left != [] {
      SimOfSorted(left[1..], right);
      SimInsert(left[0], SortSeq(left[1..]), right);
      SimCons(left[0], left[1..], right);
      assert left == [left[0]] + left[1..];
    }
  }

  /** Sorting `right` does not change any count, so neither the similarity. */
  lemma {:induction false} SimOfSortedRight(left: seq<int>, right: seq<int>)
    ensures Sim(left, SortSeq(right)) == Sim(left, right)
  {
    if left != [] {
      SimOfSortedRight(left[..|left| - 1], right);
    }
  }

  lemma {:induction false} SimCons(x: int, s: seq<int>, right: seq<int>)
    ensures Sim([x] + s, right) == x * Count(right, x) + Sim(s, right)
  {
    if s != [] {
      var n := |s| - 1;
      assert ([x] + s)[..|s|] == [x] + s[..n];
      SimCons(x, s[..n], right);
    } else {
      assert ([x] + s)[..0] == [];
    }
  }

  lemma {:induction false} SimInsert(x: int, s: seq<int>, right: seq<int>)
    requires Sorted(s)
    ensures Sim(Insert(x, s), right) == x * Count(right, x) + Sim(s, right)
  {
    if s != [] && x > s[0] {
      SimInsert(x, s[1..], right);
      SimCons(s[0], Insert(x, s[1..]), right);
      SimCons(s[0], s[1..], right);
      assert s == [s[0]] + s[1..];
    } else {
      SimCons(x, s, right);
    }
  }
}
