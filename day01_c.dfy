/**
 * Day 1, C solution: two growable `long` arrays filled pair by pair, sorted with
 * `qsort`, then the distance and similarity loops of `main`.
 */
module Day01C {
  import opened Seqs
  import opened Day01Py

  const LONG_MIN: int := -0x8000_0000_0000_0000
  const LONG_MAX: int := 0x7fff_ffff_ffff_ffff
  const INT_MIN: int := -0x8000_0000
  const INT_MAX: int := 0x7fff_ffff

  predicate IsLong(x: int) { LONG_MIN <= x <= LONG_MAX }
  predicate IsInt(x: int) { INT_MIN <= x <= INT_MAX }

  /** Conversion of a `long` to the 32-bit `int` return type: two's-complement truncation. */
  function ToInt(x: int): (r: int)
    ensures IsInt(r)
    ensures (r - x) % 0x1_0000_0000 == 0
    ensures IsInt(x) ==> r == x
  {
    var m := x % 0x1_0000_0000;
    if m <= INT_MAX then m else m - 0x1_0000_0000
  }

  /**
   * `compareLong` as written: `return (*(long*)a - *(long*)b);` returns the
   * `long` difference through an `int`. The sign is right only while the
   * difference fits in 32 bits.
   */
  function CompareLongAsWritten(a: int, b: int): (r: int)
    requires IsLong(a) && IsLong(b) && IsLong(a - b)
    ensures IsInt(r)
    ensures IsInt(a - b) ==> (r < 0 <==> a < b) && (r == 0 <==> a == b) && (r > 0 <==> a > b)
  {
    ToInt(a - b)
  }

  /** Two distinct values 2^32 apart compare as equal. */
  lemma CompareLongTruncates()
    ensures CompareLongAsWritten(0x1_0000_0000, 0) == 0
  {
  }

  /** The comparator `qsort` needs: negative, zero or positive as a < b, a == b, a > b. */
  function CompareLong(a: int, b: int): (r: int)
    ensures r < 0 <==> a < b
    ensures r == 0 <==> a == b
    ensures r > 0 <==> a > b
  {
    if a < b then -1 else if a > b then 1 else 0
  }

  /** `number_freq`: how often `num` occurs among the first `len` elements. */
  method NumberFreq(num: int, list: array<int>, len: nat) returns (total: int)
    requires len <= list.Length
    ensures total == Count(list[..len], num)
    ensures 0 <= total <= len
    ensures total == 0 <==> num !in list[..len]
  {
    total := 0;
    for i := 0 to len
      invariant total == Count(list[..i], num)
    {
      assert list[..i + 1][..i] == list[..i];
      if list[i] == num {
        total := total + 1;
      }
    }
    assert list[..len] == list[..len][..len];
  }

  /** `sort_list`: its body is empty, so the array is left as it was. */
  method SortList(list: array<int>, len: nat)
    requires len <= list.Length
    modifies list
    ensures list[..] == old(list[..])
  {
  }

  /**
   * The values are `long`s and every two of them differ by an amount that fits
   * in an `int`, so `compareLong` as written orders them as `CompareLong` does.
   * Otherwise the comparator is no consistent order and `qsort`'s result is
   * unspecified.
   */
  predicate ComparableLongs(s: seq<int>)
  {
    forall i, j :: 0 <= i < |s| && 0 <= j < |s| ==> IsLong(s[i]) && IsInt(s[i] - s[j])
  }

  /** On such values the comparator as written has the sign of the intended one. */
  lemma ComparableAgrees(s: seq<int>, i: nat, j: nat)
    requires ComparableLongs(s) && i < |s| && j < |s|
    ensures IsLong(s[i] - s[j])
    ensures var w, c := CompareLongAsWritten(s[i], s[j]), CompareLong(s[i], s[j]);
      (w < 0 <==> c < 0) && (w == 0 <==> c == 0) && (w > 0 <==> c > 0)
  {
  }

  /**
   * The `qsort` call with `compareLong`: the first `n` elements become their
   * ascending permutation, provided the comparator orders them consistently.
   */
  method Qsort(list: array<int>, n: nat)
    requires n <= list.Length
    requires ComparableLongs(list[..n])
    modifies list
    ensures list[..n] == SortSeq(old(list[..n]))
    ensures list[n..] == old(list[n..])
  {
    ghost var a := list[..];
    var sorted := SortSeq(list[..n]);
    forall i | 0 <= i < n {
      list[i] := sorted[i];
    }
    CopiedPrefix(a, list[..], sorted, n);
  }

  /** Overwriting the first `n` elements with `sorted` and keeping the rest. */
  lemma CopiedPrefix(a: seq<int>, r: seq<int>, sorted: seq<int>, n: nat)
    requires |r| == |a| && n <= |a| && |sorted| == n
    requires forall i :: 0 <= i < n ==> r[i] == sorted[i]
    requires forall i :: n <= i < |a| ==> r[i] == a[i]
    ensures r[..n] == sorted && r[n..] == a[n..]
  {
  }

  /**
   * A growable list of numbers as `main` keeps it: the buffer, its allocated
   * size (`left_list_size`) and its count (`left_list_nums`).
   */
  class NumList {
    var data: array<int>
    var size: nat
    var nums: nat

    ghost predicate Valid()
      reads this
    {
      data.Length == size && 1 <= size && nums <= size
    }

    ghost function Contents(): seq<int>
      reads this, data
      requires Valid()
    {
      data[..nums]
    }

    /** `malloc(sizeof(long) * 100)` with a count of zero. */
    constructor ()
      ensures Valid() && fresh(data)
      ensures size == 100 && Contents() == []
    {
      data := new int[100];
      size := 100;
      nums := 0;
    }

    /** `resize_list`: doubles the size; `realloc` keeps the old contents. */
    method Resize()
      requires Valid()
      modifies this
      ensures Valid() && fresh(data)
      ensures size == 2 * old(size) && nums == old(nums)
      ensures data[..old(size)] == old(data[..])
      ensures Contents() == old(Contents())
    {
      var n, buffer := size, data;
      var grown := new int[2 * n];
      for i := 0 to n
        invariant grown[..i] == buffer[..i]
        modifies grown
      {
        grown[i] := buffer[i];
      }
      data := grown;
      size := 2 * n;
    }

    /** One append of the read loop: grow when full, then store and count. */
    method Append(x: int)
      requires Valid()
      modifies this, data
      ensures Valid() && (data == old(data) || fresh(data))
      ensures Contents() == old(Contents()) + [x]
      ensures nums == old(nums) + 1 && nums <= size
      ensures size == if old(nums) == old(size) then 2 * old(size) else old(size)
    {
      if size < nums + 1 {
        Resize();
      }
      data[nums] := x;
      nums := nums + 1;
    }
  }

  /** The read loop of `main`: every pair appends to both lists. */
  method ReadColumns(pairs: seq<(int, int)>) returns (left: NumList, right: NumList)
    ensures fresh(left) && fresh(right) && fresh(left.data) && fresh(right.data) && left.data != right.data
    ensures left.Valid() && right.Valid()
    ensures left.Contents() == Firsts(pairs) && right.Contents() == Seconds(pairs)
    ensures left.nums == right.nums == |pairs|
  {
    left := new NumList();
    right := new NumList();
    var k := 0;
    while k < |pairs|
      invariant k <= |pairs|
      invariant fresh(left) && fresh(right) && fresh(left.data) && fresh(right.data) && left.data != right.data
      invariant left.Valid() && right.Valid()
      invariant left.Contents() == Firsts(pairs[..k]) && right.Contents() == Seconds(pairs[..k])
      invariant left.nums == right.nums == k
    {
      ColumnsStep(pairs, k);
      left.Append(pairs[k].0);
      right.Append(pairs[k].1);
      k := k + 1;
    }
    assert pairs[..|pairs|] == pairs;
  }

  /** One more pair adds its first element to the left column and its second to the right. */
  lemma ColumnsStep(pairs: seq<(int, int)>, k: nat)
    requires k < |pairs|
    ensures Firsts(pairs[..k + 1]) == Firsts(pairs[..k]) + [pairs[k].0]
    ensures Seconds(pairs[..k + 1]) == Seconds(pairs[..k]) + [pairs[k].1]
  {
  }

  /** The part 1 loop: `distance += labs(left_list[i] - right_list[i])`. */
  method Distance(left: array<int>, right: array<int>, n: nat) returns (distance: int)
    requires n <= left.Length && n <= right.Length
    ensures distance == Dist(left[..n], right[..n])
    ensures distance >= 0
  {
    distance := 0;
    for i := 0 to n
      invariant distance == SumAbsDiff(left[..i], right[..i])
    {
      assert left[..i + 1][..i] == left[..i] && right[..i + 1][..i] == right[..i];
      distance := distance + Abs(left[i] - right[i]);
    }
    assert left[..n][..n] == left[..n] && right[..n][..n] == right[..n];
  }

  /** The part 2 loop: `frequency += left_list[i] * number_freq(left_list[i], right_list, n)`. */
  method Similarity(left: array<int>, right: array<int>, n: nat) returns (frequency: int)
    requires n <= left.Length && n <= right.Length
    ensures frequency == Sim(left[..n], right[..n])
  {
    frequency := 0;
    for i := 0 to n
      invariant frequency == Sim(left[..i], right[..n])
    {
      assert left[..i + 1][..i] == left[..i];
      var f := NumberFreq(left[i], right, n);
      frequency := frequency + left[i] * f;
    }
  }

  /** `main` after reading: sort both lists, then compute both answers. */
  method Solve(pairs: seq<(int, int)>) returns (distance: int, frequency: int)
    requires ComparableLongs(Firsts(pairs)) && ComparableLongs(Seconds(pairs))
    ensures distance == Dist(SortSeq(Firsts(pairs)), SortSeq(Seconds(pairs)))
    ensures frequency == Sim(Firsts(pairs), Seconds(pairs))
  {
    var left, right := ReadColumns(pairs);
    var n := left.nums;
    assert left.data[..n] == Firsts(pairs) && right.data[..n] == Seconds(pairs);
    Qsort(left.data, n);
    Qsort(right.data, n);
    distance := Distance(left.data, right.data, n);
    frequency := Similarity(left.data, right.data, n);
    SimOfSorted(Firsts(pairs), SortSeq(Seconds(pairs)));
    SimOfSortedRight(Firsts(pairs), Seconds(pairs));
  }
}
