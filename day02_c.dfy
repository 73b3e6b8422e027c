/**
 * Day 2, C solution: the changes between levels go into a caller-owned array,
 * which `all_positive`, `all_negative` and `safe` scan; `dampened_safe`
 * rebuilds a buffer without one level for each skip index.
 */
module Day02C {
  import Py = Day02Py

  /** `all_positive`: no change is below zero (so zeros pass). */
  method AllPositive(changes: array<int>, len: nat) returns (b: bool)
    requires len <= changes.Length
    ensures b <==> forall i :: 0 <= i < len ==> changes[i] >= 0
  {
    for i := 0 to len
      invariant forall k :: 0 <= k < i ==> changes[k] >= 0
    {
      if changes[i] < 0 {
        return false;
      }
    }
    return true;
  }

  /** `all_negative`: no change is above zero. */
  method AllNegative(changes: array<int>, len: nat) returns (b: bool)
    requires len <= changes.Length
    ensures b <==> forall i :: 0 <= i < len ==> changes[i] <= 0
  {
    for i := 0 to len
      invariant forall k :: 0 <= k < i ==> changes[k] <= 0
    {
      if changes[i] > 0 {
        return false;
      }
    }
    return true;
  }

  /**
   * `safe`: false as soon as some |change| is outside 1..3, otherwise
   * all_positive or all_negative. This is the Python test on the same changes.
   */
  method Safe(changes: array<int>, len: nat) returns (b: bool)
    requires len <= changes.Length
    ensures b <==> Py.SafeSteps(changes[..len])
    ensures b <==> ((forall i :: 0 <= i < len ==> 1 <= changes[i] <= 3)
                 || (forall i :: 0 <= i < len ==> -3 <= changes[i] <= -1))
  {
    var pos := AllPositive(changes, len);
    var neg := AllNegative(changes, len);
    var inRange := true;
    for i := 0 to len
      invariant forall k :: 0 <= k < i ==> 1 <= Py.Abs(changes[k]) <= 3
    {
      if Py.Abs(changes[i]) < 1 || Py.Abs(changes[i]) > 3 {
        assert !Py.SafeSteps(changes[..len]) by {
          assert changes[..len][i] == changes[i];
        }
        return false;
      }
    }
    b := (pos || neg) && inRange;
  }

  /** `levels_change`: `changes[i - 1] = levels[i] - levels[i - 1]` for `1 <= i < num`; nothing else is written. */
  method LevelsChange(levels: array<int>, num: nat, changes: array<int>)
    requires num <= levels.Length && num <= changes.Length + 1
    requires levels != changes
    modifies changes
    ensures changes[..if num == 0 then 0 else num - 1] == Py.Changes(levels[..num])
    ensures forall k :: (if num == 0 then 0 else num - 1) <= k < changes.Length ==> changes[k] == old(changes[k])
  {
    var i := 1;
    while i < num
      invariant 1 <= i <= if num == 0 then 1 else num
      invariant forall k :: 0 <= k < i - 1 ==> changes[k] == levels[k + 1] - levels[k]
      invariant forall k :: i - 1 <= k < changes.Length ==> changes[k] == old(changes[k])
    {
      changes[i - 1] := levels[i] - levels[i - 1];
      i := i + 1;
    }
    Py.ChangesOf(levels[..num]);
  }

  /**
   * `dampened_safe`: true iff some skip index leaves a safe report. The C
   * sizes `levels_len - 1` and `levels_len - 2` need at least two levels.
   */
  method DampenedSafe(levels: array<int>, levelsLen: nat) returns (b: bool)
    requires 2 <= levelsLen <= levels.Length
    ensures b <==> exists s :: 0 <= s < levelsLen && Py.Safe(Py.RemoveAt(levels[..levelsLen], s))
  {
    for skip := 0 to levelsLen
      invariant forall s :: 0 <= s < skip ==> !Py.Safe(Py.RemoveAt(levels[..levelsLen], s))
    {
      var ok := SafeWithout(levels, levelsLen, skip);
      if ok {
        return true;
      }
    }
    return false;
  }

  /** One pass of the `skip` loop of `dampened_safe`: build the buffer, compute its changes, test them. */
  method SafeWithout(levels: array<int>, levelsLen: nat, skip: nat) returns (ok: bool)
    requires skip < levelsLen <= levels.Length && levelsLen >= 2
    ensures ok == Py.Safe(Py.RemoveAt(levels[..levelsLen], skip))
  {
    var targetLevels := levelsLen - 1;
    var combinationBuffer := CombinationWithout(levels, levelsLen, skip);
    var changes := new int[targetLevels - 1];
    LevelsChange(combinationBuffer, targetLevels, changes);
    ok := Safe(changes, targetLevels - 1);
    assert combinationBuffer[..targetLevels] == combinationBuffer[..];
    Py.SafeStepsIff(Py.RemoveAt(levels[..levelsLen], skip));
  }

  /** The inner copy loop of `dampened_safe`: every level except the one at `skip`, in order. */
  method CombinationWithout(levels: array<int>, levelsLen: nat, skip: nat) returns (buffer: array<int>)
    requires skip < levelsLen <= levels.Length
    ensures fresh(buffer)
    ensures buffer[..] == Py.RemoveAt(levels[..levelsLen], skip)
  {
    buffer := new int[levelsLen - 1];
    var target := 0;
    for i := 0 to levelsLen
      invariant target == if i <= skip then i else i - 1
      invariant target <= levelsLen - 1
      invariant forall k :: 0 <= k < target && k < skip ==> buffer[k] == levels[k]
      invariant forall k :: skip <= k < target ==> buffer[k] == levels[k + 1]
    {
      if i != skip {
        assert target == (if i < skip then i else i - 1);
        buffer[target] := levels[i];
        target := target + 1;
      }
    }
    forall k | 0 <= k < levelsLen - 1
      ensures buffer[..][k] == Py.RemoveAt(levels[..levelsLen], skip)[k]
    {
      if k < skip {
        assert Py.RemoveAt(levels[..levelsLen], skip)[k] == levels[..levelsLen][..skip][k];
      } else {
        assert Py.RemoveAt(levels[..levelsLen], skip)[k] == levels[..levelsLen][skip + 1..][k - skip];
      }
    }
  }

  /**
   * The body of the `main` loop for one report: `safe` on its changes, and
   * `dampened_safe` only when that fails.
   */
  method CheckReport(report: seq<int>) returns (isSafe: bool, dampened: bool)
    requires |report| >= 1
    ensures isSafe == Py.Safe(report)
    ensures dampened == (!Py.Safe(report) && Py.DampenedSafe(report))
  {
    var num := |report|;
    var levels := new int[num](i requires 0 <= i < num => report[i]);
    var changes := new int[num - 1];
    assert levels[..num] == report;
    LevelsChange(levels, num, changes);
    isSafe := Safe(changes, num - 1);
    assert isSafe == Py.Safe(report) by {
      Py.SafeStepsIff(report);
    }
    dampened := false;
    if !isSafe {
      assert num >= 2;
      dampened := DampenedSafe(levels, num);
      assert levels[..num] == report;
    }
  }

  /**
   * The counting loop of `main`. The printed dampened count,
   * `safe_count + dampened_safe_count`, equals the Python count.
   */
  method CountReports(reports: seq<seq<int>>) returns (safeCount: nat, dampenedCount: nat)
    requires forall r :: r in reports ==> |r| >= 1
    ensures safeCount == Py.NumSafe(reports)
    ensures safeCount + dampenedCount == Py.NumDampenedSafe(reports)
  {
    safeCount, dampenedCount := 0, 0;
    for k := 0 to |reports|
      invariant safeCount == Py.NumSafe(reports[..k])
      invariant safeCount + dampenedCount == Py.NumDampenedSafe(reports[..k])
    {
      assert reports[..k + 1][..k] == reports[..k];
      var isSafe, dampened := CheckReport(reports[k]);
      if isSafe {
        safeCount := safeCount + 1;
      } else if dampened {
        dampenedCount := dampenedCount + 1;
      }
    }
    assert reports[..|reports|] == reports;
  }
}
