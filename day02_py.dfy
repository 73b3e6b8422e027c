/**
 * Day 2, Python solution: a report is safe when its adjacent differences are
 * all increasing or all decreasing by 1 to 3; the dampened check also accepts
 * a report that becomes safe after removing one level.
 */
module Day02Py {

  function Abs(x: int): nat
  {
    if x < 0 then -x else x
  }

  /** `[b - a for a, b in itertools.pairwise(report)]` */
  function Changes(report: seq<int>): seq<int>
  {
    if |report| <= 1 then []
    else seq(|report| - 1, i requires 0 <= i < |report| - 1 => report[i + 1] - report[i])
  }

  lemma ChangesOf(report: seq<int>)
    ensures |Changes(report)| == if |report| == 0 then 0 else |report| - 1
    ensures forall k :: 0 <= k < |Changes(report)| ==> Changes(report)[k] == report[k + 1] - report[k]
  {
  }

  /** The test applied to the list of changes. */
  predicate SafeSteps(changes: seq<int>)
  {
    ((forall i :: 0 <= i < |changes| ==> changes[i] > 0) || (forall i :: 0 <= i < |changes| ==> changes[i] < 0))
    && (forall i :: 0 <= i < |changes| ==> 1 <= Abs(changes[i]) <= 3)
  }

  /** Every step from `report[i - 1]` to `report[i]` lies in `[lo, hi]`. */
  predicate StepsWithin(report: seq<int>, lo: int, hi: int)
  {
    forall i :: 0 < i < |report| ==> lo <= report[i] - report[i - 1] <= hi
  }

  /** `safe(report)`: every step rises by 1..3, or every step falls by 1..3. */
  function Safe(report: seq<int>): (b: bool)
    ensures b <==> StepsWithin(report, 1, 3) || StepsWithin(report, -3, -1)
    ensures |report| <= 1 ==> b
  {
    SafeStepsIff(report);
    SafeSteps(Changes(report))
  }

  lemma SafeStepsIff(report: seq<int>)
    ensures SafeSteps(Changes(report)) <==> StepsWithin(report, 1, 3) || StepsWithin(report, -3, -1)
  {
    var c := Changes(report);
    SafeStepsWithin(c);
    ChangesWithinSteps(report, 1, 3);
    ChangesWithinSteps(report, -3, -1);
  }

  /** Every change lies in `[lo, hi]`. */
  predicate ChangesWithin(changes: seq<int>, lo: int, hi: int)
  {
    forall j :: 0 <= j < |changes| ==> lo <= changes[j] <= hi
  }

  /** One sign throughout and sizes 1 to 3: all changes in `[1, 3]` or all in `[-3, -1]`. */
  lemma SafeStepsWithin(changes: seq<int>)
    ensures SafeSteps(changes) <==> ChangesWithin(changes, 1, 3) || ChangesWithin(changes, -3, -1)
  {
  }

  /** The changes lie in a range exactly when the steps of the report do. */
  lemma ChangesWithinSteps(report: seq<int>, lo: int, hi: int)
    ensures ChangesWithin(Changes(report), lo, hi) <==> StepsWithin(report, lo, hi)
  {
    var c := Changes(report);
    ChangesOf(report);
    if ChangesWithin(c, lo, hi) {
      forall i | 0 < i < |report| ensures lo <= report[i] - report[i - 1] <= hi {
        assert c[i - 1] == report[i] - report[i - 1];
      }
    }
  }

  /** The report with the level at index `i` removed, order kept. */
  function RemoveAt(s: seq<int>, i: nat): (r: seq<int>)
    requires i < |s|
    ensures |r| == |s| - 1
  {
    s[..i] + s[i + 1..]
  }

  /**
   * `dampened_safe(report)`: `safe(report)` short-circuits; otherwise one of the
   * `combinations(report, len(report) - 1)` must be safe. Those combinations
   * are exactly the removals of one index, in the original order.
   */
  predicate DampenedSafe(report: seq<int>)
  {
    Safe(report) || exists i :: 0 <= i < |report| && Safe(RemoveAt(report, i))
  }

  /** Dropping the last level of a safe report keeps it safe. */
  lemma {:induction false} SafePrefix(report: seq<int>)
    requires |report| >= 1 && Safe(report)
    ensures Safe(report[..|report| - 1])
  {
    var p := report[..|report| - 1];
    if StepsWithin(report, 1, 3) {
      StepsWithinPrefix(report, p, 1, 3);
    } else {
      StepsWithinPrefix(report, p, -3, -1);
    }
  }

  /** A prefix takes its steps from the whole report. */
  lemma StepsWithinPrefix(report: seq<int>, p: seq<int>, lo: int, hi: int)
    requires |p| <= |report| && p == report[..|p|]
    requires StepsWithin(report, lo, hi)
    ensures StepsWithin(p, lo, hi)
  {
    forall i | 0 < i < |p| ensures lo <= p[i] - p[i - 1] <= hi {
      assert p[i] == report[i] && p[i - 1] == report[i - 1];
    }
  }

  /**
   * For a non-empty report the short-circuit is redundant: dampened safety is
   * exactly "some single removal is safe".
   */
  lemma {:induction false} DampenedSafeIff(report: seq<int>)
    requires |report| >= 1
    ensures DampenedSafe(report) <==> exists i :: 0 <= i < |report| && Safe(RemoveAt(report, i))
  {
    if Safe(report) {
      SafeDropsLast(report);
    }
  }

  /** A safe report stays safe without its last level. */
  lemma SafeDropsLast(report: seq<int>)
    requires |report| >= 1 && Safe(report)
    ensures Safe(RemoveAt(report, |report| - 1))
  {
    SafePrefix(report);
    RemoveLast(report);
  }

  /** Removing the last level leaves the prefix before it. */
  lemma RemoveLast(s: seq<int>)
    requires |s| >= 1
    ensures RemoveAt(s, |s| - 1) == s[..|s| - 1]
  {
    assert s[|s|..] == [];
  }

  /** A safe report is dampened-safe. */
  lemma SafeImpliesDampened(report: seq<int>)
    requires Safe(report)
    ensures DampenedSafe(report)
  {
  }

  /** Number of reports satisfying `safe`, as `sum([safe(report) for report in reports])`. */
  function NumSafe(reports: seq<seq<int>>): nat
  {
    if reports == [] then 0
    else NumSafe(reports[..|reports| - 1]) + (if Safe(reports[|reports| - 1]) then 1 else 0)
  }

  function NumDampenedSafe(reports: seq<seq<int>>): nat
  {
    if reports == [] then 0
    else NumDampenedSafe(reports[..|reports| - 1]) + (if DampenedSafe(reports[|reports| - 1]) then 1 else 0)
  }

  /** Every safe report is also counted by the dampened count. */
  lemma {:induction false} NumSafeAtMostDampened(reports: seq<seq<int>>)
    ensures NumSafe(reports) <= NumDampenedSafe(reports)
  {
    if reports != [] {
      NumSafeAtMostDampened(reports[..|reports| - 1]);
    }
  }
}
