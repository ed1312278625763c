/** Day 2: safety of level reports, with a dampener that may drop one level. */
module Day02 {
  import opened Common

  /** One adjacent pair of a report keeps the direction and changes by 1 to 3. */
  predicate WindowOk(a: int, b: int, increasing: bool)
  {
    var diff := b - a;
    diff != 0 && (diff > 0) == increasing && Abs(diff) <= 3
  }

  /** `windows(2).all(...)` over the report. */
  predicate AllWindowsOk(report: seq<int>, increasing: bool)
  {
    |report| < 2 || (WindowOk(report[0], report[1], increasing) && AllWindowsOk(report[1..], increasing))
  }

  /** A report is safe when its first two levels differ and every window agrees with their direction. */
  predicate IsReportSafe(report: seq<int>)
    requires |report| >= 2
  {
    if report[0] == report[1] then false
    else AllWindowsOk(report, report[0] < report[1])
  }

  /** Every adjacent step rises by 1 to 3. */
  predicate GraduallyIncreasing(report: seq<int>)
  {
    forall i :: 0 <= i < |report| - 1 ==> 1 <= report[i + 1] - report[i] <= 3
  }

  /** Every adjacent step falls by 1 to 3. */
  predicate GraduallyDecreasing(report: seq<int>)
  {
    forall i :: 0 <= i < |report| - 1 ==> 1 <= report[i] - report[i + 1] <= 3
  }

  lemma {:induction false} AllWindowsOkMeaning(report: seq<int>, increasing: bool)
    ensures AllWindowsOk(report, increasing) <==>
      (if increasing then GraduallyIncreasing(report) else GraduallyDecreasing(report))
  {
    if |report| >= 2 {
      AllWindowsOkMeaning(report[1..], increasing);
      if increasing && GraduallyIncreasing(report) {
        assert 1 <= report[1] - report[0];
      }
      if !increasing && GraduallyDecreasing(report) {
        assert 1 <= report[0] - report[1];
      }
    }
  }

  /** A report is safe exactly when it is gradually increasing or gradually decreasing. */
  lemma ReportSafeMeaning(report: seq<int>)
    requires |report| >= 2
    ensures IsReportSafe(report) <==> GraduallyIncreasing(report) || GraduallyDecreasing(report)
  {
    AllWindowsOkMeaning(report, report[0] < report[1]);
    if GraduallyIncreasing(report) {
      assert report[0] < report[1];
    }
    if GraduallyDecreasing(report) {
      assert report[0] > report[1];
    }
  }

  function RemoveLevel(report: seq<int>, k: nat): (r: seq<int>)
    requires k < |report|
    ensures |r| == |report| - 1
  {
    report[..k] + report[k + 1..]
  }

  /** The loop over `index_to_skip` from `from` on: does dropping some level make the report safe? */
  predicate SafeAfterRemovalFrom(report: seq<int>, from: nat)
    requires |report| >= 3 && from <= |report|
    decreases |report| - from
  {
    if from == |report| then false
    else IsReportSafe(RemoveLevel(report, from)) || SafeAfterRemovalFrom(report, from + 1)
  }

  lemma {:induction false} SafeAfterRemovalFromMeaning(report: seq<int>, from: nat)
    requires |report| >= 3 && from <= |report|
    ensures SafeAfterRemovalFrom(report, from) <==>
      exists k :: from <= k < |report| && IsReportSafe(RemoveLevel(report, k))
    decreases |report| - from
  {
    if from < |report| {
      SafeAfterRemovalFromMeaning(report, from + 1);
    }
  }

  /**
   * Part 2's test for one report. A report of two unequal-but-unsafe levels would make the source
   * build a one-level report and panic, hence the precondition.
   */
  predicate IsDampenedSafe(report: seq<int>)
    requires |report| >= 2
    requires |report| >= 3 || IsReportSafe(report)
  {
    IsReportSafe(report) || SafeAfterRemovalFrom(report, 0)
  }

  /** Part 2 counts a report iff it is safe, or dropping exactly one level makes it safe. */
  lemma DampenedSafeMeaning(report: seq<int>)
    requires |report| >= 2
    requires |report| >= 3 || IsReportSafe(report)
    ensures IsDampenedSafe(report) <==>
      IsReportSafe(report) || exists k :: 0 <= k < |report| && IsReportSafe(RemoveLevel(report, k))
  {
    if |report| >= 3 {
      SafeAfterRemovalFromMeaning(report, 0);
    }
  }

  /** Part 2's closure for one report: the quick exit, then the loop over the level to skip. */
  method CheckDampened(report: seq<int>) returns (safe: bool)
    requires |report| >= 2
    requires |report| >= 3 || IsReportSafe(report)
    ensures safe == IsDampenedSafe(report)
  {
    if IsReportSafe(report) {
      return true;
    }
    for k := 0 to |report|
      invariant SafeAfterRemovalFrom(report, 0) == SafeAfterRemovalFrom(report, k)
    {
      var newReport := report[..k] + report[k + 1..];
      if IsReportSafe(newReport) {
        return true;
      }
    }
    return false;
  }

  predicate WellFormed(reports: seq<seq<int>>)
  {
    forall i :: 0 <= i < |reports| ==> |reports[i]| >= 2
  }

  predicate DampenerWellFormed(reports: seq<seq<int>>)
  {
    forall i :: 0 <= i < |reports| ==> |reports[i]| >= 3 || (|reports[i]| == 2 && IsReportSafe(reports[i]))
  }

  /** Part 1: the number of safe reports. */
  function SafeCount(reports: seq<seq<int>>): (n: nat)
    requires WellFormed(reports)
    ensures n <= |reports|
  {
    if reports == [] then 0
    else (if IsReportSafe(reports[0]) then 1 else 0) + SafeCount(reports[1..])
  }

  /** Part 2: the number of reports that are safe with the dampener. */
  function DampenedSafeCount(reports: seq<seq<int>>): (n: nat)
    requires DampenerWellFormed(reports)
    ensures n <= |reports|
  {
    if reports == [] then 0
    else (if IsDampenedSafe(reports[0]) then 1 else 0) + DampenedSafeCount(reports[1..])
  }

  /** Every report counted by part 1 is counted by part 2. */
  lemma {:induction false} DampenerOnlyAdds(reports: seq<seq<int>>)
    requires DampenerWellFormed(reports)
    ensures WellFormed(reports)
    ensures SafeCount(reports) <= DampenedSafeCount(reports)
  {
    if reports != [] {
      DampenerOnlyAdds(reports[1..]);
    }
  }

  lemma ExamplePart1()
    ensures SafeCount([[7, 6, 4, 2, 1], [1, 2, 7, 8, 9], [9, 7, 6, 2, 1], [1, 3, 2, 4, 5], [8, 6, 4, 4, 1], [1, 3, 6, 7, 9]]) == 2
  {
    assert IsReportSafe([7, 6, 4, 2, 1]);
    assert !IsReportSafe([1, 2, 7, 8, 9]);
    assert !IsReportSafe([9, 7, 6, 2, 1]);
    assert !IsReportSafe([1, 3, 2, 4, 5]);
    assert !IsReportSafe([8, 6, 4, 4, 1]);
    assert IsReportSafe([1, 3, 6, 7, 9]);
  }

  /** No single removal makes the report safe. */
  lemma NoRemovalHelps(report: seq<int>)
    requires |report| >= 3
    requires forall k :: 0 <= k < |report| ==> !IsReportSafe(RemoveLevel(report, k))
    ensures !IsDampenedSafe(report) || IsReportSafe(report)
  {
    SafeAfterRemovalFromMeaning(report, 0);
  }

  lemma SecondUnfixable()
    ensures !IsDampenedSafe([1, 2, 7, 8, 9])
  {
    assert !IsReportSafe([1, 2, 7, 8, 9]);
    assert RemoveLevel([1, 2, 7, 8, 9], 0) == [2, 7, 8, 9];
    assert !IsReportSafe([2, 7, 8, 9]);
    assert RemoveLevel([1, 2, 7, 8, 9], 1) == [1, 7, 8, 9];
    assert !IsReportSafe([1, 7, 8, 9]);
    assert RemoveLevel([1, 2, 7, 8, 9], 2) == [1, 2, 8, 9];
    assert !IsReportSafe([1, 2, 8, 9]);
    assert RemoveLevel([1, 2, 7, 8, 9], 3) == [1, 2, 7, 9];
    assert !IsReportSafe([1, 2, 7, 9]);
    assert RemoveLevel([1, 2, 7, 8, 9], 4) == [1, 2, 7, 8];
    assert !IsReportSafe([1, 2, 7, 8]);
    NoRemovalHelps([1, 2, 7, 8, 9]);
  }

  lemma ThirdUnfixable()
    ensures !IsDampenedSafe([9, 7, 6, 2, 1])
  {
    assert !AllWindowsOk([6, 2, 1], false);
    assert [9, 7, 6, 2, 1][1..][1..] == [6, 2, 1];
    assert !IsReportSafe([9, 7, 6, 2, 1]);
    assert RemoveLevel([9, 7, 6, 2, 1], 0) == [7, 6, 2, 1];
    assert !IsReportSafe([7, 6, 2, 1]);
    assert RemoveLevel([9, 7, 6, 2, 1], 1) == [9, 6, 2, 1];
    assert !IsReportSafe([9, 6, 2, 1]);
    assert RemoveLevel([9, 7, 6, 2, 1], 2) == [9, 7, 2, 1];
    assert !IsReportSafe([9, 7, 2, 1]);
    assert RemoveLevel([9, 7, 6, 2, 1], 3) == [9, 7, 6, 1];
    assert !IsReportSafe([9, 7, 6, 1]);
    assert RemoveLevel([9, 7, 6, 2, 1], 4) == [9, 7, 6, 2];
    assert !IsReportSafe([9, 7, 6, 2]);
    NoRemovalHelps([9, 7, 6, 2, 1]);
  }

  lemma FourthFixable()
    ensures IsDampenedSafe([1, 3, 2, 4, 5])
  {
    assert RemoveLevel([1, 3, 2, 4, 5], 1) == [1, 2, 4, 5];
    assert GraduallyIncreasing([1, 2, 4, 5]);
    ReportSafeMeaning([1, 2, 4, 5]);
    DampenedSafeMeaning([1, 3, 2, 4, 5]);
  }

  lemma FifthFixable()
    ensures IsDampenedSafe([8, 6, 4, 4, 1])
  {
    assert RemoveLevel([8, 6, 4, 4, 1], 2) == [8, 6, 4, 1];
    assert GraduallyDecreasing([8, 6, 4, 1]);
    ReportSafeMeaning([8, 6, 4, 1]);
    DampenedSafeMeaning([8, 6, 4, 4, 1]);
  }

  lemma ExamplePart2()
    ensures DampenedSafeCount([[7, 6, 4, 2, 1], [1, 2, 7, 8, 9], [9, 7, 6, 2, 1], [1, 3, 2, 4, 5], [8, 6, 4, 4, 1], [1, 3, 6, 7, 9]]) == 4
  {
    assert IsReportSafe([7, 6, 4, 2, 1]);
    SecondUnfixable();
    ThirdUnfixable();
    FourthFixable();
    FifthFixable();
    assert IsReportSafe([1, 3, 6, 7, 9]);
  }
}
