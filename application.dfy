/**
 * The run of `main` in `Main.kt`: scan the data directory, then for each month in date
 * order either regenerate its two files (forced, or out of date) or read back its existing
 * summary, and finally build the dashboard document from the summaries collected.
 *
 * The data directory's output files are the map `outputs`; the dashboard document is
 * returned rather than written, and nothing is logged.
 */
module Application {
  import opened Wrappers
  import opened Calendar
  import opened Decimal
  import opened Sorting
  import opened LinkedMaps
  import opened Models
  import opened FileTree
  import opened FileNameParser
  import opened DataScanner
  import opened MonthlyAggregator
  import opened DashboardExporter

  datatype RunResult = RunResult(outputs: Outputs, dashboard: Option<DashboardData>)

  /** One month of the run: the outputs after it and the summary it adds to the dashboard, if any. */
  function MonthStep(outputs: Outputs, force: bool, now: int, ym: YearMonth, files: seq<DailyFile>)
    : (Outputs, Option<MonthSummary>)
  {
    if force || ShouldProcessMonth(outputs, ym, files) then
      var p := ProcessedMonth(ym, files);
      (ExportedOutputs(outputs, now, p.summary, p.dayDataMap), Some(p.summary))
    else (outputs, LoadSummary(outputs, ym))
  }

  /** The months in order: the outputs after them and the summaries collected. */
  function Rollup(outputs: Outputs, force: bool, now: int, groups: Groups): (Outputs, seq<MonthSummary>)
  {
    if groups == [] then (outputs, [])
    else
      var before := Rollup(outputs, force, now, groups[..|groups| - 1]);
      var last := groups[|groups| - 1];
      var step := MonthStep(before.0, force, now, last.0, last.1);
      (step.0, before.1 + OptionToSeq(step.1))
  }

  /** What a run does: nothing without daily files, otherwise every month and then the dashboard. */
  function RunOf(root: seq<Entry>, outputs: Outputs, force: bool, now: int, generatedAt: string): RunResult
  {
    var groups := Scan(root);
    if groups == [] then RunResult(outputs, None)
    else
      var rolled := Rollup(outputs, force, now, groups);
      RunResult(rolled.0, Some(DashboardOf(rolled.1, generatedAt)))
  }

  /**
   * The body of `main`'s loop over the months: regenerate and export the month when forced
   * or out of date, otherwise read back its existing summary.
   */
  method HandleMonth(outputs: Outputs, force: bool, now: int, yearMonth: YearMonth, dailyFiles: seq<DailyFile>)
    returns (newOutputs: Outputs, monthSummary: Option<MonthSummary>)
    ensures (newOutputs, monthSummary) == MonthStep(outputs, force, now, yearMonth, dailyFiles)
  {
    var shouldProcess := if force then true else ShouldProcessMonth(outputs, yearMonth, dailyFiles);
    if shouldProcess {
      var result := ProcessMonth(yearMonth, dailyFiles);
      newOutputs := ExportMonth(outputs, now, result.summary, result.dayDataMap);
      monthSummary := Some(result.summary);
    } else {
      newOutputs := outputs;
      monthSummary := LoadExistingSummary(outputs, yearMonth);
    }
  }

  lemma RollupSnoc(outputs: Outputs, force: bool, now: int, groups: Groups, i: int)
    requires 0 <= i < |groups|
    ensures var before := Rollup(outputs, force, now, groups[..i]);
      var step := MonthStep(before.0, force, now, groups[i].0, groups[i].1);
      Rollup(outputs, force, now, groups[..i + 1]) == (step.0, before.1 + OptionToSeq(step.1))
  {
    assert groups[..i + 1][..i] == groups[..i];
  }

  /**
   * `main`: `force` is the `--force` option, `now` the time the files are written at and
   * `generatedAt` the timestamp of the dashboard.
   */
  method Run(root: seq<Entry>, outputs: Outputs, force: bool, now: int, generatedAt: string) returns (r: RunResult)
    ensures r == RunOf(root, outputs, force, now, generatedAt)
  {
    var monthlyGroups := ScanAndGroupByMonth(root);
    if monthlyGroups == [] {
      return RunResult(outputs, None);
    }
    var files := outputs;
    var allMonthSummaries: seq<MonthSummary> := [];
    for i := 0 to |monthlyGroups|
      invariant (files, allMonthSummaries) == Rollup(outputs, force, now, monthlyGroups[..i])
    {
      var newFiles, monthSummary := HandleMonth(files, force, now, monthlyGroups[i].0, monthlyGroups[i].1);
      RollupSnoc(outputs, force, now, monthlyGroups, i);
      files, allMonthSummaries := newFiles, allMonthSummaries + OptionToSeq(monthSummary);
    }
    assert monthlyGroups[..|monthlyGroups|] == monthlyGroups;
    r := RunResult(files, Some(DashboardOf(allMonthSummaries, generatedAt)));
  }

  // ================================================================ properties

  /** Without a daily file nothing is written, not even the dashboard; with one, the dashboard is. */
  lemma NoDailyFilesNoDashboard(root: seq<Entry>, outputs: Outputs, force: bool, now: int, generatedAt: string)
    ensures var r := RunOf(root, outputs, force, now, generatedAt);
      (r.dashboard.None? <==> Scan(root) == []) && (Scan(root) == [] ==> r.outputs == outputs)
  {
  }

  /** Each month's summary, regenerated or read back, is that month's. */
  lemma MonthStepMonth(outputs: Outputs, force: bool, now: int, ym: YearMonth, files: seq<DailyFile>)
    ensures var s := MonthStep(outputs, force, now, ym, files).1;
      s.Some? ==> s.value.year == ym.year && s.value.month == ym.month
  {
  }

  /** The months have strictly ascending (year, month) keys. */
  predicate MonthsAscend(groups: Groups)
  {
    forall i, j :: 0 <= i < j < |groups| ==>
      YearMonthKey(groups[i].0) != YearMonthKey(groups[j].0) && LexLe(YearMonthKey(groups[i].0), YearMonthKey(groups[j].0))
  }

  /** Summaries strictly ascending by (year, month), each the summary of one of the months. */
  predicate SummariesOfMonths(ms: seq<MonthSummary>, groups: Groups)
  {
    && (forall i :: 0 <= i < |ms| ==> exists g :: 0 <= g < |groups| && MonthKey(ms[i]) == YearMonthKey(groups[g].0))
    && (forall i, j :: 0 <= i < j < |ms| ==> MonthKey(ms[i]) != MonthKey(ms[j]) && LexLe(MonthKey(ms[i]), MonthKey(ms[j])))
  }

  /** The step of `RollupAscending`: at most one summary of the newest month is appended. */
  lemma SummariesOfMonthsSnoc(ms: seq<MonthSummary>, extra: seq<MonthSummary>, groups: Groups)
    requires groups != [] && MonthsAscend(groups)
    requires SummariesOfMonths(ms, groups[..|groups| - 1])
    requires |extra| <= 1 && forall x :: x in extra ==> MonthKey(x) == YearMonthKey(groups[|groups| - 1].0)
    ensures SummariesOfMonths(ms + extra, groups)
  {
    var init := groups[..|groups| - 1];
    var r := ms + extra;
    var lastKey := YearMonthKey(groups[|groups| - 1].0);
    forall i | 0 <= i < |r| ensures exists g :: 0 <= g < |groups| && MonthKey(r[i]) == YearMonthKey(groups[g].0) {
      if i < |ms| {
        assert r[i] == ms[i];
        var g :| 0 <= g < |init| && MonthKey(ms[i]) == YearMonthKey(init[g].0);
        assert groups[g] == init[g];
        assert 0 <= g < |groups| && MonthKey(r[i]) == YearMonthKey(groups[g].0);
      } else {
        assert r[i] == extra[i - |ms|];
        assert r[i] in extra;
        assert MonthKey(r[i]) == YearMonthKey(groups[|groups| - 1].0);
      }
    }
    forall i, j | 0 <= i < j < |r| ensures MonthKey(r[i]) != MonthKey(r[j]) && LexLe(MonthKey(r[i]), MonthKey(r[j])) {
      if j < |ms| {
        assert r[i] == ms[i] && r[j] == ms[j];
      } else {
        assert i < |ms|;
        assert r[i] == ms[i];
        var g :| 0 <= g < |init| && MonthKey(ms[i]) == YearMonthKey(init[g].0);
        assert groups[g] == init[g];
        assert r[j] == extra[j - |ms|];
        assert r[j] in extra;
        assert MonthKey(r[j]) == lastKey;
        assert YearMonthKey(groups[g].0) != lastKey && LexLe(YearMonthKey(groups[g].0), lastKey);
      }
    }
  }

  /**
   * With the months strictly ascending, the summaries collected strictly ascend by
   * (year, month), at most one per month, each the summary of one of the months.
   */
  lemma {:induction false} RollupAscending(outputs: Outputs, force: bool, now: int, groups: Groups)
    requires MonthsAscend(groups)
    ensures |Rollup(outputs, force, now, groups).1| <= |groups|
    ensures SummariesOfMonths(Rollup(outputs, force, now, groups).1, groups)
  {
    if groups != [] {
      var init, last := groups[..|groups| - 1], groups[|groups| - 1];
      assert MonthsAscend(init) by {
        forall i | 0 <= i < |init| ensures init[i] == groups[i] { }
      }
      RollupAscending(outputs, force, now, init);
      var before := Rollup(outputs, force, now, init);
      MonthStepMonth(before.0, force, now, last.0, last.1);
      SummariesOfMonthsSnoc(before.1, OptionToSeq(MonthStep(before.0, force, now, last.0, last.1).1), groups);
    }
  }

  /**
   * The months reach the dashboard in the order the scan found them: that order is already
   * the dashboard's (year, month) order, so its sort moves nothing.
   */
  lemma DashboardInScanOrder(root: seq<Entry>, outputs: Outputs, force: bool, now: int, generatedAt: string)
    ensures var r := RunOf(root, outputs, force, now, generatedAt);
      r.dashboard.Some? ==> r.dashboard.value.months == Rollup(outputs, force, now, Scan(root)).1
  {
    var groups := Scan(root);
    if groups != [] {
      ScanMonthsAscend(root);
      assert MonthsAscend(groups);
      RollupAscending(outputs, force, now, groups);
      var ms := Rollup(outputs, force, now, groups).1;
      DashboardKeepsOrderedMonths(ms, generatedAt);
    }
  }

  /** The summaries of the months, each regenerated from its files. */
  function ProcessedSummaries(groups: Groups): (ms: seq<MonthSummary>)
    ensures |ms| == |groups|
  {
    if groups == [] then []
    else ProcessedSummaries(groups[..|groups| - 1]) + [ProcessedMonth(groups[|groups| - 1].0, groups[|groups| - 1].1).summary]
  }

  /** With `--force` every month is regenerated, in order, whatever the outputs held. */
  lemma {:induction false} ForcedRollup(outputs: Outputs, now: int, groups: Groups)
    ensures Rollup(outputs, true, now, groups).1 == ProcessedSummaries(groups)
  {
    if groups != [] {
      ForcedRollup(outputs, now, groups[..|groups| - 1]);
    }
  }

  // ---------------------------------------------------------------- a later run

  /** Whether a month is out of date depends only on its own two output files. */
  lemma ShouldProcessLocal(a: Outputs, b: Outputs, ym: YearMonth, files: seq<DailyFile>)
    requires MatrixFileName(ym) in a <==> MatrixFileName(ym) in b
    requires SummaryFileName(ym) in a <==> SummaryFileName(ym) in b
    requires MatrixFileName(ym) in a ==> a[MatrixFileName(ym)] == b[MatrixFileName(ym)]
    requires SummaryFileName(ym) in a ==> a[SummaryFileName(ym)] == b[SummaryFileName(ym)]
    ensures ShouldProcessMonth(a, ym, files) == ShouldProcessMonth(b, ym, files)
  {
  }

  /** The output file names of two different months of this century differ. */
  lemma OwnNames(a: YearMonth, b: YearMonth)
    requires 2000 <= a.year <= 2099 && 2000 <= b.year <= 2099 && a != b
    ensures MatrixFileName(a) != MatrixFileName(b) && SummaryFileName(a) != SummaryFileName(b)
    ensures MatrixFileName(a) != SummaryFileName(b) && SummaryFileName(a) != MatrixFileName(b)
  {
    if MatrixFileName(a) == MatrixFileName(b) { MatrixNameInjective(a, b); }
    if SummaryFileName(a) == SummaryFileName(b) { SummaryNameInjective(a, b); }
    OutputNamesDiffer(a, b);
    OutputNamesDiffer(b, a);
  }

  /** A month's step leaves the output files of every other month of this century alone. */
  lemma MonthStepLocal(outputs: Outputs, force: bool, now: int, ym: YearMonth, files: seq<DailyFile>, other: YearMonth)
    requires 2000 <= ym.year <= 2099 && 2000 <= other.year <= 2099 && ym != other
    ensures var o := MonthStep(outputs, force, now, ym, files).0;
      (MatrixFileName(other) in o <==> MatrixFileName(other) in outputs)
      && (SummaryFileName(other) in o <==> SummaryFileName(other) in outputs)
      && (MatrixFileName(other) in o ==> o[MatrixFileName(other)] == outputs[MatrixFileName(other)])
      && (SummaryFileName(other) in o ==> o[SummaryFileName(other)] == outputs[SummaryFileName(other)])
  {
    OwnNames(ym, other);
    var p := ProcessedMonth(ym, files);
    assert p.summary.summaryFile == SummaryFileName(ym) && p.summary.matrixFile == MatrixFileName(ym);
  }

  /** The months of a scan: distinct, of this century, with no daily file modified after `now`. */
  predicate ScannedMonths(groups: Groups, now: int)
  {
    && (forall i, j :: 0 <= i < j < |groups| ==> groups[i].0 != groups[j].0)
    && (forall i :: 0 <= i < |groups| ==> 2000 <= groups[i].0.year <= 2099)
    && (forall i, k :: 0 <= i < |groups| && 0 <= k < |groups[i].1| ==> groups[i].1[k].mtime <= now)
  }

  /** After the months are rolled up, none of them is out of date any more. */
  lemma {:induction false} RollupLeavesUpToDate(outputs: Outputs, force: bool, now: int, groups: Groups)
    requires ScannedMonths(groups, now)
    ensures var o := Rollup(outputs, force, now, groups).0;
      forall g :: 0 <= g < |groups| ==> !ShouldProcessMonth(o, groups[g].0, groups[g].1)
  {
    if groups != [] {
      var init, last := groups[..|groups| - 1], groups[|groups| - 1];
      assert ScannedMonths(init, now) by {
        forall i, k | 0 <= i < |init| && 0 <= k < |init[i].1| ensures init[i].1[k].mtime <= now {
          assert init[i] == groups[i];
        }
      }
      RollupLeavesUpToDate(outputs, force, now, init);
      assert forall g :: 0 <= g < |init| ==> init[g] == groups[g];
      StepKeepsAllUpToDate(Rollup(outputs, force, now, init).0, force, now, groups);
    }
  }

  /** The step of `RollupLeavesUpToDate`: the newest month's step keeps the earlier months up to date and brings its own. */
  lemma StepKeepsAllUpToDate(before: Outputs, force: bool, now: int, groups: Groups)
    requires groups != [] && ScannedMonths(groups, now)
    requires forall g :: 0 <= g < |groups| - 1 ==> !ShouldProcessMonth(before, groups[g].0, groups[g].1)
    ensures var last := groups[|groups| - 1];
      var o := MonthStep(before, force, now, last.0, last.1).0;
      forall g :: 0 <= g < |groups| ==> !ShouldProcessMonth(o, groups[g].0, groups[g].1)
  {
    var last := groups[|groups| - 1];
    var o := MonthStep(before, force, now, last.0, last.1).0;
    LastStepLeavesUpToDate(before, force, now, groups);
    forall g | 0 <= g < |groups| - 1 ensures !ShouldProcessMonth(o, groups[g].0, groups[g].1) {
      StepKeepsOthersUpToDate(before, force, now, last.0, last.1, groups[g].0, groups[g].1);
    }
  }

  lemma LastStepLeavesUpToDate(before: Outputs, force: bool, now: int, groups: Groups)
    requires groups != [] && ScannedMonths(groups, now)
    ensures var last := groups[|groups| - 1];
      !ShouldProcessMonth(MonthStep(before, force, now, last.0, last.1).0, last.0, last.1)
  {
    var last := groups[|groups| - 1];
    assert forall k :: 0 <= k < |last.1| ==> last.1[k].mtime <= now;
    StepLeavesUpToDate(before, force, now, last.0, last.1);
  }

  /** A month's step leaves another month of this century that was up to date so. */
  lemma StepKeepsOthersUpToDate(outputs: Outputs, force: bool, now: int, ym: YearMonth, files: seq<DailyFile>,
                                other: YearMonth, otherFiles: seq<DailyFile>)
    requires 2000 <= ym.year <= 2099 && 2000 <= other.year <= 2099 && ym != other
    requires !ShouldProcessMonth(outputs, other, otherFiles)
    ensures !ShouldProcessMonth(MonthStep(outputs, force, now, ym, files).0, other, otherFiles)
  {
    MonthStepLocal(outputs, force, now, ym, files, other);
    ShouldProcessLocal(outputs, MonthStep(outputs, force, now, ym, files).0, other, otherFiles);
  }

  /** After its step a month is up to date, when none of its files is newer than the time of writing. */
  lemma StepLeavesUpToDate(outputs: Outputs, force: bool, now: int, ym: YearMonth, files: seq<DailyFile>)
    requires forall k :: 0 <= k < |files| ==> files[k].mtime <= now
    ensures !ShouldProcessMonth(MonthStep(outputs, force, now, ym, files).0, ym, files)
  {
    if force || ShouldProcessMonth(outputs, ym, files) {
      ExportedMonthFresh(outputs, now, ym, files);
    }
  }

  /** The rollup of a run in which every month is read back. */
  function Reloaded(outputs: Outputs, groups: Groups): seq<MonthSummary>
  {
    if groups == [] then []
    else Reloaded(outputs, groups[..|groups| - 1]) + OptionToSeq(LoadSummary(outputs, groups[|groups| - 1].0))
  }

  /** Rolling up months that are all up to date changes no file and reads every month back. */
  lemma {:induction false} UpToDateRollup(outputs: Outputs, now: int, groups: Groups)
    requires forall g :: 0 <= g < |groups| ==> !ShouldProcessMonth(outputs, groups[g].0, groups[g].1)
    ensures Rollup(outputs, false, now, groups) == (outputs, Reloaded(outputs, groups))
  {
    if groups != [] {
      var init := groups[..|groups| - 1];
      assert forall g :: 0 <= g < |init| ==> init[g] == groups[g];
      UpToDateRollup(outputs, now, init);
    }
  }

  /** The scan's months never repeat, lie in this century, and hold only the scanned files. */
  lemma ScanGivesScannedMonths(root: seq<Entry>, now: int)
    requires forall i, k :: 0 <= i < |Scan(root)| && 0 <= k < |Scan(root)[i].1| ==> Scan(root)[i].1[k].mtime <= now
    ensures ScannedMonths(Scan(root), now)
  {
    var groups := Scan(root);
    ScanMonthsAscend(root);
    forall i | 0 <= i < |groups| ensures 2000 <= groups[i].0.year <= 2099 {
      ScanMonth(root, i);
      var f := groups[i].1[0];
      assert Belongs(groups[i].0, f);
    }
  }

  /**
   * A later run over the same daily files, none modified after the first run wrote its
   * files and without `--force`, regenerates nothing: it leaves every file as the first
   * run left it and builds its dashboard from the summaries read back.
   */
  lemma RerunReloads(root: seq<Entry>, outputs: Outputs, force: bool, now: int, generatedAt: string,
                     later: int, laterGeneratedAt: string)
    requires forall i, k :: 0 <= i < |Scan(root)| && 0 <= k < |Scan(root)[i].1| ==> Scan(root)[i].1[k].mtime <= now
    ensures var first := RunOf(root, outputs, force, now, generatedAt);
      var second := RunOf(root, first.outputs, false, later, laterGeneratedAt);
      second.outputs == first.outputs
      && (Scan(root) != [] ==> second.dashboard == Some(DashboardOf(Reloaded(first.outputs, Scan(root)), laterGeneratedAt)))
  {
    var groups := Scan(root);
    if groups != [] {
      ScanGivesScannedMonths(root, now);
      RollupLeavesUpToDate(outputs, force, now, groups);
      var o := Rollup(outputs, force, now, groups).0;
      UpToDateRollup(o, later, groups);
    }
  }

  // ---------------------------------------------------------------- a forced run, then a later one

  /**
   * What a later run reads back from the files of a forced run: each month's days at
   * three-decimal precision, and no summary at all for a month whose files gave no day.
   */
  function ReloadedProcessed(groups: Groups): seq<MonthSummary>
  {
    if groups == [] then []
    else
      var last := groups[|groups| - 1];
      var days := ProcessedMonth(last.0, last.1).summary.days;
      ReloadedProcessed(groups[..|groups| - 1]) + (if days == [] then [] else [SummaryOf(last.0, RoundedAll(days))])
  }

  /** Reading months back depends only on their own summary files. */
  lemma {:induction false} ReloadedLocal(a: Outputs, b: Outputs, groups: Groups)
    requires forall g :: 0 <= g < |groups| ==> (SummaryFileName(groups[g].0) in a <==> SummaryFileName(groups[g].0) in b)
    requires forall g :: 0 <= g < |groups| && SummaryFileName(groups[g].0) in a ==>
      a[SummaryFileName(groups[g].0)] == b[SummaryFileName(groups[g].0)]
    ensures Reloaded(a, groups) == Reloaded(b, groups)
  {
    if groups != [] {
      var init := groups[..|groups| - 1];
      assert forall g :: 0 <= g < |init| ==> init[g] == groups[g];
      ReloadedLocal(a, b, init);
      assert LoadSummary(a, groups[|groups| - 1].0) == LoadSummary(b, groups[|groups| - 1].0);
    }
  }

  /**
   * After a forced rollup of distinct months of this century, reading every month back gives
   * the regenerated summaries at three-decimal precision, with the months without a day left out.
   */
  lemma {:induction false} ForcedRollupReloads(outputs: Outputs, now: int, groups: Groups)
    requires forall i, j :: 0 <= i < j < |groups| ==> groups[i].0 != groups[j].0
    requires forall i :: 0 <= i < |groups| ==> 2000 <= groups[i].0.year <= 2099
    requires forall i, k :: 0 <= i < |groups| && 0 <= k < |groups[i].1| ==> |groups[i].1[k].lines| <= IntMax
    ensures Reloaded(Rollup(outputs, true, now, groups).0, groups) == ReloadedProcessed(groups)
  {
    if groups != [] {
      var init, last := groups[..|groups| - 1], groups[|groups| - 1];
      assert forall g :: 0 <= g < |init| ==> init[g] == groups[g];
      ForcedRollupReloads(outputs, now, init);
      var before := Rollup(outputs, true, now, init).0;
      var after := MonthStep(before, true, now, last.0, last.1).0;
      forall g | 0 <= g < |init|
        ensures SummaryFileName(init[g].0) in after <==> SummaryFileName(init[g].0) in before
        ensures SummaryFileName(init[g].0) in after ==> after[SummaryFileName(init[g].0)] == before[SummaryFileName(init[g].0)]
      {
        MonthStepLocal(before, true, now, last.0, last.1, init[g].0);
      }
      ReloadedLocal(after, before, init);
      assert forall k :: 0 <= k < |last.1| ==> |last.1[k].lines| <= IntMax;
      ProcessedMonthReloads(before, now, last.0, last.1);
    }
  }

  /**
   * A forced run's dashboard holds every month's regenerated summary in scan order, even
   * that of a month whose files gave no day.
   */
  lemma ForcedRunDashboard(root: seq<Entry>, outputs: Outputs, now: int, generatedAt: string)
    ensures var first := RunOf(root, outputs, true, now, generatedAt);
      Scan(root) != [] ==>
        first.dashboard == Some(DashboardOf(ProcessedSummaries(Scan(root)), generatedAt))
        && first.dashboard.value.months == ProcessedSummaries(Scan(root))
  {
    if Scan(root) != [] {
      ForcedRollup(outputs, now, Scan(root));
      DashboardInScanOrder(root, outputs, true, now, generatedAt);
    }
  }

  /**
   * A later run without `--force` after a forced one changes no file, and its dashboard holds
   * the summaries read back, so a month whose files gave no day drops out of it.
   */
  lemma ForcedRunThenRerun(root: seq<Entry>, outputs: Outputs, now: int, generatedAt: string,
                           later: int, laterGeneratedAt: string)
    requires forall i, k :: 0 <= i < |Scan(root)| && 0 <= k < |Scan(root)[i].1| ==> Scan(root)[i].1[k].mtime <= now
    requires forall i, k :: 0 <= i < |Scan(root)| && 0 <= k < |Scan(root)[i].1| ==> |Scan(root)[i].1[k].lines| <= IntMax
    ensures var first := RunOf(root, outputs, true, now, generatedAt);
      var second := RunOf(root, first.outputs, false, later, laterGeneratedAt);
      second.outputs == first.outputs
      && (Scan(root) != [] ==> second.dashboard == Some(DashboardOf(ReloadedProcessed(Scan(root)), laterGeneratedAt)))
  {
    RerunReloads(root, outputs, true, now, generatedAt, later, laterGeneratedAt);
    if Scan(root) != [] {
      ScanGivesScannedMonths(root, now);
      ForcedRollupReloads(outputs, now, Scan(root));
    }
  }
}
