/**
 * `MonthlyAggregator`: decides whether a month's outputs are out of date, folds the daily
 * files of a month into a day map and a month summary, writes the month's two files, and
 * reads a summary file back into a month summary.
 */
module MonthlyAggregator {
  import opened Wrappers
  import opened Text
  import opened Calendar
  import opened Decimal
  import opened Sorting
  import opened LinkedMaps
  import opened Models
  import opened FileTree
  import opened FileNameParser
  import opened DailyCsvParser
  import opened MonthlyExporter

  // ================================================================ shouldProcessMonth

  /** `dailyFiles.filter { it.lastModified() > outputTime }`. */
  function NewerFiles(files: seq<DailyFile>, outputTime: int): (r: seq<DailyFile>)
    ensures |r| <= |files|
  {
    if files == [] then []
    else
      var f := files[|files| - 1];
      NewerFiles(files[..|files| - 1], outputTime) + (if f.mtime > outputTime then [f] else [])
  }

  function Min(a: int, b: int): int { if a <= b then a else b }

  /**
   * `shouldProcessMonth`: a missing matrix or summary file, or a daily file modified after
   * the older of the two.
   */
  function ShouldProcessMonth(outputs: Outputs, ym: YearMonth, dailyFiles: seq<DailyFile>): bool
  {
    var matrixName, summaryName := MatrixFileName(ym), SummaryFileName(ym);
    if matrixName !in outputs || summaryName !in outputs then true
    else
      var outputTime := Min(outputs[matrixName].mtime, outputs[summaryName].mtime);
      NewerFiles(dailyFiles, outputTime) != []
  }

  lemma {:induction false} NewerFilesExist(files: seq<DailyFile>, t: int)
    ensures NewerFiles(files, t) != [] <==> exists i :: 0 <= i < |files| && files[i].mtime > t
  {
    if files != [] {
      var init := files[..|files| - 1];
      NewerFilesExist(init, t);
      if exists i :: 0 <= i < |init| && init[i].mtime > t {
        var i :| 0 <= i < |init| && init[i].mtime > t;
        assert files[i] == init[i];
      }
    }
  }

  /**
   * A month is processed when either output file is missing; with both present, exactly
   * when some daily file is newer than the matrix file or than the summary file.
   */
  lemma ShouldProcessMonthCases(outputs: Outputs, ym: YearMonth, dailyFiles: seq<DailyFile>)
    ensures MatrixFileName(ym) !in outputs || SummaryFileName(ym) !in outputs ==>
      ShouldProcessMonth(outputs, ym, dailyFiles)
    ensures MatrixFileName(ym) in outputs && SummaryFileName(ym) in outputs ==>
      (ShouldProcessMonth(outputs, ym, dailyFiles) <==>
        exists i :: 0 <= i < |dailyFiles| &&
          (dailyFiles[i].mtime > outputs[MatrixFileName(ym)].mtime
           || dailyFiles[i].mtime > outputs[SummaryFileName(ym)].mtime))
  {
    var matrixName, summaryName := MatrixFileName(ym), SummaryFileName(ym);
    if matrixName in outputs && summaryName in outputs {
      NewerFilesExist(dailyFiles, Min(outputs[matrixName].mtime, outputs[summaryName].mtime));
    }
  }

  // ================================================================ processMonth

  datatype MonthProcessingResult = MonthProcessingResult(summary: MonthSummary, dayDataMap: seq<(Date, DayData)>)

  /** What one daily file adds to the month: its date and its day, when the name and the contents parse. */
  function FileDay(f: DailyFile): Option<(Date, DayData)>
  {
    match ParseDate(f.name)
    case None => None
    case Some(date) =>
      match DayOf(f.lines, date)
      case None => None
      case Some(day) => Some((date, day))
  }

  /** `dayDataMap` after the given files, in order: each parsed day is put under its date. */
  function DayMap(files: seq<DailyFile>): seq<(Date, DayData)>
  {
    if files == [] then []
    else
      var m := DayMap(files[..|files| - 1]);
      match FileDay(files[|files| - 1])
      case None => m
      case Some(e) => Put(m, e.0, e.1)
  }

  /** The day of the last file that yields a day for `date`. */
  function LastDayFor(files: seq<DailyFile>, date: Date): Option<DayData>
  {
    if files == [] then None
    else
      var e := FileDay(files[|files| - 1]);
      if e.Some? && e.value.0 == date then Some(e.value.1) else LastDayFor(files[..|files| - 1], date)
  }

  /** The month summary of a month and its day map: the fields `processMonth` fills in. */
  function SummaryOf(ym: YearMonth, days: seq<DaySummary>): MonthSummary
  {
    MonthSummary(ym.year, ym.month, FormatMonthLabel(ym), SummaryFileName(ym), MatrixFileName(ym),
                 days, SumTotals(days))
  }

  /** What `processMonth` returns for a month and its files. */
  function ProcessedMonth(ym: YearMonth, files: seq<DailyFile>): MonthProcessingResult
  {
    var m := DayMap(files);
    MonthProcessingResult(SummaryOf(ym, GetDaySummaries(MonthData(ym, m))), m)
  }

  /**
   * `processMonth`: parses the files in order, putting each parsed day under the date of
   * its file name, then summarizes the month.
   */
  method ProcessMonth(yearMonth: YearMonth, dailyFiles: seq<DailyFile>) returns (r: MonthProcessingResult)
    ensures r == ProcessedMonth(yearMonth, dailyFiles)
    ensures DistinctKeys(r.dayDataMap)
    ensures forall d :: Get(r.dayDataMap, d) == LastDayFor(dailyFiles, d)
  {
    var dayDataMap: seq<(Date, DayData)> := [];
    for i := 0 to |dailyFiles|
      invariant dayDataMap == DayMap(dailyFiles[..i])
    {
      var file := dailyFiles[i];
      assert dailyFiles[..i + 1][..i] == dailyFiles[..i];
      var date := ParseDate(file.name);
      if date.Some? {
        var dayData := Parse(file.lines, date.value);
        if dayData.Some? {
          dayDataMap := Put(dayDataMap, date.value, dayData.value);
        }
      }
    }
    assert dailyFiles[..|dailyFiles|] == dailyFiles;
    var monthData := MonthData(yearMonth, dayDataMap);
    var daySummaries := GetDaySummaries(monthData);
    var totalMonthKwh := SumTotals(daySummaries);
    var summary := MonthSummary(yearMonth.year, yearMonth.month, FormatMonthLabel(yearMonth),
                                SummaryFileName(yearMonth), MatrixFileName(yearMonth), daySummaries, totalMonthKwh);
    r := MonthProcessingResult(summary, dayDataMap);
    DayMapDistinct(dailyFiles);
    forall d ensures Get(r.dayDataMap, d) == LastDayFor(dailyFiles, d) {
      DayMapGet(dailyFiles, d);
    }
  }

  // ---------------------------------------------------------------- the day map

  /** Every date appears once in the day map. */
  lemma {:induction false} DayMapDistinct(files: seq<DailyFile>)
    ensures DistinctKeys(DayMap(files))
  {
    if files != [] {
      var init := files[..|files| - 1];
      DayMapDistinct(init);
      var e := FileDay(files[|files| - 1]);
      if e.Some? { PutDistinct(DayMap(init), e.value.0, e.value.1); }
    }
  }

  /**
   * Reading a date from the day map gives the day of the last file that yields one for
   * that date: a later file of the same date replaces an earlier one, and files whose name
   * or contents do not parse leave the map alone.
   */
  lemma {:induction false} DayMapGet(files: seq<DailyFile>, d: Date)
    ensures Get(DayMap(files), d) == LastDayFor(files, d)
  {
    if files != [] {
      var init := files[..|files| - 1];
      DayMapGet(init, d);
      var e := FileDay(files[|files| - 1]);
      if e.Some? { GetPut(DayMap(init), e.value.0, e.value.1, d); }
    }
  }

  /** Every day sits under its own date. */
  lemma {:induction false} DayMapDates(files: seq<DailyFile>)
    ensures forall i :: 0 <= i < |DayMap(files)| ==> DayMap(files)[i].1.date == DayMap(files)[i].0
  {
    if files != [] {
      var init := files[..|files| - 1];
      DayMapDates(init);
      var e := FileDay(files[|files| - 1]);
      if e.Some? {
        var m := DayMap(init);
        assert e.value.1.date == e.value.0;
        var i := IndexOfKey(m, e.value.0);
        assert Put(m, e.value.0, e.value.1) == if i < 0 then m + [e.value] else m[i := e.value];
      }
    }
  }

  lemma {:induction false} SumTotalsNonNegative(days: seq<DaySummary>)
    requires forall i :: 0 <= i < |days| ==> days[i].totalKwh >= 0.0
    ensures SumTotals(days) >= 0.0
  {
    if days != [] { SumTotalsNonNegative(days[..|days| - 1]); }
  }

  /**
   * The summary of a processed month has one day per entry of the day map, exactly the
   * map's dates, in strictly increasing date order; its total is the sum of the day totals
   * and never negative; its names and label are those of the month.
   */
  lemma ProcessedMonthSummary(ym: YearMonth, files: seq<DailyFile>)
    ensures var r := ProcessedMonth(ym, files);
      var days := r.summary.days;
      |days| == |r.dayDataMap|
      && (forall d :: (exists i :: 0 <= i < |days| && days[i].date == d) <==> HasKey(r.dayDataMap, d))
      && (forall i, j :: 0 <= i < j < |days| ==> days[i].date != days[j].date && LexLe(DateKey(days[i].date), DateKey(days[j].date)))
      && r.summary.totalMonthKwh == SumTotals(days) && r.summary.totalMonthKwh >= 0.0
      && r.summary.summaryFile == SummaryFileName(ym) && r.summary.matrixFile == MatrixFileName(ym)
      && r.summary.monthLabel == FormatMonthLabel(ym)
  {
    var m := DayMap(files);
    var md := MonthData(ym, m);
    var days := GetDaySummaries(md);
    DayMapDistinct(files);
    DayMapDates(files);
    DaySummariesStrictlyOrdered(md);
    forall d ensures (exists i :: 0 <= i < |days| && days[i].date == d) <==> HasKey(m, d) {
      DaySummaryDates(md, d);
    }
    forall i | 0 <= i < |days| ensures days[i].totalKwh >= 0.0 {
      DaySummariesFromDays(md, i);
    }
    SumTotalsNonNegative(days);
  }

  // ================================================================ exportMonth

  /** The outputs after `exportMonth`: the month's summary and matrix files, written at `now`. */
  function ExportedOutputs(outputs: Outputs, now: int, summary: MonthSummary, dayDataMap: seq<(Date, DayData)>): Outputs
  {
    outputs[summary.summaryFile := StoredFile(now, SummaryLines(summary.days))]
           [summary.matrixFile := StoredFile(now, MatrixLines(YearMonth(summary.year, summary.month), dayDataMap))]
  }

  /** `exportMonth`: writes the summary file of the month's days, then the matrix file of its day map. */
  method ExportMonth(outputs: Outputs, now: int, monthSummary: MonthSummary, dayDataMap: seq<(Date, DayData)>)
    returns (r: Outputs)
    ensures r == ExportedOutputs(outputs, now, monthSummary, dayDataMap)
  {
    var yearMonth := YearMonth(monthSummary.year, monthSummary.month);
    var summaryLines := ExportSummary(monthSummary.days);
    r := outputs[monthSummary.summaryFile := StoredFile(now, summaryLines)];
    var matrixLines := ExportMatrixWithTimeData(yearMonth, dayDataMap);
    r := r[monthSummary.matrixFile := StoredFile(now, matrixLines)];
  }

  /**
   * After a processed month is exported, both of its files hold what the exporter writes
   * for it, every other file is as before, and the month counts as up to date while no
   * daily file is newer than the time of writing.
   */
  lemma ExportedMonthFresh(outputs: Outputs, now: int, ym: YearMonth, files: seq<DailyFile>)
    ensures var p := ProcessedMonth(ym, files);
      var r := ExportedOutputs(outputs, now, p.summary, p.dayDataMap);
      SummaryFileName(ym) in r && r[SummaryFileName(ym)] == StoredFile(now, SummaryLines(p.summary.days))
      && MatrixFileName(ym) in r && r[MatrixFileName(ym)] == StoredFile(now, MatrixLines(ym, p.dayDataMap))
      && (forall n :: n != SummaryFileName(ym) && n != MatrixFileName(ym) ==>
            (n in r <==> n in outputs) && (n in outputs ==> r[n] == outputs[n]))
      && ((forall i :: 0 <= i < |files| ==> files[i].mtime <= now) ==> !ShouldProcessMonth(r, ym, files))
  {
    OutputNamesDiffer(ym, ym);
    var p := ProcessedMonth(ym, files);
    var r := ExportedOutputs(outputs, now, p.summary, p.dayDataMap);
    assert YearMonth(p.summary.year, p.summary.month) == ym;
    ShouldProcessMonthCases(r, ym, files);
  }

  // ================================================================ loadExistingSummary

  /** What one data line of a summary file gives: a day, or nothing for a blank or malformed line. */
  function SummaryLineRecord(line: string): Option<DaySummary>
  {
    var t := Trim(line);
    if t == [] then None
    else
      var parts := Split(t, ';');
      if |parts| < 5 then None
      else
        match ParseIsoDate(parts[0])
        case None => None
        case Some(date) =>
          match ParseDecimal(parts[1])
          case None => None
          case Some(total) =>
            match ParseInt(parts[4])
            case None => None
            case Some(count) => Some(DaySummary(date, total, ParseDecimal(parts[2]), ParseDecimal(parts[3]), count))
  }

  /** The days the data lines give, in line order. */
  function ParsedSummaries(dataLines: seq<string>): (days: seq<DaySummary>)
    ensures |days| <= |dataLines|
  {
    if dataLines == [] then []
    else ParsedSummaries(dataLines[..|dataLines| - 1]) + OptionToSeq(SummaryLineRecord(dataLines[|dataLines| - 1]))
  }

  /** The month summary a summary file's lines give: none without a data line or without a parsed day. */
  function LoadFromLines(ym: YearMonth, lines: seq<string>): Option<MonthSummary>
  {
    if |lines| < 2 then None
    else
      var days := ParsedSummaries(lines[1..]);
      if days == [] then None else Some(SummaryOf(ym, days))
  }

  function LoadSummary(outputs: Outputs, ym: YearMonth): Option<MonthSummary>
  {
    var name := SummaryFileName(ym);
    if name !in outputs then None else LoadFromLines(ym, outputs[name].lines)
  }

  /** The body of `loadExistingSummary`'s loop: one data line, trimmed, split at ';' and parsed field by field. */
  method ParseSummaryLine(rawLine: string) returns (entry: Option<DaySummary>)
    ensures entry == SummaryLineRecord(rawLine)
  {
    entry := None;
    var line := Trim(rawLine);
    if line == [] {
      return;
    }
    var parts := Split(line, ';');
    if |parts| >= 5 {
      var date := ParseIsoDate(parts[0]);
      var totalKwh := ParseDecimal(parts[1]);
      var firstReading := ParseDecimal(parts[2]);
      var lastReading := ParseDecimal(parts[3]);
      var numMeasurements := ParseInt(parts[4]);
      if date.Some? && totalKwh.Some? && numMeasurements.Some? {
        entry := Some(DaySummary(date.value, totalKwh.value, firstReading, lastReading, numMeasurements.value));
      }
    }
  }

  /**
   * `loadExistingSummary`: reads the month's summary file, skips its header, keeps every
   * line that parses and recomputes the month total.
   */
  method LoadExistingSummary(outputs: Outputs, yearMonth: YearMonth) returns (r: Option<MonthSummary>)
    ensures r == LoadSummary(outputs, yearMonth)
    ensures SummaryFileName(yearMonth) !in outputs || |outputs[SummaryFileName(yearMonth)].lines| < 2 ==> r.None?
    ensures r.Some? ==>
      (r.value.days != [] && |r.value.days| < |outputs[SummaryFileName(yearMonth)].lines|
       && r.value.totalMonthKwh == SumTotals(r.value.days))
  {
    var name := SummaryFileName(yearMonth);
    if name !in outputs {
      return None;
    }
    var lines := outputs[name].lines;
    if |lines| < 2 {
      return None;
    }
    var daySummaries: seq<DaySummary> := [];
    for i := 1 to |lines|
      invariant daySummaries == ParsedSummaries(lines[1..i])
    {
      var entry := ParseSummaryLine(lines[i]);
      SliceSnoc(lines, 1, i);
      ParsedSummariesSnoc(lines[1..i], lines[i]);
      daySummaries := daySummaries + OptionToSeq(entry);
    }
    assert lines[1..|lines|] == lines[1..];
    if daySummaries == [] {
      return None;
    }
    r := Some(SummaryOf(yearMonth, daySummaries));
  }

  // ---------------------------------------------------------------- reading back what was written

  /** A reading as it reads back after `%.3f`. */
  function RoundReading(v: Option<real>): Option<real>
  {
    match v
    case None => None
    case Some(x) => Some(Round3(x))
  }

  /** A day summary as it reads back: the three numbers at three-decimal precision, the rest unchanged. */
  function RoundedSummary(s: DaySummary): DaySummary
  {
    DaySummary(s.date, Round3(s.totalKwh), RoundReading(s.firstReading), RoundReading(s.lastReading), s.numMeasurements)
  }

  function RoundedAll(days: seq<DaySummary>): (r: seq<DaySummary>)
    ensures |r| == |days|
  {
    if days == [] then [] else RoundedAll(days[..|days| - 1]) + [RoundedSummary(days[|days| - 1])]
  }

  /** The days a summary file can carry: a real date of a four-digit year and an `Int` count. */
  predicate Reloadable(s: DaySummary)
  {
    ValidDate(s.date) && 0 <= s.date.year <= 9999 && InIntRange(s.numMeasurements)
  }

  lemma ReadingRoundTrip(v: Option<real>)
    ensures ParseDecimal(FormatDecimal(v)) == RoundReading(v)
  {
    if v.Some? { FormatDecimalRoundTrip(v.value); }
  }

  /** A written row starts with the date's first digit and ends with the count's last digit. */
  lemma SummaryRowTrimmed(s: DaySummary)
    requires Reloadable(s)
    ensures Trim(SummaryRow(s)) == SummaryRow(s) && SummaryRow(s) != []
  {
    var fields := SummaryFields(s);
    IsoDateStartsWithDigit(s.date);
    IntToStringEndsWithDigit(s.numMeasurements);
    JoinFirst(fields, ';');
    JoinLast(fields, ';');
    TrimNoop(SummaryRow(s));
  }

  /** Each written row reads back as its day, rounded to three decimals. */
  lemma SummaryRowReads(s: DaySummary)
    requires Reloadable(s)
    ensures SummaryLineRecord(SummaryRow(s)) == Some(RoundedSummary(s))
  {
    SummaryRowTrimmed(s);
    SummaryRowFields(s);
    IsoDateRoundTrip(s.date);
    FormatDecimalRoundTrip(s.totalKwh);
    ReadingRoundTrip(s.firstReading);
    ReadingRoundTrip(s.lastReading);
    ParseIntRoundTrip(s.numMeasurements);
  }

  lemma ParsedSummariesSnoc(dataLines: seq<string>, line: string)
    ensures ParsedSummaries(dataLines + [line]) == ParsedSummaries(dataLines) + OptionToSeq(SummaryLineRecord(line))
  {
    assert (dataLines + [line])[..|dataLines|] == dataLines;
  }

  lemma {:induction false} RowsReadBack(days: seq<DaySummary>)
    requires forall i :: 0 <= i < |days| ==> Reloadable(days[i])
    ensures ParsedSummaries(SummaryRows(days)) == RoundedAll(days)
  {
    if days != [] {
      var init, last := days[..|days| - 1], days[|days| - 1];
      RowsReadBack(init);
      ParsedSummariesSnoc(SummaryRows(init), SummaryRow(last));
      SummaryRowReads(last);
    }
  }

  /**
   * Reading back a summary file the exporter wrote gives the day summaries in date order,
   * each number at three-decimal precision, and the total recomputed from them. A file
   * written for no days holds only its header and never reads back.
   */
  lemma LoadExportedSummary(ym: YearMonth, daySummaries: seq<DaySummary>)
    requires forall i :: 0 <= i < |daySummaries| ==> Reloadable(daySummaries[i])
    ensures LoadFromLines(ym, SummaryLines(daySummaries)) ==
      if daySummaries == [] then None
      else Some(SummaryOf(ym, RoundedAll(SortBy(daySummaries, SummaryKey))))
  {
    var sorted := SortBy(daySummaries, SummaryKey);
    forall i | 0 <= i < |sorted| ensures Reloadable(sorted[i]) {
      InSorted(daySummaries, SummaryKey, sorted[i]);
    }
    RowsReadBack(sorted);
    var lines := SummaryLines(daySummaries);
    assert lines[1..] == SummaryRows(sorted);
  }

  /** Every entry of the day map is what one of the files yields. */
  lemma {:induction false} DayMapFromFiles(files: seq<DailyFile>, k: int)
    requires 0 <= k < |DayMap(files)|
    ensures exists n :: 0 <= n < |files| && FileDay(files[n]) == Some(DayMap(files)[k])
  {
    var init, last := files[..|files| - 1], files[|files| - 1];
    var m := DayMap(init);
    var e := FileDay(last);
    if e.Some? && DayMap(files)[k] == e.value {
      assert FileDay(files[|files| - 1]) == Some(DayMap(files)[k]);
    } else {
      if e.Some? {
        var i := IndexOfKey(m, e.value.0);
        assert DayMap(files) == if i < 0 then m + [e.value] else m[i := e.value];
        assert k < |m| && DayMap(files)[k] == m[k];
      }
      DayMapFromFiles(init, k);
      var n :| 0 <= n < |init| && FileDay(init[n]) == Some(m[k]);
      assert files[n] == init[n];
    }
  }

  lemma MapDayReloadable(files: seq<DailyFile>, k: int)
    requires forall n :: 0 <= n < |files| ==> |files[n].lines| <= IntMax
    requires 0 <= k < |DayMap(files)|
    ensures Reloadable(Summarize(DayMap(files)[k].1))
  {
    var e := DayMap(files)[k];
    DayMapFromFiles(files, k);
    var n :| 0 <= n < |files| && FileDay(files[n]) == Some(e);
    AtMostOneRecordPerLine(files[n].lines);
    CountIsValidValues(e.1.records);
  }

  /**
   * The days of a processed month can be written and read back: their dates come from
   * file names and are real dates of this century, and no day counts more readings than
   * its file has lines.
   */
  lemma ProcessedDaysReloadable(ym: YearMonth, files: seq<DailyFile>)
    requires forall n :: 0 <= n < |files| ==> |files[n].lines| <= IntMax
    ensures var days := ProcessedMonth(ym, files).summary.days;
      forall i :: 0 <= i < |days| ==> Reloadable(days[i])
  {
    var m := DayMap(files);
    var md := MonthData(ym, m);
    var days := GetDaySummaries(md);
    forall i | 0 <= i < |days| ensures Reloadable(days[i]) {
      DaySummariesFromDays(md, i);
      var k :| 0 <= k < |m| && days[i] == Summarize(m[k].1);
      MapDayReloadable(files, k);
    }
  }

  /**
   * Reading back the summary file of a freshly exported month gives the month's days at
   * three-decimal precision, or nothing when the month had no day to write.
   */
  lemma ProcessedMonthReloads(outputs: Outputs, now: int, ym: YearMonth, files: seq<DailyFile>)
    requires forall n :: 0 <= n < |files| ==> |files[n].lines| <= IntMax
    ensures var p := ProcessedMonth(ym, files);
      LoadSummary(ExportedOutputs(outputs, now, p.summary, p.dayDataMap), ym) ==
        if p.summary.days == [] then None else Some(SummaryOf(ym, RoundedAll(p.summary.days)))
  {
    var p := ProcessedMonth(ym, files);
    var days := p.summary.days;
    ExportedMonthFresh(outputs, now, ym, files);
    ProcessedDaysReloadable(ym, files);
    SortSorted(days, SummaryKey);
    LoadExportedSummary(ym, days);
  }

  /** A summary line that gives nothing can be removed without changing what the other lines give. */
  lemma {:induction false} MalformedLineSkipped(before: seq<string>, line: string, after: seq<string>)
    requires SummaryLineRecord(line).None?
    ensures ParsedSummaries(before + [line] + after) == ParsedSummaries(before + after)
    decreases |after|
  {
    if after == [] {
      assert before + [line] + after == before + [line];
      assert before + after == before;
      ParsedSummariesSnoc(before, line);
    } else {
      var init, last := after[..|after| - 1], after[|after| - 1];
      var long, short := before + [line] + init, before + init;
      assert before + [line] + after == long + [last];
      assert before + after == short + [last];
      MalformedLineSkipped(before, line, init);
      ParsedSummariesSnoc(long, last);
      ParsedSummariesSnoc(short, last);
    }
  }
}
