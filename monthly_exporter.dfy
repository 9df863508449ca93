/**
 * `MonthlyExporter`: the two per-month output files, as lists of lines.
 *
 * The summary file is a `;`-separated table with one row per day, ordered by date. The
 * matrix file is SunnyBeam's tab-separated layout: a header of the month's dates, then one
 * row per ten-minute slot holding, for every day of the month, the reading at that time.
 */
module MonthlyExporter {
  import opened Wrappers
  import opened Text
  import opened Calendar
  import opened Decimal
  import opened Sorting
  import opened LinkedMaps
  import opened Models

  // ================================================================ formatDecimal

  /** `formatDecimal`: an absent value is the empty field, a number is printed with `%.3f`. */
  function FormatDecimal(v: Option<real>): (s: string)
    ensures v.None? <==> s == []
  {
    match v
    case None => ""
    case Some(x) => Format3(x)
  }

  /** A printed value holds no field separator of either output file. */
  lemma FormatDecimalHasNo(v: Option<real>, c: char)
    requires !IsDigit(c) && c != '.' && c != '-'
    ensures c !in FormatDecimal(v)
  {
    if v.Some? { Format3HasNo(v.value, c); }
  }

  /** A printed number reads back as the number rounded half-up to three decimals. */
  lemma FormatDecimalRoundTrip(x: real)
    ensures ParseDecimal(FormatDecimal(Some(x))) == Some(Round3(x))
  {
    Format3RoundTrip(x);
  }

  // ================================================================ the summary file

  const SummaryHeader: string := "date;total_kwh;first_reading;last_reading;num_measurements"

  /** The five fields of a day's row. */
  function SummaryFields(s: DaySummary): seq<string>
  {
    [FormatIsoDate(s.date), FormatDecimal(Some(s.totalKwh)), FormatDecimal(s.firstReading),
     FormatDecimal(s.lastReading), IntToString(s.numMeasurements)]
  }

  function SummaryRow(s: DaySummary): string
  {
    Join(SummaryFields(s), ';')
  }

  /** One row per summary, in the given order. */
  function SummaryRows(summaries: seq<DaySummary>): (rows: seq<string>)
    ensures |rows| == |summaries|
  {
    if summaries == [] then []
    else SummaryRows(summaries[..|summaries| - 1]) + [SummaryRow(summaries[|summaries| - 1])]
  }

  /** The lines of the summary file: the header, then one row per summary in date order. */
  function SummaryLines(daySummaries: seq<DaySummary>): (lines: seq<string>)
    ensures |lines| == 1 + |daySummaries|
  {
    [SummaryHeader] + SummaryRows(SortBy(daySummaries, SummaryKey))
  }

  /** `exportSummary`: writes the header, then the rows of the summaries sorted by date. */
  method ExportSummary(daySummaries: seq<DaySummary>) returns (lines: seq<string>)
    ensures lines == SummaryLines(daySummaries)
    ensures |lines| == 1 + |daySummaries| && lines[0] == SummaryHeader
  {
    var sorted := SortBy(daySummaries, SummaryKey);
    lines := [SummaryHeader];
    for i := 0 to |sorted|
      invariant lines == [SummaryHeader] + SummaryRows(sorted[..i])
    {
      var row := SummaryRow(sorted[i]);
      SummaryRowsSnoc(sorted, i);
      AppendAssoc([SummaryHeader], SummaryRows(sorted[..i]), [row]);
      lines := lines + [row];
    }
    assert sorted[..|sorted|] == sorted;
  }

  lemma SummaryRowsSnoc(summaries: seq<DaySummary>, i: int)
    requires 0 <= i < |summaries|
    ensures SummaryRows(summaries[..i + 1]) == SummaryRows(summaries[..i]) + [SummaryRow(summaries[i])]
  {
    assert summaries[..i + 1][..i] == summaries[..i];
  }

  /** Row `i` of the rows is the `i`-th summary's. */
  lemma {:induction false} SummaryRowsAt(summaries: seq<DaySummary>, i: int)
    requires 0 <= i < |summaries|
    ensures SummaryRows(summaries)[i] == SummaryRow(summaries[i])
  {
    if i < |summaries| - 1 {
      var init := summaries[..|summaries| - 1];
      SummaryRowsAt(init, i);
      assert init[i] == summaries[i];
    }
  }

  /** A row splits back into its five fields: no field holds a ';'. */
  lemma SummaryRowFields(s: DaySummary)
    ensures Split(SummaryRow(s), ';') == SummaryFields(s)
  {
    var fields := SummaryFields(s);
    IsoDateHasNoSeparator(s.date, ';');
    IntToStringHasNo(s.numMeasurements, ';');
    assert NoSeparator(fields, ';') by {
      forall j | 0 <= j < 5 ensures ';' !in fields[j] {
        if j == 0 { assert fields[0] == FormatIsoDate(s.date); }
        else if j == 1 { FormatDecimalHasNo(Some(s.totalKwh), ';'); }
        else if j == 2 { FormatDecimalHasNo(s.firstReading, ';'); }
        else if j == 3 { FormatDecimalHasNo(s.lastReading, ';'); }
        else { assert fields[4] == IntToString(s.numMeasurements); }
      }
    }
    SplitJoin(fields, ';');
  }

  /** Row `i + 1` is the `i`-th summary in date order, and the rows' dates ascend. */
  lemma SummaryLinesOrder(daySummaries: seq<DaySummary>)
    ensures var lines, sorted := SummaryLines(daySummaries), SortBy(daySummaries, SummaryKey);
      |lines| == 1 + |daySummaries| && lines[0] == SummaryHeader
      && (forall i :: 0 <= i < |sorted| ==> lines[i + 1] == SummaryRow(sorted[i]))
      && (forall i, j :: 0 <= i < j < |sorted| ==> LexLe(DateKey(sorted[i].date), DateKey(sorted[j].date)))
      && multiset(sorted) == multiset(daySummaries)
  {
    HeaderAndRows(SortBy(daySummaries, SummaryKey));
  }

  lemma HeaderAndRows(summaries: seq<DaySummary>)
    ensures forall i :: 0 <= i < |summaries| ==> ([SummaryHeader] + SummaryRows(summaries))[i + 1] == SummaryRow(summaries[i])
  {
    forall i | 0 <= i < |summaries| ensures ([SummaryHeader] + SummaryRows(summaries))[i + 1] == SummaryRow(summaries[i]) {
      SummaryRowsAt(summaries, i);
    }
  }

  // ================================================================ the matrix file

  /** `dataMatrix`: what was last stored for a (date, time) pair; the stored value may be absent. */
  type Matrix = map<(Date, Time), Option<real>>

  /** `dayData.records.forEach { dataMatrix[date to it.timestamp.toLocalTime()] = it.value }`. */
  function FillDay(m: Matrix, date: Date, records: seq<MeasurementRecord>): Matrix
  {
    if records == [] then m
    else
      var r := records[|records| - 1];
      FillDay(m, date, records[..|records| - 1])[(date, r.timestamp.time) := r.value]
  }

  /** The whole fill, entry by entry of the day map. */
  function FillAll(days: seq<(Date, DayData)>): Matrix
  {
    if days == [] then map[]
    else
      var e := days[|days| - 1];
      FillDay(FillAll(days[..|days| - 1]), e.0, e.1.records)
  }

  /** `dataMatrix[date to time]`: `null` for a missing key and for a stored `null`. */
  function CellValue(m: Matrix, date: Date, t: Time): Option<real>
  {
    if (date, t) in m then m[(date, t)] else None
  }

  /** The days 1..N of the month. */
  function MonthDates(ym: YearMonth): (dates: seq<Date>)
    ensures |dates| == DaysIn(ym)
    ensures forall j :: 0 <= j < |dates| ==> dates[j] == AtDay(ym, j + 1)
  {
    seq(DaysIn(ym), j requires 0 <= j < DaysIn(ym) => AtDay(ym, j + 1))
  }

  /** The dates of the month's columns are exactly the real dates of that month. */
  lemma MonthDatesSpec(ym: YearMonth, d: Date)
    ensures d in MonthDates(ym) <==> ValidDate(d) && YearMonthOf(d) == ym
  {
    var dates := MonthDates(ym);
    if ValidDate(d) && YearMonthOf(d) == ym {
      assert dates[d.day - 1] == d;
    }
  }

  /** The columns run in strictly increasing date order. */
  lemma MonthDatesAscend(ym: YearMonth)
    ensures var dates := MonthDates(ym);
      forall i, j :: 0 <= i < j < |dates| ==> DateKey(dates[i]) != DateKey(dates[j]) && LexLe(DateKey(dates[i]), DateKey(dates[j]))
  {
    var dates := MonthDates(ym);
    forall i, j | 0 <= i < j < |dates| ensures DateKey(dates[i]) != DateKey(dates[j]) && LexLe(DateKey(dates[i]), DateKey(dates[j])) {
      var a, b := DateKey(dates[i]), DateKey(dates[j]);
      assert a[0] == b[0] && a[1..][0] == b[1..][0];
      assert a[1..][1..][0] < b[1..][1..][0];
    }
  }

  /** "Uhrzeit", then the dates as dd.MM.yyyy. */
  function HeaderFields(dates: seq<Date>): (r: seq<string>)
    ensures |r| == 1 + |dates| && r[0] == "Uhrzeit"
    ensures forall j :: 1 <= j <= |dates| ==> r[j] == FormatDotDate(dates[j - 1])
  {
    ["Uhrzeit"] + seq(|dates|, j requires 0 <= j < |dates| => FormatDotDate(dates[j]))
  }

  /** Each date's cell at time `t`. */
  function RowCells(m: Matrix, dates: seq<Date>, t: Time): (r: seq<string>)
    ensures |r| == |dates|
  {
    if dates == [] then []
    else RowCells(m, dates[..|dates| - 1], t) + [FormatDecimal(CellValue(m, dates[|dates| - 1], t))]
  }

  /** Cell `j` is date `j`'s value at `t`. */
  lemma {:induction false} RowCellsAt(m: Matrix, dates: seq<Date>, t: Time, j: int)
    requires 0 <= j < |dates|
    ensures RowCells(m, dates, t)[j] == FormatDecimal(CellValue(m, dates[j], t))
  {
    if j < |dates| - 1 {
      var init := dates[..|dates| - 1];
      RowCellsAt(m, init, t, j);
      assert init[j] == dates[j];
    }
  }

  /** The time as HH:mm, then each date's cell at that time. */
  function RowFields(m: Matrix, dates: seq<Date>, t: Time): seq<string>
  {
    [FormatTime(t)] + RowCells(m, dates, t)
  }

  function HeaderLine(dates: seq<Date>): string
  {
    Join(HeaderFields(dates), '\t')
  }

  function RowLine(m: Matrix, dates: seq<Date>, t: Time): string
  {
    Join(RowFields(m, dates, t), '\t')
  }

  /** The first `n` slots of the day. */
  function SlotsUpTo(n: int): (ts: seq<Time>)
    requires 0 <= n <= SlotsPerDay
    ensures |ts| == n
  {
    if n == 0 then [] else SlotsUpTo(n - 1) + [SlotTime(n - 1)]
  }

  /** `timeSlots`: 00:00, 00:10, ..., 23:50. */
  function TimeSlots(): (ts: seq<Time>)
    ensures |ts| == SlotsPerDay
  {
    SlotsUpTo(SlotsPerDay)
  }

  /** One row per time, in order. */
  function RowLines(m: Matrix, dates: seq<Date>, ts: seq<Time>): (rows: seq<string>)
    ensures |rows| == |ts|
  {
    if ts == [] then [] else RowLines(m, dates, ts[..|ts| - 1]) + [RowLine(m, dates, ts[|ts| - 1])]
  }

  /** The lines of the matrix file: the header, then one row per slot of the day. */
  function MatrixLines(ym: YearMonth, days: seq<(Date, DayData)>): (lines: seq<string>)
    ensures |lines| == 1 + SlotsPerDay
  {
    [HeaderLine(MonthDates(ym))] + RowLines(FillAll(days), MonthDates(ym), TimeSlots())
  }

  /** `(0 until 144).map { ... }`. */
  method BuildTimeSlots() returns (timeSlots: seq<Time>)
    ensures timeSlots == TimeSlots()
  {
    timeSlots := [];
    for index := 0 to SlotsPerDay
      invariant timeSlots == SlotsUpTo(index)
    {
      var hour := index / 6;
      var minute := (index % 6) * 10;
      timeSlots := timeSlots + [Time(hour, minute)];
    }
  }

  /** The nested loops filling `dataMatrix`. */
  method BuildDataMatrix(dayDataMap: seq<(Date, DayData)>) returns (m: Matrix)
    ensures m == FillAll(dayDataMap)
  {
    m := map[];
    for k := 0 to |dayDataMap|
      invariant m == FillAll(dayDataMap[..k])
    {
      var (date, dayData) := dayDataMap[k];
      assert dayDataMap[..k + 1][..k] == dayDataMap[..k];
      ghost var before := m;
      for j := 0 to |dayData.records|
        invariant m == FillDay(before, date, dayData.records[..j])
      {
        var record := dayData.records[j];
        assert dayData.records[..j + 1][..j] == dayData.records[..j];
        m := m[(date, record.timestamp.time) := record.value];
      }
      assert dayData.records[..|dayData.records|] == dayData.records;
    }
    assert dayDataMap[..|dayDataMap|] == dayDataMap;
  }

  /** `buildString`: a first field followed by tab-prefixed fields. */
  method BuildLine(fields: seq<string>) returns (line: string)
    requires |fields| >= 1
    ensures line == Join(fields, '\t')
  {
    line := fields[0];
    assert fields[..1] == [fields[0]];
    for j := 1 to |fields|
      invariant line == Join(fields[..j], '\t')
    {
      JoinSnoc(fields[..j], fields[j], '\t');
      assert fields[..j + 1] == fields[..j] + [fields[j]];
      line := line + "\t" + fields[j];
    }
    assert fields[..|fields|] == fields;
  }

  /**
   * `exportMatrixWithTimeData`: fills the (date, time) map from every record of every day,
   * then writes the header of the month's dates and one row per ten-minute slot.
   */
  method ExportMatrixWithTimeData(yearMonth: YearMonth, dayDataMap: seq<(Date, DayData)>)
    returns (lines: seq<string>)
    ensures lines == MatrixLines(yearMonth, dayDataMap)
    ensures |lines| == 1 + SlotsPerDay
  {
    var dates := MonthDates(yearMonth);
    var timeSlots := BuildTimeSlots();
    var dataMatrix := BuildDataMatrix(dayDataMap);
    var header := BuildLine(HeaderFields(dates));
    lines := [header];
    for k := 0 to |timeSlots|
      invariant lines == [HeaderLine(dates)] + RowLines(dataMatrix, dates, timeSlots[..k])
    {
      var time := timeSlots[k];
      var row := BuildLine(RowFields(dataMatrix, dates, time));
      RowLinesSnoc(dataMatrix, dates, timeSlots, k);
      AppendAssoc([HeaderLine(dates)], RowLines(dataMatrix, dates, timeSlots[..k]), [row]);
      lines := lines + [row];
    }
    assert timeSlots[..|timeSlots|] == timeSlots;
  }

  lemma RowLinesSnoc(m: Matrix, dates: seq<Date>, ts: seq<Time>, k: int)
    requires 0 <= k < |ts|
    ensures RowLines(m, dates, ts[..k + 1]) == RowLines(m, dates, ts[..k]) + [RowLine(m, dates, ts[k])]
  {
    assert ts[..k + 1][..k] == ts[..k];
  }

  /** Slot `i` of the day is `SlotTime(i)`. */
  lemma {:induction false} SlotsUpToAt(n: int, i: int)
    requires 0 <= i < n <= SlotsPerDay
    ensures SlotsUpTo(n)[i] == SlotTime(i)
  {
    if i < n - 1 { SlotsUpToAt(n - 1, i); }
  }

  /** Row `i` is the line of time `i`. */
  lemma {:induction false} RowLinesAt(m: Matrix, dates: seq<Date>, ts: seq<Time>, i: int)
    requires 0 <= i < |ts|
    ensures RowLines(m, dates, ts)[i] == RowLine(m, dates, ts[i])
  {
    if i < |ts| - 1 {
      var init := ts[..|ts| - 1];
      RowLinesAt(m, dates, init, i);
      assert init[i] == ts[i];
    }
  }

  // ---------------------------------------------------------------- what a cell holds

  /** The value of the last record of `records` whose time of day is `t`, if there is one. */
  function LastAt(records: seq<MeasurementRecord>, t: Time): Option<Option<real>>
  {
    if records == [] then None
    else
      var r := records[|records| - 1];
      if r.timestamp.time == t then Some(r.value) else LastAt(records[..|records| - 1], t)
  }

  /**
   * What a key reads after a day's records are filled in: the last record at that time of
   * day when the date is the day's key — whatever date the record's timestamp carries.
   */
  lemma {:induction false} FillDayLookup(m: Matrix, date: Date, records: seq<MeasurementRecord>, d: Date, t: Time)
    ensures var f := FillDay(m, date, records);
      ((d, t) in f <==> (d == date && LastAt(records, t).Some?) || (d, t) in m)
      && (d == date && LastAt(records, t).Some? ==> f[(d, t)] == LastAt(records, t).value)
      && (!(d == date && LastAt(records, t).Some?) && (d, t) in m ==> f[(d, t)] == m[(d, t)])
  {
    if records != [] {
      FillDayLookup(m, date, records[..|records| - 1], d, t);
    }
  }

  /** The value a day's column shows at time `t`: the last record at `t` of the day stored under `d`. */
  function ValueAt(days: seq<(Date, DayData)>, d: Date, t: Time): Option<real>
  {
    match Get(days, d)
    case None => None
    case Some(day) =>
      match LastAt(day.records, t)
      case None => None
      case Some(v) => v
  }

  /** Over a map with distinct keys, the filled matrix reads as `ValueAt`. */
  lemma {:induction false} FillAllCell(days: seq<(Date, DayData)>, d: Date, t: Time)
    requires DistinctKeys(days)
    ensures CellValue(FillAll(days), d, t) == ValueAt(days, d, t)
  {
    if days != [] {
      var init, e := days[..|days| - 1], days[|days| - 1];
      assert DistinctKeys(init);
      FillAllCell(init, d, t);
      FillDayLookup(FillAll(init), e.0, e.1.records, d, t);
      assert days == init + [e];
      assert !HasKey(init, e.0);
      GetSnoc(init, e.0, e.1, d);
      if d == e.0 {
        assert Get(init, d).None?;
      }
    }
  }

  /** A record off the ten-minute grid never decides a slot's value. */
  lemma {:induction false} OffGridIrrelevant(before: seq<MeasurementRecord>, r: MeasurementRecord,
                                            after: seq<MeasurementRecord>, i: int)
    requires 0 <= i < SlotsPerDay && r.timestamp.time.minute % 10 != 0
    ensures LastAt(before + [r] + after, SlotTime(i)) == LastAt(before + after, SlotTime(i))
    decreases |after|
  {
    if after == [] {
      assert before + [r] + after == before + [r];
      assert (before + [r])[..|before|] == before;
      assert before + after == before;
    } else {
      var init, last := after[..|after| - 1], after[|after| - 1];
      OffGridIrrelevant(before, r, init, i);
      assert (before + [r] + after)[..|before + [r] + after| - 1] == before + [r] + init;
      assert (before + after)[..|before + after| - 1] == before + init;
    }
  }

  // ---------------------------------------------------------------- the shape of the file

  /** The header splits back into its fields: no date holds a tab. */
  lemma HeaderSplits(dates: seq<Date>)
    ensures Split(HeaderLine(dates), '\t') == HeaderFields(dates)
  {
    var fields := HeaderFields(dates);
    forall j | 0 <= j < |fields| ensures '\t' !in fields[j] {
      if j > 0 { DotDateHasNoSeparator(dates[j - 1], '\t'); }
    }
    SplitJoin(fields, '\t');
  }

  /** A row splits back into its fields: neither the time nor a printed number holds a tab. */
  lemma RowSplits(m: Matrix, dates: seq<Date>, t: Time)
    ensures Split(RowLine(m, dates, t), '\t') == RowFields(m, dates, t)
  {
    var cells := RowCells(m, dates, t);
    TimeHasNoSeparator(t, '\t');
    forall j | 0 <= j < |cells| ensures '\t' !in cells[j] {
      RowCellsAt(m, dates, t, j);
      FormatDecimalHasNo(CellValue(m, dates[j], t), '\t');
    }
    SplitJoinFront(FormatTime(t), cells, '\t');
  }

  /** A row's fields: the time, then each date's cell. */
  lemma RowFieldsShape(m: Matrix, dates: seq<Date>, t: Time)
    ensures var fields := RowFields(m, dates, t);
      |fields| == 1 + |dates| && fields[0] == FormatTime(t)
      && forall j :: 1 <= j <= |dates| ==> fields[j] == FormatDecimal(CellValue(m, dates[j - 1], t))
  {
    var cells := RowCells(m, dates, t);
    var fields := RowFields(m, dates, t);
    assert fields == [FormatTime(t)] + cells;
    forall j | 1 <= j <= |dates| ensures fields[j] == FormatDecimal(CellValue(m, dates[j - 1], t)) {
      assert fields[j] == cells[j - 1];
      RowCellsAt(m, dates, t, j - 1);
    }
  }

  /**
   * The matrix has 1 + 144 lines. The header has 1 + N tab-separated fields for the N days
   * of the month, however many days have data: "Uhrzeit", then days 1..N as dd.MM.yyyy.
   */
  lemma MatrixHeader(ym: YearMonth, days: seq<(Date, DayData)>)
    ensures var lines := MatrixLines(ym, days);
      |lines| == 1 + SlotsPerDay
      && |Split(lines[0], '\t')| == 1 + DaysIn(ym) && Split(lines[0], '\t')[0] == "Uhrzeit"
      && forall j :: 1 <= j <= DaysIn(ym) ==> Split(lines[0], '\t')[j] == FormatDotDate(AtDay(ym, j))
  {
    var dates := MonthDates(ym);
    HeaderSplits(dates);
    assert MatrixLines(ym, days)[0] == HeaderLine(dates);
  }

  /** Line `i + 1` of the matrix is the row of slot `i`. */
  lemma MatrixLineAt(ym: YearMonth, days: seq<(Date, DayData)>, i: int)
    requires 0 <= i < SlotsPerDay
    ensures MatrixLines(ym, days)[i + 1] == RowLine(FillAll(days), MonthDates(ym), SlotTime(i))
  {
    var m, dates, ts := FillAll(days), MonthDates(ym), TimeSlots();
    RowLinesAt(m, dates, ts, i);
    SlotsUpToAt(SlotsPerDay, i);
    assert ts[i] == SlotTime(i);
    assert MatrixLines(ym, days)[i + 1] == RowLines(m, dates, ts)[i];
  }

  /**
   * Row `i + 1` is labelled with slot `i`'s HH:mm and holds 1 + N fields. Day `j`'s cell is
   * the last record at that time of the day stored under that date, printed with three
   * decimals, or empty when there is none or its value is absent.
   */
  lemma MatrixRow(ym: YearMonth, days: seq<(Date, DayData)>, i: int)
    requires 0 <= i < SlotsPerDay && DistinctKeys(days)
    ensures var fields := Split(MatrixLines(ym, days)[i + 1], '\t');
      |fields| == 1 + DaysIn(ym)
      && fields[0] == FormatTime(Time(i / 6, (i % 6) * 10))
      && forall j :: 1 <= j <= DaysIn(ym) ==>
        fields[j] == FormatDecimal(ValueAt(days, AtDay(ym, j), SlotTime(i)))
  {
    var m, dates := FillAll(days), MonthDates(ym);
    var t := SlotTime(i);
    MatrixLineAt(ym, days, i);
    RowSplits(m, dates, t);
    RowFieldsShape(m, dates, t);
    forall j | 1 <= j <= DaysIn(ym)
      ensures CellValue(m, dates[j - 1], t) == ValueAt(days, AtDay(ym, j), t)
    {
      FillAllCell(days, dates[j - 1], t);
    }
  }
}
