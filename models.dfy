/**
 * The record types of the aggregator and the values derived from a day's readings:
 * the daily total, the first and last reading, the number of readings, and the day
 * summaries of a month.
 */
module Models {
  import opened Wrappers
  import opened Calendar
  import opened Sorting

  /** One line of a daily file: a timestamp and a meter reading that may be absent. */
  datatype MeasurementRecord = MeasurementRecord(timestamp: DateTime, value: Option<real>)

  /** All readings of one day, in file order. */
  datatype DayData = DayData(date: Date, records: seq<MeasurementRecord>)

  datatype DaySummary = DaySummary(
    date: Date,
    totalKwh: real,
    firstReading: Option<real>,
    lastReading: Option<real>,
    numMeasurements: int)

  /** A month and its days, keyed by date in insertion order (a `LinkedHashMap`). */
  datatype MonthData = MonthData(yearMonth: YearMonth, days: seq<(Date, DayData)>)

  datatype MonthSummary = MonthSummary(
    year: int,
    month: MonthOfYear,
    monthLabel: string,
    summaryFile: string,
    matrixFile: string,
    days: seq<DaySummary>,
    totalMonthKwh: real)

  /** The document behind `dashboard-data.json`. */
  datatype DashboardData = DashboardData(months: seq<MonthSummary>, generatedAt: string)

  // ---------------------------------------------------------------- one day

  /** `records.mapNotNull { it.value }`: the present readings in record order. */
  function ValidValues(records: seq<MeasurementRecord>): (v: seq<real>)
    ensures |v| <= |records|
  {
    if records == [] then []
    else OptionToSeq(records[0].value) + ValidValues(records[1..])
  }

  /** `records.firstOrNull { it.value != null }?.value`. */
  function FirstValue(records: seq<MeasurementRecord>): Option<real>
  {
    if records == [] then None
    else if records[0].value.Some? then records[0].value
    else FirstValue(records[1..])
  }

  /** `records.lastOrNull { it.value != null }?.value`. */
  function LastValue(records: seq<MeasurementRecord>): Option<real>
  {
    if records == [] then None
    else if records[|records| - 1].value.Some? then records[|records| - 1].value
    else LastValue(records[..|records| - 1])
  }

  /** `records.count { it.value != null }`. */
  function CountValues(records: seq<MeasurementRecord>): nat
  {
    if records == [] then 0
    else (if records[0].value.Some? then 1 else 0) + CountValues(records[1..])
  }

  function FirstReading(d: DayData): Option<real> { FirstValue(d.records) }

  function LastReading(d: DayData): Option<real> { LastValue(d.records) }

  function MeasurementCount(d: DayData): nat { CountValues(d.records) }

  /** `calculateDailyTotal`: last minus first present reading, never below zero. */
  function CalculateDailyTotal(d: DayData): (total: real)
    ensures total >= 0.0
    ensures |ValidValues(d.records)| < 2 ==> total == 0.0
    ensures |ValidValues(d.records)| >= 2 ==>
      FirstReading(d).Some? && LastReading(d).Some? &&
      var first, last := FirstReading(d).value, LastReading(d).value;
      total == if last - first > 0.0 then last - first else 0.0
  {
    var values := ValidValues(d.records);
    FirstValueIsFirst(d.records);
    LastValueIsLast(d.records);
    if |values| >= 2 then
      var first, last := values[0], values[|values| - 1];
      if last - first > 0.0 then last - first else 0.0
    else 0.0
  }

  // ---------------------------------------------------------------- their properties

  lemma {:induction false} ValidValuesAppend(a: seq<MeasurementRecord>, b: seq<MeasurementRecord>)
    ensures ValidValues(a + b) == ValidValues(a) + ValidValues(b)
  {
    if a != [] {
      assert (a + b)[0] == a[0] && (a + b)[1..] == a[1..] + b;
      ValidValuesAppend(a[1..], b);
    } else {
      assert a + b == b;
    }
  }

  /** The first present reading is the first of the present values. */
  lemma {:induction false} FirstValueIsFirst(records: seq<MeasurementRecord>)
    ensures var v := ValidValues(records);
      FirstValue(records) == if v == [] then None else Some(v[0])
  {
    if records != [] {
      FirstValueIsFirst(records[1..]);
    }
  }

  /** The last present reading is the last of the present values. */
  lemma {:induction false} LastValueIsLast(records: seq<MeasurementRecord>)
    ensures var v := ValidValues(records);
      LastValue(records) == if v == [] then None else Some(v[|v| - 1])
  {
    if records != [] {
      var init, last := records[..|records| - 1], records[|records| - 1];
      assert records == init + [last];
      ValidValuesAppend(init, [last]);
      assert ValidValues([last]) == OptionToSeq(last.value);
      LastValueIsLast(init);
    }
  }

  /** The count is the number of present values. */
  lemma {:induction false} CountIsValidValues(records: seq<MeasurementRecord>)
    ensures CountValues(records) == |ValidValues(records)|
  {
    if records != [] {
      CountIsValidValues(records[1..]);
    }
  }

  /**
   * The first reading is the value of the earliest record, in record order, that has one;
   * the last reading that of the latest.
   */
  lemma {:induction false} FirstValuePosition(records: seq<MeasurementRecord>)
    ensures FirstValue(records).Some? ==>
      exists i :: 0 <= i < |records| && records[i].value == FirstValue(records)
        && forall j :: 0 <= j < i ==> records[j].value.None?
    ensures FirstValue(records).None? ==> forall j :: 0 <= j < |records| ==> records[j].value.None?
  {
    if records != [] && records[0].value.None? {
      FirstValuePosition(records[1..]);
      if FirstValue(records).Some? {
        var i :| 0 <= i < |records[1..]| && records[1..][i].value == FirstValue(records)
          && forall j :: 0 <= j < i ==> records[1..][j].value.None?;
        assert records[i + 1].value == FirstValue(records);
        assert forall j :: 0 <= j < i + 1 ==> records[j].value.None? by {
          forall j | 0 < j < i + 1 ensures records[j].value.None? {
            assert records[j] == records[1..][j - 1];
          }
        }
      } else {
        forall j | 0 <= j < |records| ensures records[j].value.None? {
          if j > 0 { assert records[j] == records[1..][j - 1]; }
        }
      }
    }
  }

  lemma {:induction false} LastValuePosition(records: seq<MeasurementRecord>)
    ensures LastValue(records).Some? ==>
      exists i :: 0 <= i < |records| && records[i].value == LastValue(records)
        && forall j :: i < j < |records| ==> records[j].value.None?
  {
    if records != [] && records[|records| - 1].value.None? {
      var init := records[..|records| - 1];
      LastValuePosition(init);
      if LastValue(records).Some? {
        var i :| 0 <= i < |init| && init[i].value == LastValue(records)
          && forall j :: i < j < |init| ==> init[j].value.None?;
        assert records[i].value == LastValue(records);
      }
    }
  }

  /** No readings, no first reading, no last reading: the three come and go together. */
  lemma NoReadings(d: DayData)
    ensures MeasurementCount(d) == 0 <==> FirstReading(d).None?
    ensures FirstReading(d).None? <==> LastReading(d).None?
  {
    CountIsValidValues(d.records);
    FirstValueIsFirst(d.records);
    LastValueIsLast(d.records);
  }

  /** The summary of a day: its date and the four derived values. */
  function Summarize(d: DayData): DaySummary
  {
    DaySummary(d.date, CalculateDailyTotal(d), FirstReading(d), LastReading(d), MeasurementCount(d))
  }

  // ---------------------------------------------------------------- a month

  function DayKey(d: DayData): seq<int> { DateKey(d.date) }

  function SummaryKey(s: DaySummary): seq<int> { DateKey(s.date) }

  function Values<K, V>(m: seq<(K, V)>): (vs: seq<V>)
    ensures |vs| == |m| && forall i :: 0 <= i < |m| ==> vs[i] == m[i].1
  {
    seq(|m|, i requires 0 <= i < |m| => m[i].1)
  }

  /** `sortedDays`: the days of the month ordered by date. */
  function SortedDays(m: MonthData): seq<DayData>
  {
    SortBy(Values(m.days), DayKey)
  }

  /** `map { DaySummary(...) }` over a list of days. */
  function SummarizeAll(days: seq<DayData>): (r: seq<DaySummary>)
    ensures |r| == |days| && forall i :: 0 <= i < |days| ==> r[i] == Summarize(days[i])
  {
    seq(|days|, i requires 0 <= i < |days| => Summarize(days[i]))
  }

  /** `getDaySummaries`: the summaries of the month's days, ordered by date. */
  function GetDaySummaries(m: MonthData): (r: seq<DaySummary>)
    ensures |r| == |m.days|
    ensures forall i, j :: 0 <= i < j < |r| ==> LexLe(SummaryKey(r[i]), SummaryKey(r[j]))
  {
    var sorted := SortedDays(m);
    assert forall i, j :: 0 <= i < j < |sorted| ==> LexLe(DayKey(sorted[i]), DayKey(sorted[j]));
    SummarizeAll(sorted)
  }

  /** Every summary is the summary of one of the month's days. */
  lemma DaySummariesFromDays(m: MonthData, i: int)
    requires 0 <= i < |GetDaySummaries(m)|
    ensures exists k :: 0 <= k < |m.days| && GetDaySummaries(m)[i] == Summarize(m.days[k].1)
  {
    var sorted := SortedDays(m);
    InSorted(Values(m.days), DayKey, sorted[i]);
    var k :| 0 <= k < |m.days| && Values(m.days)[k] == sorted[i];
    assert GetDaySummaries(m)[i] == Summarize(m.days[k].1);
  }

  /** Every day of the month has its summary among the summaries. */
  lemma DaySummariesCoverDays(m: MonthData, k: int)
    requires 0 <= k < |m.days|
    ensures exists i :: 0 <= i < |GetDaySummaries(m)| && GetDaySummaries(m)[i] == Summarize(m.days[k].1)
  {
    var sorted := SortedDays(m);
    InSorted(Values(m.days), DayKey, m.days[k].1);
    assert Values(m.days)[k] == m.days[k].1;
    var i :| 0 <= i < |sorted| && sorted[i] == m.days[k].1;
    assert GetDaySummaries(m)[i] == Summarize(m.days[k].1);
  }

  /** The month total: the sum of the day totals, in order. */
  function SumTotals(days: seq<DaySummary>): real
  {
    if days == [] then 0.0 else SumTotals(days[..|days| - 1]) + days[|days| - 1].totalKwh
  }

  /** When every day sits under its own date, the summaries' dates strictly increase. */
  lemma DaySummariesStrictlyOrdered(m: MonthData)
    requires forall i :: 0 <= i < |m.days| ==> m.days[i].1.date == m.days[i].0
    requires forall i, j :: 0 <= i < j < |m.days| ==> m.days[i].0 != m.days[j].0
    ensures var r := GetDaySummaries(m);
      forall i, j :: 0 <= i < j < |r| ==> r[i].date != r[j].date && LexLe(DateKey(r[i].date), DateKey(r[j].date))
  {
    var vs := Values(m.days);
    assert forall i, j :: 0 <= i < j < |vs| ==> DayKey(vs[i]) != DayKey(vs[j]);
    SortDistinctKeys(vs, DayKey);
    var sorted := SortedDays(m);
    assert sorted == SortBy(vs, DayKey);
    var r := GetDaySummaries(m);
    forall i, j | 0 <= i < j < |r| ensures r[i].date != r[j].date {
      assert DayKey(sorted[i]) != DayKey(sorted[j]);
      assert r[i].date == sorted[i].date && r[j].date == sorted[j].date;
    }
  }

  /** When every day sits under its own date, the summaries' dates are exactly the map's dates. */
  lemma DaySummaryDates(m: MonthData, d: Date)
    requires forall i :: 0 <= i < |m.days| ==> m.days[i].1.date == m.days[i].0
    ensures var r := GetDaySummaries(m);
      (exists i :: 0 <= i < |r| && r[i].date == d) <==> (exists k :: 0 <= k < |m.days| && m.days[k].0 == d)
  {
    var r := GetDaySummaries(m);
    if exists i :: 0 <= i < |r| && r[i].date == d {
      var i :| 0 <= i < |r| && r[i].date == d;
      DaySummariesFromDays(m, i);
      var k :| 0 <= k < |m.days| && r[i] == Summarize(m.days[k].1);
      assert m.days[k].0 == d;
    }
    if exists k :: 0 <= k < |m.days| && m.days[k].0 == d {
      var k :| 0 <= k < |m.days| && m.days[k].0 == d;
      DaySummariesCoverDays(m, k);
      var i :| 0 <= i < |r| && r[i] == Summarize(m.days[k].1);
      assert r[i].date == d;
    }
  }
}
