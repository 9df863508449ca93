/**
 * `DashboardExporter.export`: the document behind `dashboard-data.json`, the month
 * summaries in (year, month) order with the time of generation. Writing the JSON text is
 * not part of this model.
 */
module DashboardExporter {
  import opened Sorting
  import opened Models

  /** The sort key of `compareBy({ it.year }, { it.month })`. */
  function MonthKey(m: MonthSummary): seq<int> { [m.year, m.month] }

  /** Two-component keys compare by the first component, then by the second. */
  lemma MonthKeyOrder(a: MonthSummary, b: MonthSummary)
    ensures LexLe(MonthKey(a), MonthKey(b)) <==> a.year < b.year || (a.year == b.year && a.month <= b.month)
  {
    var ka, kb := MonthKey(a), MonthKey(b);
    assert ka[1..] == [a.month as int] && kb[1..] == [b.month as int];
    assert LexLe([a.month as int], [b.month as int]) <==> a.month <= b.month by {
      assert [a.month as int][1..] == [];
    }
  }

  /**
   * The dashboard document: every month summary once, ordered by year and then month,
   * months of the same (year, month) in their given order, with `generatedAt` as given.
   */
  function DashboardOf(monthSummaries: seq<MonthSummary>, generatedAt: string): (d: DashboardData)
    ensures d.generatedAt == generatedAt
    ensures |d.months| == |monthSummaries| && multiset(d.months) == multiset(monthSummaries)
    ensures forall i, j :: 0 <= i < j < |d.months| ==> LexLe(MonthKey(d.months[i]), MonthKey(d.months[j]))
    ensures StableFor(monthSummaries, d.months, MonthKey)
  {
    DashboardData(SortBy(monthSummaries, MonthKey), generatedAt)
  }

  /** The months of the dashboard ascend by year, and by month within a year. */
  lemma DashboardChronological(monthSummaries: seq<MonthSummary>, generatedAt: string)
    ensures var ms := DashboardOf(monthSummaries, generatedAt).months;
      forall i, j :: 0 <= i < j < |ms| ==>
        ms[i].year < ms[j].year || (ms[i].year == ms[j].year && ms[i].month <= ms[j].month)
  {
    var ms := DashboardOf(monthSummaries, generatedAt).months;
    forall i, j | 0 <= i < j < |ms|
      ensures ms[i].year < ms[j].year || (ms[i].year == ms[j].year && ms[i].month <= ms[j].month)
    {
      MonthKeyOrder(ms[i], ms[j]);
    }
  }

  /** Month summaries that are already in order are exported in the order given. */
  lemma DashboardKeepsOrderedMonths(monthSummaries: seq<MonthSummary>, generatedAt: string)
    requires forall i, j :: 0 <= i < j < |monthSummaries| ==> LexLe(MonthKey(monthSummaries[i]), MonthKey(monthSummaries[j]))
    ensures DashboardOf(monthSummaries, generatedAt).months == monthSummaries
  {
    SortSorted(monthSummaries, MonthKey);
  }
}
