/**
 * `DataScanner.scanAndGroupByMonth`: finds the daily files of the data directory, both the
 * ones lying in it directly and the ones in a month sub-directory (`yy-MM` or `yy_MM`),
 * groups them by month, orders each month's files by name and the months by date.
 */
module DataScanner {
  import opened Wrappers
  import opened Calendar
  import opened Sorting
  import opened LinkedMaps
  import opened FileNameParser
  import opened FileTree

  /** The months found so far with their files, in the order the months were first seen. */
  type Groups = seq<(YearMonth, seq<DailyFile>)>

  /** The month a daily file names, when it is a CSV file whose name parses. */
  function MonthOfFile(f: DailyFile): Option<YearMonth>
  {
    if IsCsvFile(true, f.name) then
      match ParseDate(f.name)
      case None => None
      case Some(d) => Some(YearMonthOf(d))
    else None
  }

  /** A file properly filed under month `ym`. */
  predicate Belongs(ym: YearMonth, f: DailyFile) { MonthOfFile(f) == Some(ym) }

  /** What one entry of the data directory adds in the first pass. */
  function RootContribution(e: Entry): seq<(YearMonth, DailyFile)>
  {
    if e.FileEntry? && MonthOfFile(e.file).Some? then [(MonthOfFile(e.file).value, e.file)] else []
  }

  /** The first pass: daily files lying directly in the data directory, in listing order. */
  function RootCandidates(root: seq<Entry>): seq<(YearMonth, DailyFile)>
  {
    if root == [] then [] else RootCandidates(root[..|root| - 1]) + RootContribution(root[|root| - 1])
  }

  /** What one entry of a month directory for `ym` adds. */
  function ChildContribution(ym: YearMonth, e: Entry): seq<(YearMonth, DailyFile)>
  {
    if e.FileEntry? && Belongs(ym, e.file) then [(ym, e.file)] else []
  }

  /** The files of a month directory for `ym` that belong to `ym`, in listing order. */
  function ChildCandidates(ym: YearMonth, children: seq<Entry>): seq<(YearMonth, DailyFile)>
  {
    if children == [] then []
    else ChildCandidates(ym, children[..|children| - 1]) + ChildContribution(ym, children[|children| - 1])
  }

  /** What one entry of the data directory adds in the second pass. */
  function DirContribution(e: Entry): seq<(YearMonth, DailyFile)>
  {
    if e.DirEntry? && ParseYearMonth(e.name).Some? then ChildCandidates(ParseYearMonth(e.name).value, e.children)
    else []
  }

  /** The second pass: the files of every month directory, directory by directory. */
  function DirCandidates(root: seq<Entry>): seq<(YearMonth, DailyFile)>
  {
    if root == [] then [] else DirCandidates(root[..|root| - 1]) + DirContribution(root[|root| - 1])
  }

  /** Every file the scan adds, with its month, in the order it adds them. */
  function Candidates(root: seq<Entry>): seq<(YearMonth, DailyFile)>
  {
    RootCandidates(root) + DirCandidates(root)
  }

  /** `result.getOrPut(ym) { mutableListOf() }.add(f)`. */
  function AddFile(groups: Groups, ym: YearMonth, f: DailyFile): Groups
  {
    var files := match Get(groups, ym) case None => [] case Some(fs) => fs;
    Put(groups, ym, files + [f])
  }

  /** The groups after adding every candidate in order. */
  function Group(cs: seq<(YearMonth, DailyFile)>): Groups
  {
    if cs == [] then []
    else
      var c := cs[|cs| - 1];
      AddFile(Group(cs[..|cs| - 1]), c.0, c.1)
  }

  function NameKey(f: DailyFile): seq<int> { StringKey(f.name) }

  function GroupKey(g: (YearMonth, seq<DailyFile>)): seq<int> { YearMonthKey(g.0) }

  /** `files.sortBy { it.name }` on every list. */
  function SortLists(groups: Groups): (r: Groups)
    ensures |r| == |groups|
    ensures forall i :: 0 <= i < |groups| ==> r[i] == (groups[i].0, SortBy(groups[i].1, NameKey))
  {
    seq(|groups|, i requires 0 <= i < |groups| => (groups[i].0, SortBy(groups[i].1, NameKey)))
  }

  /**
   * Sorting keeps every month where it was with the same files, now in name order; files
   * with equal names keep their discovery order.
   */
  lemma SortListsSpec(groups: Groups, i: int)
    requires 0 <= i < |groups|
    ensures |SortLists(groups)| == |groups|
    ensures var r := SortLists(groups);
      r[i].0 == groups[i].0 && multiset(r[i].1) == multiset(groups[i].1)
      && SortedBy(r[i].1, NameKey) && StableFor(groups[i].1, r[i].1, NameKey)
  {
  }

  /** What the scan returns: the groups with sorted lists, as a map sorted by month. */
  function Scan(root: seq<Entry>): Groups
  {
    SortBy(SortLists(Group(Candidates(root))), GroupKey)
  }

  /** The candidates filed under `ym`, in order. */
  function FilesOf(cs: seq<(YearMonth, DailyFile)>, ym: YearMonth): seq<DailyFile>
  {
    if cs == [] then []
    else
      var c := cs[|cs| - 1];
      FilesOf(cs[..|cs| - 1], ym) + if c.0 == ym then [c.1] else []
  }

  lemma DirCandidatesStep(root: seq<Entry>, i: int)
    requires 0 <= i < |root|
    ensures DirCandidates(root[..i + 1]) == DirCandidates(root[..i]) + DirContribution(root[i])
  {
    assert root[..i + 1][..i] == root[..i];
  }

  lemma GroupSnoc(cs: seq<(YearMonth, DailyFile)>, c: (YearMonth, DailyFile))
    ensures Group(cs + [c]) == AddFile(Group(cs), c.0, c.1)
  {
    assert (cs + [c])[..|cs|] == cs;
  }

  /** The first pass: the daily files lying directly in the data directory. */
  method ScanRoot(root: seq<Entry>) returns (groups: Groups)
    ensures groups == Group(RootCandidates(root))
  {
    groups := [];
    for i := 0 to |root|
      invariant groups == Group(RootCandidates(root[..i]))
    {
      var e := root[i];
      assert root[..i + 1][..i] == root[..i];
      ghost var sofar := RootCandidates(root[..i]);
      assert RootCandidates(root[..i + 1]) == sofar + RootContribution(e);
      if e.FileEntry? && MonthOfFile(e.file).Some? {
        var ym := MonthOfFile(e.file).value;
        assert RootContribution(e) == [(ym, e.file)];
        GroupSnoc(sofar, (ym, e.file));
        groups := AddFile(groups, ym, e.file);
      } else {
        assert RootContribution(e) == [];
        assert RootCandidates(root[..i + 1]) == sofar;
      }
    }
    assert root[..|root|] == root;
  }

  /** The files of one month directory for `ym`, added to the groups of the candidates `done`. */
  method ScanMonthDirectory(groups: Groups, ghost done: seq<(YearMonth, DailyFile)>, ym: YearMonth, children: seq<Entry>)
    returns (r: Groups)
    requires groups == Group(done)
    ensures r == Group(done + ChildCandidates(ym, children))
  {
    r := groups;
    ghost var seen := done;
    assert ChildCandidates(ym, children[..0]) == [];
    for j := 0 to |children|
      invariant seen == done + ChildCandidates(ym, children[..j])
      invariant r == Group(seen)
    {
      var f := children[j];
      assert children[..j + 1][..j] == children[..j];
      ghost var sofar := ChildCandidates(ym, children[..j]);
      assert ChildCandidates(ym, children[..j + 1]) == sofar + ChildContribution(ym, f);
      if f.FileEntry? && MonthOfFile(f.file) == Some(ym) {
        assert ChildContribution(ym, f) == [(ym, f.file)];
        AppendAssoc(done, sofar, [(ym, f.file)]);
        GroupSnoc(seen, (ym, f.file));
        r := AddFile(r, ym, f.file);
        seen := seen + [(ym, f.file)];
      } else {
        assert ChildContribution(ym, f) == [];
        assert ChildCandidates(ym, children[..j + 1]) == sofar;
      }
    }
    assert children[..|children|] == children;
  }

  /** The second pass: every sub-directory named as a month. */
  method ScanDirectories(groups: Groups, ghost done: seq<(YearMonth, DailyFile)>, root: seq<Entry>)
    returns (r: Groups)
    requires groups == Group(done)
    ensures r == Group(done + DirCandidates(root))
  {
    r := groups;
    ghost var seen := done;
    assert DirCandidates(root[..0]) == [];
    for i := 0 to |root|
      invariant seen == done + DirCandidates(root[..i])
      invariant r == Group(seen)
    {
      var e := root[i];
      DirCandidatesStep(root, i);
      if e.DirEntry? && ParseYearMonth(e.name).Some? {
        var ym := ParseYearMonth(e.name).value;
        r := ScanMonthDirectory(r, seen, ym, e.children);
        AppendAssoc(done, DirCandidates(root[..i]), ChildCandidates(ym, e.children));
        seen := seen + ChildCandidates(ym, e.children);
      }
    }
    assert root[..|root|] == root;
  }

  /** `result.values.forEach { files -> files.sortBy { it.name } }`. */
  method SortEachList(groups: Groups) returns (r: Groups)
    ensures r == SortLists(groups)
  {
    r := groups;
    for i := 0 to |r|
      invariant |r| == |groups|
      invariant forall k :: 0 <= k < i ==> r[k] == (groups[k].0, SortBy(groups[k].1, NameKey))
      invariant forall k :: i <= k < |r| ==> r[k] == groups[k]
    {
      r := r[i := (r[i].0, SortBy(r[i].1, NameKey))];
    }
  }

  /** `scanAndGroupByMonth`: both passes, the lists sorted by name, the map sorted by month. */
  method ScanAndGroupByMonth(root: seq<Entry>) returns (r: Groups)
    ensures r == Scan(root)
  {
    var result := ScanRoot(root);
    result := ScanDirectories(result, RootCandidates(root), root);
    result := SortEachList(result);
    r := SortBy(result, GroupKey);
  }

  // ================================================================ properties

  /** The grouping keeps the keys distinct and files each candidate's file under its month. */
  lemma {:induction false} GroupContents(cs: seq<(YearMonth, DailyFile)>, ym: YearMonth)
    ensures DistinctKeys(Group(cs))
    ensures Get(Group(cs), ym) == if FilesOf(cs, ym) == [] then None else Some(FilesOf(cs, ym))
  {
    if cs != [] {
      var init, c := cs[..|cs| - 1], cs[|cs| - 1];
      GroupContents(init, ym);
      GroupContents(init, c.0);
      var g := Group(init);
      var files := match Get(g, c.0) case None => [] case Some(fs) => fs;
      assert files == FilesOf(init, c.0);
      assert Group(cs) == Put(g, c.0, files + [c.1]);
      PutDistinct(g, c.0, files + [c.1]);
      GetPut(g, c.0, files + [c.1], ym);
      if c.0 == ym {
        assert FilesOf(cs, ym) == files + [c.1];
      } else {
        assert FilesOf(cs, ym) == FilesOf(init, ym) + [];
        assert FilesOf(init, ym) + [] == FilesOf(init, ym);
      }
    }
  }

  /** Every month of the grouping has a non-empty list: exactly its candidates. */
  lemma GroupEntry(cs: seq<(YearMonth, DailyFile)>, j: int)
    requires 0 <= j < |Group(cs)|
    ensures Group(cs)[j].1 == FilesOf(cs, Group(cs)[j].0) && Group(cs)[j].1 != []
  {
    var g := Group(cs);
    GroupContents(cs, g[j].0);
    GetAt(g, j);
  }

  /** A month is in the grouping exactly when some candidate is filed under it. */
  lemma GroupHasMonth(cs: seq<(YearMonth, DailyFile)>, ym: YearMonth)
    ensures HasKey(Group(cs), ym) <==> FilesOf(cs, ym) != []
  {
    GroupContents(cs, ym);
  }

  lemma {:induction false} RootCandidatesBelong(root: seq<Entry>)
    ensures forall i :: 0 <= i < |RootCandidates(root)| ==>
      Belongs(RootCandidates(root)[i].0, RootCandidates(root)[i].1)
  {
    if root != [] { RootCandidatesBelong(root[..|root| - 1]); }
  }

  lemma {:induction false} ChildCandidatesBelong(ym: YearMonth, children: seq<Entry>)
    ensures forall i :: 0 <= i < |ChildCandidates(ym, children)| ==>
      ChildCandidates(ym, children)[i].0 == ym && Belongs(ym, ChildCandidates(ym, children)[i].1)
  {
    if children != [] { ChildCandidatesBelong(ym, children[..|children| - 1]); }
  }

  lemma {:induction false} DirCandidatesBelong(root: seq<Entry>)
    ensures forall i :: 0 <= i < |DirCandidates(root)| ==>
      Belongs(DirCandidates(root)[i].0, DirCandidates(root)[i].1)
  {
    if root != [] {
      DirCandidatesBelong(root[..|root| - 1]);
      var e := root[|root| - 1];
      if e.DirEntry? && ParseYearMonth(e.name).Some? {
        ChildCandidatesBelong(ParseYearMonth(e.name).value, e.children);
      }
      assert DirCandidates(root) == DirCandidates(root[..|root| - 1]) + DirContribution(e);
      assert DirContribution(e) == if e.DirEntry? && ParseYearMonth(e.name).Some? then
        ChildCandidates(ParseYearMonth(e.name).value, e.children) else [];
    }
  }

  /** Every candidate is filed under the month its name gives. */
  predicate AllBelong(cs: seq<(YearMonth, DailyFile)>)
  {
    forall i :: 0 <= i < |cs| ==> Belongs(cs[i].0, cs[i].1)
  }

  /**
   * Every file the scan picks is a CSV file whose name parses to a date of the month it is
   * filed under; a file in a month directory naming another month is not picked there.
   */
  lemma CandidatesBelong(root: seq<Entry>)
    ensures AllBelong(Candidates(root))
  {
    var a: seq<(YearMonth, DailyFile)>, b: seq<(YearMonth, DailyFile)> := RootCandidates(root), DirCandidates(root);
    RootCandidatesBelong(root);
    DirCandidatesBelong(root);
    forall i | 0 <= i < |a + b| ensures Belongs((a + b)[i].0, (a + b)[i].1) {
      if i < |a| { assert (a + b)[i] == a[i]; } else { assert (a + b)[i] == b[i - |a|]; }
    }
  }

  lemma {:induction false} FilesOfBelong(cs: seq<(YearMonth, DailyFile)>, ym: YearMonth)
    requires AllBelong(cs)
    ensures forall k :: 0 <= k < |FilesOf(cs, ym)| ==> Belongs(ym, FilesOf(cs, ym)[k])
  {
    if cs != [] {
      var init, c := cs[..|cs| - 1], cs[|cs| - 1];
      assert AllBelong(init) by {
        forall i | 0 <= i < |init| ensures Belongs(init[i].0, init[i].1) { assert init[i] == cs[i]; }
      }
      FilesOfBelong(init, ym);
      assert Belongs(c.0, c.1);
    }
  }

  /**
   * Each month of the result lists exactly the files filed under it, ordered by name, never
   * none, and each of them a CSV file dated in that month.
   */
  lemma ScanMonth(root: seq<Entry>, i: int)
    requires 0 <= i < |Scan(root)|
    ensures var (ym, files) := Scan(root)[i];
      files == SortBy(FilesOf(Candidates(root), ym), NameKey) && files != []
      && forall k :: 0 <= k < |files| ==> Belongs(ym, files[k])
  {
    var cs := Candidates(root);
    var g := Group(cs);
    var lists := SortLists(g);
    var entry := Scan(root)[i];
    InSorted(lists, GroupKey, entry);
    var k :| 0 <= k < |lists| && lists[k] == entry;
    GroupEntry(cs, k);
    CandidatesBelong(root);
    FilesOfBelong(cs, entry.0);
    forall n | 0 <= n < |entry.1| ensures Belongs(entry.0, entry.1[n]) {
      InSorted(g[k].1, NameKey, entry.1[n]);
    }
  }

  /** The months of the grouping are distinct, so the sorted result's months strictly ascend. */
  lemma ScanMonthsAscend(root: seq<Entry>)
    ensures var r := Scan(root);
      forall i, j :: 0 <= i < j < |r| ==>
        YearMonthKey(r[i].0) != YearMonthKey(r[j].0) && LexLe(YearMonthKey(r[i].0), YearMonthKey(r[j].0))
  {
    var cs := Candidates(root);
    var g := Group(cs);
    var lists := SortLists(g);
    GroupContents(cs, YearMonth(0, 1));
    forall i, j | 0 <= i < j < |lists| ensures GroupKey(lists[i]) != GroupKey(lists[j]) {
      assert g[i].0 != g[j].0;
      assert GroupKey(lists[i]) == YearMonthKey(g[i].0);
    }
    SortDistinctKeys(lists, GroupKey);
    var r := Scan(root);
    assert r == SortBy(lists, GroupKey);
    forall i, j | 0 <= i < j < |r|
      ensures YearMonthKey(r[i].0) != YearMonthKey(r[j].0) && LexLe(YearMonthKey(r[i].0), YearMonthKey(r[j].0))
    {
      assert GroupKey(r[i]) != GroupKey(r[j]) && LexLe(GroupKey(r[i]), GroupKey(r[j]));
    }
  }

  /** A month is in the result exactly when some file is filed under it. */
  lemma ScanHasMonth(root: seq<Entry>, ym: YearMonth)
    ensures HasKey(Scan(root), ym) <==> FilesOf(Candidates(root), ym) != []
  {
    var cs := Candidates(root);
    var g := Group(cs);
    var lists := SortLists(g);
    var r := Scan(root);
    GroupHasMonth(cs, ym);
    if HasKey(r, ym) {
      var i :| 0 <= i < |r| && r[i].0 == ym;
      InSorted(lists, GroupKey, r[i]);
      var k :| 0 <= k < |lists| && lists[k] == r[i];
      assert g[k].0 == ym;
    }
    if HasKey(g, ym) {
      var k :| 0 <= k < |g| && g[k].0 == ym;
      InSorted(lists, GroupKey, lists[k]);
      var i :| 0 <= i < |r| && r[i] == lists[k];
      assert r[i].0 == ym;
    }
  }
}
