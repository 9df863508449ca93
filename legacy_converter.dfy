/**
 * `generateMonthlyOverview` of the stand-alone converter: a grid of 144 ten-minute slots,
 * each holding one cell per day of the month, is filled in place from the raw lines of the
 * month folder's files and then written as a header line and one row per slot. Cells hold
 * the value text as found (with ',' turned into '.'), never a number.
 */
module LegacyConverter {
  import opened Wrappers
  import opened Text
  import opened Calendar
  import opened FileTree
  import opened FileNameParser
  import opened MonthlyExporter

  // ================================================================ what one line stores

  /** One store into the grid: the slot (row), the day index (column) and the text stored. */
  datatype Write = Write(slot: int, day: int, value: Option<string>)

  /** `name.endsWith(".csv") || name.endsWith(".CSV")`: the files the folder listing keeps. */
  predicate Listed(name: string) { EndsWith(name, ".csv") || EndsWith(name, ".CSV") }

  /** The files of the folder that the listing keeps, in listing order. */
  function ListedFiles(folder: seq<DailyFile>): (files: seq<DailyFile>)
    ensures |files| <= |folder|
  {
    if folder == [] then []
    else
      var f := folder[|folder| - 1];
      ListedFiles(folder[..|folder| - 1]) + (if Listed(f.name) then [f] else [])
  }

  /** `dropWhile { it.startsWith(";") }`: the leading run of ';' lines is dropped, nothing after it. */
  function DropComments(lines: seq<string>): (r: seq<string>)
    ensures |r| <= |lines| && r == lines[|lines| - |r|..]
  {
    if lines == [] || !StartsWith(lines[0], ";") then lines else DropComments(lines[1..])
  }

  /** `parts[1].replace(",", ".").ifEmpty { null }`. */
  function StoredValue(field: string): Option<string>
  {
    var v := ReplaceChar(field, ',', '.');
    if v == [] then None else Some(v)
  }

  /**
   * The store a line makes in the column `dayIndex` of a grid of `n` columns: none when it
   * has fewer than two ';' fields, a blank first field, a first field that is not a
   * "dd.MM.yyyy HH:mm" timestamp, a time off the ten-minute grid (the slot lookup gives
   * nothing), or a column past the grid (the store throws and the line is skipped).
   */
  function LineWrite(line: string, dayIndex: int, n: int): Option<Write>
  {
    var parts := Split(line, ';');
    if |parts| > 1 && !IsBlank(parts[0]) then
      match ParseDateTime(parts[0])
      case None => None
      case Some(dateTime) =>
        match SlotIndex(dateTime.time)
        case None => None
        case Some(slot) => if 0 <= dayIndex < n then Some(Write(slot, dayIndex, StoredValue(parts[1]))) else None
    else None
  }

  /** The stores of a file's lines, in line order. */
  function FileWrites(lines: seq<string>, dayIndex: int, n: int): seq<Write>
  {
    if lines == [] then []
    else FileWrites(lines[..|lines| - 1], dayIndex, n) + OptionToSeq(LineWrite(lines[|lines| - 1], dayIndex, n))
  }

  /** `LocalDate.parse(file.nameWithoutExtension, ofPattern("yy-MM-dd"))`. */
  function FileDate(f: DailyFile): Option<Date>
  {
    ParseDayText(NameWithoutExtension(f.name))
  }

  /** Every file's name is a date: otherwise the run stops at the first one that is not. */
  predicate AllNamed(files: seq<DailyFile>)
  {
    forall i :: 0 <= i < |files| ==> FileDate(files[i]).Some?
  }

  /** The stores of one file: its lines after the leading ';' lines, in the column of its day of month. */
  function FileContribution(f: DailyFile, n: int): seq<Write>
  {
    match FileDate(f)
    case None => []
    case Some(d) => FileWrites(DropComments(f.lines), d.day - 1, n)
  }

  /** The stores of the files, file by file. */
  function FolderWrites(files: seq<DailyFile>, n: int): seq<Write>
  {
    if files == [] then [] else FolderWrites(files[..|files| - 1], n) + FileContribution(files[|files| - 1], n)
  }

  /** What a cell holds after the stores: the last store into it, `null` when there was none. */
  function LastWrite(writes: seq<Write>, slot: int, day: int): Option<string>
  {
    if writes == [] then None
    else
      var w := writes[|writes| - 1];
      if w.slot == slot && w.day == day then w.value else LastWrite(writes[..|writes| - 1], slot, day)
  }

  // ================================================================ the output

  /** `it ?: ""`. */
  function CellText(v: Option<string>): string
  {
    match v
    case None => ""
    case Some(s) => s
  }

  /** The first `count` cells of slot `slot`, as text. */
  function RowTexts(writes: seq<Write>, slot: int, count: nat): (r: seq<string>)
    ensures |r| == count
  {
    if count == 0 then [] else RowTexts(writes, slot, count - 1) + [CellText(LastWrite(writes, slot, count - 1))]
  }

  /** One slot's row: its time as HH:mm, then its `n` cells, tab-separated. */
  function OverviewRow(writes: seq<Write>, slot: int, n: nat): string
    requires 0 <= slot < SlotsPerDay
  {
    Join([FormatTime(SlotTime(slot))] + RowTexts(writes, slot, n), '\t')
  }

  /** The rows of the first `count` slots, in time order. */
  function OverviewRows(writes: seq<Write>, n: nat, count: nat): (rows: seq<string>)
    requires count <= SlotsPerDay
    ensures |rows| == count
  {
    if count == 0 then [] else OverviewRows(writes, n, count - 1) + [OverviewRow(writes, count - 1, n)]
  }

  /** The lines written for month `ym`: the header of its dates, then the 144 slot rows. */
  function OverviewFor(ym: YearMonth, files: seq<DailyFile>): seq<string>
  {
    var n := DaysIn(ym);
    [HeaderLine(MonthDates(ym))] + OverviewRows(FolderWrites(files, n), n, SlotsPerDay)
  }

  /**
   * What `generateMonthlyOverview` writes for a month folder: nothing when the folder name
   * (with '_' read as '-') is not a `yy-MM` month or some listed file's name is not a
   * `yy-MM-dd` date; otherwise the overview of the month.
   */
  function MonthlyOverview(folderName: string, folder: seq<DailyFile>): Option<seq<string>>
  {
    var yearMonth := ReplaceChar(folderName, '_', '-');
    match ParseDayText(yearMonth + "-01")
    case None => None
    case Some(startDate) =>
      var files := ListedFiles(folder);
      if !AllNamed(files) then None else Some(OverviewFor(YearMonthOf(startDate), files))
  }

  // ================================================================ the in-place fill

  /** `dataMap`: 144 rows of `n` cells, each holding the last store into it. */
  ghost predicate GridHolds(grid: array2<Option<string>>, writes: seq<Write>, n: int)
    reads grid
  {
    grid.Length0 == SlotsPerDay && grid.Length1 == n
    && forall s, d :: 0 <= s < SlotsPerDay && 0 <= d < n ==> grid[s, d] == LastWrite(writes, s, d)
  }

  /** A store changes its own cell and no other. */
  lemma LastWriteSnoc(writes: seq<Write>, w: Write, slot: int, day: int)
    ensures LastWrite(writes + [w], slot, day) == if w.slot == slot && w.day == day then w.value else LastWrite(writes, slot, day)
  {
    assert (writes + [w])[..|writes|] == writes;
  }

  /** The body of the line loop: split the line, parse its time and store its value. */
  method ApplyLine(dataMap: array2<Option<string>>, ghost writes: seq<Write>, line: string, dayIndex: int)
    requires dataMap.Length0 == SlotsPerDay && GridHolds(dataMap, writes, dataMap.Length1)
    modifies dataMap
    ensures GridHolds(dataMap, writes + OptionToSeq(LineWrite(line, dayIndex, dataMap.Length1)), dataMap.Length1)
  {
    ghost var w := LineWrite(line, dayIndex, dataMap.Length1);
    var parts := Split(line, ';');
    var stored := false;
    if |parts| > 1 && !IsBlank(parts[0]) {
      var dateTime := ParseDateTime(parts[0]);
      if dateTime.Some? {
        var time := dateTime.value.time;
        var value := StoredValue(parts[1]);
        var slot := SlotIndex(time);
        if slot.Some? && 0 <= dayIndex < dataMap.Length1 {
          assert w == Some(Write(slot.value, dayIndex, value));
          dataMap[slot.value, dayIndex] := value;
          stored := true;
          forall s, d | 0 <= s < SlotsPerDay && 0 <= d < dataMap.Length1
            ensures dataMap[s, d] == LastWrite(writes + [w.value], s, d)
          {
            LastWriteSnoc(writes, w.value, s, d);
          }
        }
      }
    }
    if !stored {
      assert w == None;
      assert writes + OptionToSeq(w) == writes;
    }
  }

  /** The line loop: apply a file's lines after the leading ';' lines, in order. */
  method ApplyLines(dataMap: array2<Option<string>>, ghost writes: seq<Write>, lines: seq<string>, dayIndex: int)
    requires dataMap.Length0 == SlotsPerDay && GridHolds(dataMap, writes, dataMap.Length1)
    modifies dataMap
    ensures GridHolds(dataMap, writes + FileWrites(lines, dayIndex, dataMap.Length1), dataMap.Length1)
  {
    var n := dataMap.Length1;
    assert writes + FileWrites(lines[..0], dayIndex, n) == writes;
    for i := 0 to |lines|
      invariant GridHolds(dataMap, writes + FileWrites(lines[..i], dayIndex, n), n)
    {
      assert lines[..i + 1][..i] == lines[..i];
      ApplyLine(dataMap, writes + FileWrites(lines[..i], dayIndex, n), lines[i], dayIndex);
      AppendAssoc(writes, FileWrites(lines[..i], dayIndex, n), OptionToSeq(LineWrite(lines[i], dayIndex, n)));
    }
    assert lines[..|lines|] == lines;
  }

  /**
   * The body of the file loop: read the file's day from its name and apply its lines in
   * that day's column; `false`, with the grid untouched, when the name is not a date.
   */
  method ApplyFile(dataMap: array2<Option<string>>, ghost writes: seq<Write>, file: DailyFile) returns (named: bool)
    requires dataMap.Length0 == SlotsPerDay && GridHolds(dataMap, writes, dataMap.Length1)
    modifies dataMap
    ensures named == FileDate(file).Some?
    ensures named ==> GridHolds(dataMap, writes + FileContribution(file, dataMap.Length1), dataMap.Length1)
  {
    if FileDate(file).None? {
      return false;
    }
    var dayIndex := FileDate(file).value.day - 1;
    var lines := DropComments(file.lines);
    ApplyLines(dataMap, writes, lines, dayIndex);
    FileContributionOf(file, dataMap.Length1);
    return true;
  }

  /** The grid's text rows, slot by slot, read off the filled grid. */
  method RenderRows(dataMap: array2<Option<string>>, ghost writes: seq<Write>) returns (rows: seq<string>)
    requires dataMap.Length0 == SlotsPerDay && GridHolds(dataMap, writes, dataMap.Length1)
    ensures rows == OverviewRows(writes, dataMap.Length1, SlotsPerDay)
  {
    var n := dataMap.Length1;
    rows := [];
    for s := 0 to SlotsPerDay
      invariant rows == OverviewRows(writes, n, s)
    {
      var cells: seq<string> := [];
      for d := 0 to n
        invariant cells == RowTexts(writes, s, d)
      {
        cells := cells + [CellText(dataMap[s, d])];
      }
      var timeString := FormatTime(SlotTime(s));
      rows := rows + [Join([timeString] + cells, '\t')];
    }
  }

  /**
   * The file loop: every listed file in turn stores its lines into the column of its day;
   * `false` as soon as a file's name is not a date, the grid then left as it is.
   */
  method FillGrid(dataMap: array2<Option<string>>, files: seq<DailyFile>) returns (ok: bool)
    requires dataMap.Length0 == SlotsPerDay && GridHolds(dataMap, [], dataMap.Length1)
    modifies dataMap
    ensures ok == AllNamed(files)
    ensures ok ==> GridHolds(dataMap, FolderWrites(files, dataMap.Length1), dataMap.Length1)
  {
    var n := dataMap.Length1;
    ghost var writes: seq<Write> := [];
    for k := 0 to |files|
      invariant writes == FolderWrites(files[..k], n)
      invariant AllNamed(files[..k])
      invariant GridHolds(dataMap, writes, n)
    {
      var named := ApplyFile(dataMap, writes, files[k]);
      if !named {
        NotAllNamed(files, k);
        return false;
      }
      writes := writes + FileContribution(files[k], n);
      FolderWritesSnoc(files, k, n);
      AllNamedSnoc(files, k);
    }
    assert files[..|files|] == files;
    return true;
  }

  /**
   * `generateMonthlyOverview`: allocate the empty grid, fill it file by file and line by
   * line, then render the header and the rows; `None` when the run stops with an exception.
   */
  method GenerateMonthlyOverview(folderName: string, folder: seq<DailyFile>) returns (r: Option<seq<string>>)
    ensures r == MonthlyOverview(folderName, folder)
  {
    var yearMonth := ReplaceChar(folderName, '_', '-');
    var startDate := ParseDayText(yearMonth + "-01");
    if startDate.None? {
      return None;
    }
    var ym := YearMonthOf(startDate.value);
    var daysInMonth := DaysIn(ym);
    var headers := HeaderLine(MonthDates(ym));
    var dataMap := new Option<string>[SlotsPerDay, daysInMonth]((_, _) => None);
    var files := ListedFiles(folder);
    var ok := FillGrid(dataMap, files);
    if !ok {
      return None;
    }
    var rows := RenderRows(dataMap, FolderWrites(files, daysInMonth));
    r := Some([headers] + rows);
  }

  lemma NotAllNamed(files: seq<DailyFile>, k: int)
    requires 0 <= k < |files| && FileDate(files[k]).None?
    ensures !AllNamed(files)
  {
  }

  lemma FileContributionOf(f: DailyFile, n: int)
    requires FileDate(f).Some?
    ensures FileContribution(f, n) == FileWrites(DropComments(f.lines), FileDate(f).value.day - 1, n)
  {
  }

  lemma FolderWritesSnoc(files: seq<DailyFile>, k: int, n: int)
    requires 0 <= k < |files|
    ensures FolderWrites(files[..k + 1], n) == FolderWrites(files[..k], n) + FileContribution(files[k], n)
  {
    assert files[..k + 1][..k] == files[..k];
  }

  lemma AllNamedSnoc(files: seq<DailyFile>, k: int)
    requires 0 <= k < |files| && AllNamed(files[..k]) && FileDate(files[k]).Some?
    ensures AllNamed(files[..k + 1])
  {
    var pre := files[..k + 1];
    forall j | 0 <= j < k + 1 ensures FileDate(pre[j]).Some? {
      if j < k { assert pre[j] == files[..k][j]; }
    }
  }

  // ================================================================ properties

  /** The listing keeps exactly the folder's files whose names end in ".csv" or ".CSV". */
  lemma {:induction false} ListedFilesSpec(folder: seq<DailyFile>, f: DailyFile)
    ensures f in ListedFiles(folder) <==> f in folder && Listed(f.name)
  {
    if folder != [] {
      var init := folder[..|folder| - 1];
      ListedFilesSpec(init, f);
      assert folder == init + [folder[|folder| - 1]];
    }
  }

  /** Exactly the leading ';' lines are dropped: every line after the first other line is kept. */
  lemma {:induction false} DropCommentsSpec(lines: seq<string>)
    ensures var k := |lines| - |DropComments(lines)|;
      (forall i :: 0 <= i < k ==> StartsWith(lines[i], ";"))
      && (k < |lines| ==> !StartsWith(lines[k], ";"))
  {
    if lines != [] && StartsWith(lines[0], ";") {
      DropCommentsSpec(lines[1..]);
      var k := |lines| - |DropComments(lines)|;
      forall i | 0 <= i < k ensures StartsWith(lines[i], ";") {
        if i > 0 { assert lines[i] == lines[1..][i - 1]; }
      }
      if k < |lines| { assert lines[k] == lines[1..][k - 1]; }
    }
  }

  /**
   * A line stores at most one cell: the one of its time's slot in its file's column, with
   * the value field's text, ',' turned into '.', or `null` for an empty field.
   */
  lemma LineWriteSpec(line: string, dayIndex: int, n: int)
    ensures var parts := Split(line, ';');
      LineWrite(line, dayIndex, n).Some? <==>
        (|parts| > 1 && !IsBlank(parts[0]) && ParseDateTime(parts[0]).Some?
         && ParseDateTime(parts[0]).value.time.minute % 10 == 0 && 0 <= dayIndex < n)
    ensures var parts := Split(line, ';');
      LineWrite(line, dayIndex, n).Some? ==>
        var w := LineWrite(line, dayIndex, n).value;
        var t := ParseDateTime(parts[0]).value.time;
        0 <= w.slot < SlotsPerDay && SlotTime(w.slot) == t && w.day == dayIndex
        && (w.value.None? <==> parts[1] == [])
        && (w.value.Some? ==> w.value.value == ReplaceChar(parts[1], ',', '.') && ',' !in w.value.value)
  {
    var parts := Split(line, ';');
    if |parts| > 1 {
      ReplaceCharAt(parts[1], ',', '.');
    }
  }

  /** A cell no store reaches stays `null`. */
  lemma {:induction false} LastWriteUntouched(writes: seq<Write>, slot: int, day: int)
    requires forall j :: 0 <= j < |writes| ==> writes[j].slot != slot || writes[j].day != day
    ensures LastWrite(writes, slot, day) == None
  {
    if writes != [] {
      var init := writes[..|writes| - 1];
      assert forall j :: 0 <= j < |init| ==> init[j] == writes[j];
      LastWriteUntouched(init, slot, day);
    }
  }

  /** Later stores win: a cell holds the value of the last store into it. */
  lemma {:induction false} LastWriteWins(writes: seq<Write>, slot: int, day: int, j: int)
    requires 0 <= j < |writes| && writes[j].slot == slot && writes[j].day == day
    requires forall l :: j < l < |writes| ==> writes[l].slot != slot || writes[l].day != day
    ensures LastWrite(writes, slot, day) == writes[j].value
  {
    if j < |writes| - 1 {
      var init := writes[..|writes| - 1];
      assert forall l :: j < l < |init| ==> init[l] == writes[l];
      LastWriteWins(init, slot, day, j);
    }
  }

  /** A store into a slot of the day, in column `dayIndex` of a grid of `n` columns. */
  predicate InColumn(w: Write, dayIndex: int, n: int)
  {
    0 <= w.slot < SlotsPerDay && w.day == dayIndex && 0 <= dayIndex < n
  }

  /** Every store of a file lands inside the grid, in the file's own column. */
  lemma {:induction false} FileWritesInGrid(lines: seq<string>, dayIndex: int, n: int)
    ensures forall w :: w in FileWrites(lines, dayIndex, n) ==> InColumn(w, dayIndex, n)
  {
    if lines != [] {
      var last := LineWrite(lines[|lines| - 1], dayIndex, n);
      FileWritesInGrid(lines[..|lines| - 1], dayIndex, n);
      LineWriteSpec(lines[|lines| - 1], dayIndex, n);
      assert last.Some? ==> InColumn(last.value, dayIndex, n);
    }
  }

  /** A listed file whose name is not a `yy-MM-dd` date stops the run: nothing is written. */
  lemma BadFileNameAborts(folderName: string, folder: seq<DailyFile>, i: int)
    requires 0 <= i < |folder| && Listed(folder[i].name) && FileDate(folder[i]).None?
    ensures MonthlyOverview(folderName, folder) == None
  {
    ListedFilesSpec(folder, folder[i]);
    var files := ListedFiles(folder);
    var k :| 0 <= k < |files| && files[k] == folder[i];
  }

  /** "YY_MM" and "YY-MM" name the same month. */
  lemma FolderNameNormalized(folderName: string, folder: seq<DailyFile>)
    ensures MonthlyOverview(ReplaceChar(folderName, '_', '-'), folder) == MonthlyOverview(folderName, folder)
  {
    ReplaceUnderscoreIdempotent(folderName);
  }

  lemma {:induction false} OverviewRowsAt(writes: seq<Write>, n: nat, count: nat, s: int)
    requires count <= SlotsPerDay && 0 <= s < count
    ensures OverviewRows(writes, n, count)[s] == OverviewRow(writes, s, n)
  {
    var init := OverviewRows(writes, n, count - 1);
    assert OverviewRows(writes, n, count) == init + [OverviewRow(writes, count - 1, n)];
    if s < count - 1 {
      OverviewRowsAt(writes, n, count - 1, s);
      assert (init + [OverviewRow(writes, count - 1, n)])[s] == init[s];
    }
  }

  lemma {:induction false} RowTextsAt(writes: seq<Write>, slot: int, count: nat, d: int)
    requires 0 <= d < count
    ensures RowTexts(writes, slot, count)[d] == CellText(LastWrite(writes, slot, d))
  {
    if d < count - 1 { RowTextsAt(writes, slot, count - 1, d); }
  }

  /**
   * The written overview: the header of the month's dates, then one row per slot in time
   * order, each the slot's time followed by one cell per day of the month, a `null` cell
   * written as nothing.
   */
  lemma OverviewLayout(ym: YearMonth, files: seq<DailyFile>)
    ensures var r := OverviewFor(ym, files);
      var n := DaysIn(ym);
      var writes := FolderWrites(files, n);
      |r| == 1 + SlotsPerDay && r[0] == HeaderLine(MonthDates(ym))
      && forall s :: 0 <= s < SlotsPerDay ==>
           r[1 + s] == Join([FormatTime(SlotTime(s))] + RowTexts(writes, s, n), '\t')
           && forall d :: 0 <= d < n ==> RowTexts(writes, s, n)[d] == CellText(LastWrite(writes, s, d))
  {
    var r := OverviewFor(ym, files);
    var n := DaysIn(ym);
    var writes := FolderWrites(files, n);
    forall s | 0 <= s < SlotsPerDay
      ensures r[1 + s] == Join([FormatTime(SlotTime(s))] + RowTexts(writes, s, n), '\t')
      ensures forall d :: 0 <= d < n ==> RowTexts(writes, s, n)[d] == CellText(LastWrite(writes, s, d))
    {
      OverviewRowsAt(writes, n, SlotsPerDay, s);
      forall d | 0 <= d < n ensures RowTexts(writes, s, n)[d] == CellText(LastWrite(writes, s, d)) {
        RowTextsAt(writes, s, n, d);
      }
    }
  }

  /** The rows' times strictly increase: the rows come out in `toSortedMap` order. */
  lemma SlotTimesAscend(s: int, t: int)
    requires 0 <= s < t < SlotsPerDay
    ensures SlotTime(s).hour < SlotTime(t).hour
      || (SlotTime(s).hour == SlotTime(t).hour && SlotTime(s).minute < SlotTime(t).minute)
  {
  }
}
