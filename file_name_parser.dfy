/**
 * The naming rules of the data directory: daily inputs are `YY-MM-DD.<ext>`, month
 * folders `YY-MM` or `YY_MM`, and each month gets a matrix file `YY_MM.csv` and a
 * summary file `YY-MM-summary.csv`, written next to the daily files.
 */
module FileNameParser {
  import opened Wrappers
  import opened Text
  import opened Calendar

  // ---------------------------------------------------------------- the yy-MM-dd formatter

  /** Exactly two digits, '-', two digits, '-', two digits (`\d{2}-\d{2}-\d{2}`). */
  predicate DayPattern(s: string)
  {
    |s| == 8 && s[2] == '-' && s[5] == '-'
    && AllDigits(s[0..2]) && AllDigits(s[3..5]) && AllDigits(s[6..8])
  }

  /** Exactly two digits, '-', two digits (`\d{2}-\d{2}`). */
  predicate MonthPattern(s: string)
  {
    |s| == 5 && s[2] == '-' && AllDigits(s[0..2]) && AllDigits(s[3..5])
  }

  /**
   * `LocalDate.parse(s, ofPattern("yy-MM-dd"))`: the two-digit year is read with base
   * 2000, and the day resolves SMART (1..31, clamped to the month's last day).
   */
  function ParseDayText(s: string): (r: Option<Date>)
    ensures r.Some? ==> ValidDate(r.value) && 2000 <= r.value.year <= 2099
  {
    if DayPattern(s) then
      Pow10Values();
      DigitsValueBound(s[0..2]);
      ResolveSmartDate(2000 + DigitsValue(s[0..2]), DigitsValue(s[3..5]), DigitsValue(s[6..8]))
    else None
  }

  // ---------------------------------------------------------------- parsing names

  /** Kotlin's `File.nameWithoutExtension` and `substringBeforeLast('.')`. */
  function NameWithoutExtension(name: string): string { SubstringBeforeLast(name, '.') }

  /** Kotlin's `File.extension`. */
  function Extension(name: string): string { SubstringAfterLast(name, '.') }

  /** `parseDate`: the date of a daily file name such as "23-11-01.csv". */
  function ParseDate(filename: string): (r: Option<Date>)
    ensures r.Some? ==> ValidDate(r.value) && 2000 <= r.value.year <= 2099
  {
    var base := NameWithoutExtension(filename);
    if DayPattern(base) then ParseDayText(base) else None
  }

  /** `parseYearMonth`: the month of a folder name such as "23-11" or "23_11". */
  function ParseYearMonth(folderName: string): (r: Option<YearMonth>)
    ensures r.Some? ==> 2000 <= r.value.year <= 2099
  {
    var normalized := ReplaceChar(folderName, '_', '-');
    if MonthPattern(normalized) then
      match ParseDayText(normalized + "-01")
      case None => None
      case Some(date) => Some(YearMonthOf(date))
    else None
  }

  // ---------------------------------------------------------------- output names

  /** Kotlin's `%` on `Int`: the remainder takes the sign of the dividend. */
  function TruncatedRem(a: int, b: int): (r: int)
    requires b > 0
    ensures -b < r < b && (a >= 0 ==> r == a % b)
  {
    if a >= 0 then a % b else -((-a) % b)
  }

  /** `(year % 100).toString().padStart(2, '0')`. */
  function YearDigits(year: int): string
  {
    PadStart(IntToString(TruncatedRem(year, 100)), 2, '0')
  }

  function MonthDigits(ym: YearMonth): (s: string)
    ensures |s| == 2 && AllDigits(s) && DigitsValue(s) == ym.month
  {
    Pow10Values();
    PadNatValue(ym.month, 2);
    PadNat(ym.month, 2)
  }

  /** `getMatrixFileName`: "YY_MM.csv". */
  function MatrixFileName(ym: YearMonth): string
  {
    YearDigits(ym.year) + "_" + MonthDigits(ym) + ".csv"
  }

  /** `getSummaryFileName`: "YY-MM-summary.csv". */
  function SummaryFileName(ym: YearMonth): string
  {
    YearDigits(ym.year) + "-" + MonthDigits(ym) + "-summary" + ".csv"
  }

  // ---------------------------------------------------------------- csv test

  /**
   * `extension.lowercase() == "csv"`: no character outside ASCII lowercases to
   * 'c', 's' or 'v', so the extension is "csv" in any mix of cases.
   */
  predicate IsCsvExtension(ext: string)
  {
    |ext| == 3 && (ext[0] == 'c' || ext[0] == 'C') && (ext[1] == 's' || ext[1] == 'S')
    && (ext[2] == 'v' || ext[2] == 'V')
  }

  /** `isCsvFile`: a regular file whose extension is "csv" ignoring case. */
  predicate IsCsvFile(isFile: bool, name: string)
  {
    isFile && IsCsvExtension(Extension(name))
  }

  // ---------------------------------------------------------------- month label

  const MonthNames: seq<string> := [
    "Januar", "Februar", "M\U{C3}\U{A4}rz", "April", "Mai", "Juni",
    "Juli", "August", "September", "Oktober", "November", "Dezember"
  ]

  /** `formatMonthLabel`: the German month name, a space and the full year. */
  function FormatMonthLabel(ym: YearMonth): string
  {
    MonthNames[ym.month - 1] + " " + IntToString(ym.year)
  }

  // ================================================================ properties

  /** `parseDate` accepts exactly the `YY-MM-DD` base names with month 01..12 and day 01..31. */
  lemma ParseDateAccepts(filename: string)
    ensures var base := NameWithoutExtension(filename);
      ParseDate(filename).Some? <==>
        DayPattern(base) && 1 <= DigitsValue(base[3..5]) <= 12 && 1 <= DigitsValue(base[6..8]) <= 31
  {
  }

  /**
   * The parsed date is 2000+YY, MM and DD, except that a day past the end of the
   * month becomes the month's last day.
   */
  lemma ParseDateValue(filename: string)
    requires ParseDate(filename).Some?
    ensures var base := NameWithoutExtension(filename);
      var d := ParseDate(filename).value;
      var day := DigitsValue(base[6..8]);
      d.year == 2000 + DigitsValue(base[0..2]) && d.month == DigitsValue(base[3..5])
      && d.day == (if day <= LengthOfMonth(d.year, d.month) then day else LengthOfMonth(d.year, d.month))
  {
  }

  /** The positions a `yy-MM-dd` parse reads in a string laid out as `a-b-c`. */
  lemma DayLayout(a: string, b: string, c: string)
    requires |a| == 2 && |b| == 2 && |c| == 2
    ensures var s := a + "-" + b + "-" + c;
      |s| == 8 && s[2] == '-' && s[5] == '-' && s[0..2] == a && s[3..5] == b && s[6..8] == c
  {
  }

  /** "23-02-30.csv" is read as the 28th of February 2023. */
  lemma ParseDateClampsFebruary()
    ensures ParseDate("23-02-30.csv") == Some(Date(2023, 2, 28))
  {
    SplitAtLast("23-02-30", '.', "csv");
    assert "23-02-30.csv" == "23-02-30" + ['.'] + "csv";
    DayLayout("23", "02", "30");
    assert "23-02-30" == "23" + "-" + "02" + "-" + "30";
    assert DigitsValue("23") == 23 by { assert "23"[..1] == "2"; }
    assert DigitsValue("02") == 2 by { assert "02"[..1] == "0"; }
    assert DigitsValue("30") == 30 by { assert "30"[..1] == "3"; }
    assert !IsLeapYear(2023);
  }

  /** The daily file name of a date, as the scanner expects it: "YY-MM-DD". */
  function DayFileBase(d: Date): (s: string)
    requires 2000 <= d.year <= 2099
  {
    PadNat(d.year - 2000, 2) + "-" + PadNat(d.month, 2) + "-" + PadNat(d.day, 2)
  }

  /** Three two-digit fields `yy-MM-dd` naming a real date of the 2000s parse back as it. */
  lemma DayTextParses(yy: string, mm: string, dd: string, d: Date)
    requires |yy| == 2 && |mm| == 2 && |dd| == 2 && AllDigits(yy) && AllDigits(mm) && AllDigits(dd)
    requires ValidDate(d) && d.year == 2000 + DigitsValue(yy) && d.month == DigitsValue(mm) && d.day == DigitsValue(dd)
    ensures ParseDayText(yy + "-" + mm + "-" + dd) == Some(d)
  {
    DayLayout(yy, mm, dd);
  }

  /** Every date of 2000..2099 is recovered from its daily file name, whatever the extension. */
  lemma ParseDateOfDayFile(d: Date, ext: string)
    requires ValidDate(d) && 2000 <= d.year <= 2099 && '.' !in ext
    ensures ParseDate(DayFileBase(d) + "." + ext) == Some(d)
  {
    var yy, mm, dd := PadNat(d.year - 2000, 2), PadNat(d.month, 2), PadNat(d.day, 2);
    Pow10Values();
    PadNatValue(d.year - 2000, 2);
    PadNatValue(d.month, 2);
    PadNatValue(d.day, 2);
    var base := DayFileBase(d);
    DayLayout(yy, mm, dd);
    DayTextParses(yy, mm, dd, d);
    SplitAtLast(base, '.', ext);
    assert base + "." + ext == base + ['.'] + ext;
    assert NameWithoutExtension(base + "." + ext) == base;
  }

  lemma ReplaceUnderscoreIdempotent(s: string)
    ensures ReplaceChar(ReplaceChar(s, '_', '-'), '_', '-') == ReplaceChar(s, '_', '-')
  {
    ReplaceCharAt(s, '_', '-');
    ReplaceCharAt(ReplaceChar(s, '_', '-'), '_', '-');
  }

  /** "YY_MM" and "YY-MM" name the same month: normalising first changes nothing. */
  lemma ParseYearMonthUnderscore(s: string)
    ensures ParseYearMonth(ReplaceChar(s, '_', '-')) == ParseYearMonth(s)
  {
    ReplaceUnderscoreIdempotent(s);
  }

  lemma MonthLayout(n: string)
    requires MonthPattern(n)
    ensures DayPattern(n + "-01") && (n + "-01")[0..2] == n[0..2] && (n + "-01")[3..5] == n[3..5]
    ensures DigitsValue((n + "-01")[6..8]) == 1
  {
    var d := n + "-01";
    assert d[0..2] == n[0..2] && d[3..5] == n[3..5] && d[6..8] == "01";
    assert DigitsValue("01") == 1 by { assert "01"[..1] == "0"; }
  }

  /** `parseYearMonth` accepts exactly `YY-MM`/`YY_MM` with month 01..12, giving (2000+YY, MM). */
  lemma ParseYearMonthAccepts(folderName: string)
    ensures var n := ReplaceChar(folderName, '_', '-');
      ParseYearMonth(folderName).Some? <==> MonthPattern(n) && 1 <= DigitsValue(n[3..5]) <= 12
    ensures var n := ReplaceChar(folderName, '_', '-');
      ParseYearMonth(folderName).Some? ==>
        ParseYearMonth(folderName).value == YearMonth(2000 + DigitsValue(n[0..2]), DigitsValue(n[3..5]))
  {
    var n := ReplaceChar(folderName, '_', '-');
    if MonthPattern(n) {
      MonthLayout(n);
    }
  }

  lemma YearDigitsOfCentury(year: int)
    requires 2000 <= year <= 2099
    ensures YearDigits(year) == PadNat(year - 2000, 2)
    ensures |YearDigits(year)| == 2 && AllDigits(YearDigits(year)) && DigitsValue(YearDigits(year)) == year - 2000
  {
    assert TruncatedRem(year, 100) == year - 2000;
    Pow10Values();
    PadNatValue(year - 2000, 2);
  }

  lemma UnderscoreNormalized(yy: string, mm: string)
    requires |yy| == 2 && |mm| == 2 && AllDigits(yy) && AllDigits(mm)
    ensures ReplaceChar(yy + "_" + mm, '_', '-') == yy + "-" + mm
  {
    var s, n := yy + "_" + mm, yy + "-" + mm;
    var r := ReplaceChar(s, '_', '-');
    ReplaceCharAt(s, '_', '-');
    forall i | 0 <= i < 5 ensures r[i] == n[i] {
      if i < 2 { assert s[i] == yy[i] == n[i]; }
      else if i > 2 { assert s[i] == mm[i - 3] == n[i]; }
    }
  }

  lemma ReplaceAbsent(s: string)
    requires '_' !in s
    ensures ReplaceChar(s, '_', '-') == s
  {
    ReplaceCharAt(s, '_', '-');
  }

  /** A `YY-MM` name with month 01..12 parses as that month of the 2000s. */
  lemma DashMonthParses(n: string)
    requires MonthPattern(n) && '_' !in n && 1 <= DigitsValue(n[3..5]) <= 12
    ensures ParseYearMonth(n) == Some(YearMonth(2000 + DigitsValue(n[0..2]), DigitsValue(n[3..5])))
  {
    ReplaceAbsent(n);
    MonthLayout(n);
  }

  /** The positions a month parse reads in a string laid out as `yy-mm`. */
  lemma MonthNameLayout(yy: string, mm: string)
    requires |yy| == 2 && |mm| == 2 && AllDigits(yy) && AllDigits(mm)
    ensures var n := yy + "-" + mm;
      MonthPattern(n) && '_' !in n && n[0..2] == yy && n[3..5] == mm
  {
    var n := yy + "-" + mm;
    assert n[0..2] == yy && n[3..5] == mm;
    DigitsHaveNo(yy, '_');
    DigitsHaveNo(mm, '_');
  }

  /** A two-digit year and month joined by '_' parse back as that month of the 2000s. */
  lemma UnderscoreMonthParses(yy: string, mm: string)
    requires |yy| == 2 && |mm| == 2 && AllDigits(yy) && AllDigits(mm) && 1 <= DigitsValue(mm) <= 12
    ensures ParseYearMonth(yy + "_" + mm) == Some(YearMonth(2000 + DigitsValue(yy), DigitsValue(mm)))
  {
    var n := yy + "-" + mm;
    UnderscoreNormalized(yy, mm);
    ParseYearMonthUnderscore(yy + "_" + mm);
    MonthNameLayout(yy, mm);
    DashMonthParses(n);
  }

  /** For the years a folder name can denote, the matrix name names its month back. */
  lemma MatrixNameRoundTrip(ym: YearMonth)
    requires 2000 <= ym.year <= 2099
    ensures NameWithoutExtension(MatrixFileName(ym)) == YearDigits(ym.year) + "_" + MonthDigits(ym)
    ensures ParseYearMonth(NameWithoutExtension(MatrixFileName(ym))) == Some(ym)
  {
    var yy, mm := YearDigits(ym.year), MonthDigits(ym);
    YearDigitsOfCentury(ym.year);
    var base := yy + "_" + mm;
    CsvBase(base);
    assert MatrixFileName(ym) == base + ".csv";
    UnderscoreMonthParses(yy, mm);
  }

  /** Different months of 2000..2099 get different matrix files. */
  lemma MatrixNameInjective(a: YearMonth, b: YearMonth)
    requires 2000 <= a.year <= 2099 && 2000 <= b.year <= 2099
    requires MatrixFileName(a) == MatrixFileName(b)
    ensures a == b
  {
    MatrixNameRoundTrip(a);
    MatrixNameRoundTrip(b);
  }

  lemma SummaryLayout(yy: string, mm: string)
    requires |yy| == 2 && |mm| == 2
    ensures var s := yy + "-" + mm + "-summary" + ".csv"; s[0..2] == yy && s[3..5] == mm
  {
  }

  /** Different months of 2000..2099 get different summary files. */
  lemma SummaryNameInjective(a: YearMonth, b: YearMonth)
    requires 2000 <= a.year <= 2099 && 2000 <= b.year <= 2099
    requires SummaryFileName(a) == SummaryFileName(b)
    ensures a == b
  {
    YearDigitsOfCentury(a.year);
    YearDigitsOfCentury(b.year);
    SummaryLayout(YearDigits(a.year), MonthDigits(a));
    SummaryLayout(YearDigits(b.year), MonthDigits(b));
    assert YearDigits(a.year) == YearDigits(b.year) && MonthDigits(a) == MonthDigits(b);
  }

  lemma YearDigitsLength(year: int)
    ensures 2 <= |YearDigits(year)| <= 3
  {
    var r := TruncatedRem(year, 100);
    Pow10Values();
    if r >= 0 {
      NatToStringLength(r, 2);
    } else {
      NatToStringLength(-r, 2);
    }
  }

  /** A matrix file never has the name of a summary file, for any two months. */
  lemma OutputNamesDiffer(a: YearMonth, b: YearMonth)
    ensures MatrixFileName(a) != SummaryFileName(b)
  {
    var m, s := MatrixFileName(a), SummaryFileName(b);
    assert m[|m| - 5] == MonthDigits(a)[1];
    assert s[|s| - 5] == 'y';
  }

  lemma CsvBase(base: string)
    ensures NameWithoutExtension(base + ".csv") == base
  {
    SplitAtLast(base, '.', "csv");
    assert base + ".csv" == base + ['.'] + "csv";
  }

  /** A csv name whose base is not eight characters long is no daily file. */
  lemma ShortCsvNotDaily(base: string)
    requires |base| != 8
    ensures ParseDate(base + ".csv") == None
  {
    CsvBase(base);
  }

  /** Neither output name has the shape of a daily file, so outputs are never read as input. */
  lemma OutputNamesNotDaily(ym: YearMonth)
    ensures ParseDate(MatrixFileName(ym)) == None
    ensures ParseDate(SummaryFileName(ym)) == None
  {
    var yy, mm := YearDigits(ym.year), MonthDigits(ym);
    YearDigitsLength(ym.year);
    var matrixBase, summaryBase := yy + "_" + mm, yy + "-" + mm + "-summary";
    ShortCsvNotDaily(matrixBase);
    ShortCsvNotDaily(summaryBase);
  }

  /** The csv test looks only at the text after the last '.', in any case. */
  lemma IsCsvFileOf(base: string, ext: string)
    requires '.' !in ext
    ensures IsCsvFile(true, base + "." + ext) <==> IsCsvExtension(ext)
    ensures !IsCsvFile(false, base + "." + ext)
  {
    SplitAtLast(base, '.', ext);
    assert base + "." + ext == base + ['.'] + ext;
  }

  /** A name without any '.' has no extension and is never a csv file. */
  lemma NoDotNotCsv(name: string)
    requires '.' !in name
    ensures !IsCsvFile(true, name)
  {
  }

  lemma SpaceFree(s: string)
    requires AllDigits(s)
    ensures ' ' !in s
  {
  }

  lemma MonthNamesDistinct()
    ensures forall i, j :: 0 <= i < j < 12 ==> MonthNames[i] != MonthNames[j]
    ensures forall i :: 0 <= i < 12 ==> ' ' !in MonthNames[i]
  {
  }

  lemma NatToStringInjective(a: nat, b: nat)
    requires NatToString(a) == NatToString(b)
    ensures a == b
  {
    NatToStringValue(a);
    NatToStringValue(b);
  }

  lemma IntToStringInjective(a: int, b: int)
    requires IntToString(a) == IntToString(b)
    ensures a == b
  {
    IntToStringSign(a);
    IntToStringSign(b);
    if a < 0 && b < 0 {
      var sa, sb := NatToString(-a), NatToString(-b);
      assert IntToString(a) == "-" + sa && IntToString(b) == "-" + sb;
      assert ("-" + sa)[1..] == sa && ("-" + sb)[1..] == sb;
      NatToStringInjective(-a, -b);
    } else if a >= 0 && b >= 0 {
      NatToStringInjective(a, b);
    }
  }

  /** The label splits at its one space into the month's name and the full year. */
  lemma MonthLabelParts(ym: YearMonth)
    ensures Split(FormatMonthLabel(ym), ' ') == [MonthNames[ym.month - 1], IntToString(ym.year)]
  {
    var name, year := MonthNames[ym.month - 1], IntToString(ym.year);
    MonthNamesDistinct();
    assert ' ' !in year by {
      if ym.year < 0 { SpaceFree(NatToString(-ym.year)); assert year == "-" + NatToString(-ym.year); }
      else { SpaceFree(NatToString(ym.year)); }
    }
    SplitJoin([name, year], ' ');
    assert Join([name, year], ' ') == Join([name], ' ') + [' '] + year;
  }

  /** Different months have different labels. */
  lemma MonthLabelInjective(a: YearMonth, b: YearMonth)
    requires FormatMonthLabel(a) == FormatMonthLabel(b)
    ensures a == b
  {
    MonthLabelParts(a);
    MonthLabelParts(b);
    MonthNamesDistinct();
    IntToStringInjective(a.year, b.year);
  }
}
