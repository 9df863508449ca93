# SunnyBeam solar aggregation, modelled in Dafny

SunnyBeam data loggers write one CSV file per day. Each file holds ten-minute readings of a
photovoltaic system's energy meter. This project models the pipeline that rolls those files
up into monthly outputs, and proves properties of that model.

The pipeline has these stages:

- **Scan.** The data directory is scanned for daily files, each named `YY-MM-DD.csv`. Files
  may sit directly in the data directory or in a month directory named `YY-MM` or `YY_MM`.
  The files are grouped by month.
- **Process.** A month is processed when one of its two output files is missing, or when a
  daily file is newer than either output. Processing parses each daily file (Latin-1,
  `;`-separated, decimal comma, data after the `DD.MM.YYYY HH:mm` marker line). It builds the
  day summaries: the total as last minus first reading, clamped at zero; the first and last
  readings; the measurement count.
- **Write.** Two files are written per processed month:
  - `YY-MM-summary.csv`, with one `;`-separated line per day;
  - `YY_MM.csv`, a tab-separated matrix of 144 ten-minute slots by every day of the month.
- **Reload.** A month that is up to date is not processed again. Its summary is read back
  from the summary file instead.
- **Dashboard.** All month summaries are sorted by (year, month) into the dashboard document.

A separate legacy converter (`SunnyBeam-Converter.kt`) fills a 144-slot grid for one month
folder, in place, from the raw lines. It then writes that grid as an overview.

Modules, one per source file plus shared infrastructure:

- `Wrappers`, `Text`, `Calendar`, `Decimal`, `Sorting`, `LinkedMaps`, `FileTree` model the
  library behaviour the code relies on:
  - Kotlin string functions;
  - `java.time` parsing and formatting with the SMART resolver;
  - `%.3f` formatting and decimal parsing;
  - stable `sortedBy`;
  - `LinkedHashMap`, as an association list with distinct keys;
  - the file system, as a directory tree of input files plus a map of written outputs.
- `Models`, `FileNameParser`, `DailyCsvParser`, `DataScanner`, `MonthlyExporter`,
  `MonthlyAggregator`, `DashboardExporter`: the core classes.
- `Application`: the processing loop of `Main.kt`.
- `LegacyConverter`: `generateMonthlyOverview`.

Loops in the source are methods with loop invariants, each proved equal to a specification
function:

- `DailyCsvParser.Parse`;
- `DataScanner.ScanAndGroupByMonth`;
- `MonthlyExporter.ExportMatrixWithTimeData`;
- `MonthlyAggregator.ProcessMonth` and `MonthlyAggregator.LoadExistingSummary`;
- `Application.Run`;
- the converter's grid fill.

Properties about those functions are proved as lemmas.

The converter keeps the source's mutable grid as an `array2`. Its methods are proved against
a ghost predicate: every cell holds the last value stored into it.

Where the doc comments and the code disagree, the model follows the code:

- `shouldProcessMonth` promises reprocessing when a daily file is "newer than both" outputs.
  The code compares against the older of the two, so a file newer than either output
  triggers it (`ShouldProcessMonthCases`).
- `formatDecimal` promises a dot separator. The model writes a dot; see Left out.

## Model

| member | source | states |
|---|---|---|
| Calendar.ResolveSmartDate | src/main/kotlin/dev/devbrew/solar/util/FileNameParser.kt:26 | a SMART `yy-MM-dd` parse accepts day 1..31 and month 1..12; a day past the month's end is clamped to its last day |
| Calendar.AtDay | src/main/kotlin/dev/devbrew/solar/export/MonthlyExporter.kt:117 | `yearMonth.atDay(d)` is a valid date of that month with day `d` |
| Calendar.SlotIndex | src/main/kotlin/SunnyBeam-Converter.kt:39-43 | a time has a ten-minute slot iff its minute is a multiple of ten, and the slot's time is that time |
| Calendar.SlotIndexOfSlotTime | src/main/kotlin/dev/devbrew/solar/export/MonthlyExporter.kt:120-124 | slot `i`'s time `(i/6, (i%6)*10)` is found again at index `i` |
| Calendar.ParseIsoDate | src/main/kotlin/dev/devbrew/solar/aggregation/MonthlyAggregator.kt:141 | `LocalDate.parse` yields only valid dates |
| Calendar.IsoDateRoundTrip | src/main/kotlin/dev/devbrew/solar/aggregation/MonthlyAggregator.kt:141 | a date written as ISO text into the summary file parses back to itself |
| Models.ValidValues | src/main/kotlin/dev/devbrew/solar/model/Models.kt:28 | `mapNotNull` keeps at most as many values as records |
| Models.CalculateDailyTotal | src/main/kotlin/dev/devbrew/solar/model/Models.kt:27-37 | total is 0 with fewer than two readings, else `max(last − first, 0)` of the first and last present readings; never negative |
| Models.FirstValueIsFirst | src/main/kotlin/dev/devbrew/solar/model/Models.kt:42 | `firstReading` is the first of the present values, null when there is none |
| Models.LastValueIsLast | src/main/kotlin/dev/devbrew/solar/model/Models.kt:47 | `lastReading` is the last of the present values, null when there is none |
| Models.CountIsValidValues | src/main/kotlin/dev/devbrew/solar/model/Models.kt:52 | `measurementCount` is the number of present values |
| Models.FirstValuePosition | src/main/kotlin/dev/devbrew/solar/model/Models.kt:42 | the first reading comes from a record with only absent values before it; if absent, every value is absent |
| Models.LastValuePosition | src/main/kotlin/dev/devbrew/solar/model/Models.kt:47 | the last reading comes from a record with only absent values after it |
| Models.NoReadings | src/main/kotlin/dev/devbrew/solar/model/Models.kt:42-52 | count 0 iff there is no first reading iff there is no last reading |
| Models.GetDaySummaries | src/main/kotlin/dev/devbrew/solar/model/Models.kt:83-93 | one summary per map entry, in ascending date order |
| Models.DaySummariesFromDays | src/main/kotlin/dev/devbrew/solar/model/Models.kt:83-93 | every summary is the summary of some day of the map |
| Models.DaySummariesCoverDays | src/main/kotlin/dev/devbrew/solar/model/Models.kt:83-93 | every day of the map has its summary in the list |
| Models.DaySummaryDates | src/main/kotlin/dev/devbrew/solar/model/Models.kt:83-93 | with each day under its own date, a date has a summary iff it is a key of the map |
| Models.DaySummariesStrictlyOrdered | src/main/kotlin/dev/devbrew/solar/model/Models.kt:78 | with each day under its own, distinct date, the summaries' dates strictly increase |
| FileNameParser.ParseDayText | src/main/kotlin/dev/devbrew/solar/util/FileNameParser.kt:26 | `yy-MM-dd` parses to a valid date in 2000..2099 |
| FileNameParser.ParseDate | src/main/kotlin/dev/devbrew/solar/util/FileNameParser.kt:20-32 | a parsed file name gives a valid date in 2000..2099 |
| FileNameParser.ParseDateAccepts | src/main/kotlin/dev/devbrew/solar/util/FileNameParser.kt:22-27 | a file name parses iff its base is `dd-dd-dd` with month 1..12 and day 1..31 |
| FileNameParser.ParseDateValue | src/main/kotlin/dev/devbrew/solar/util/FileNameParser.kt:26 | the parsed date is year 2000+yy, month MM, day dd clamped to the month's length |
| FileNameParser.ParseDateClampsFebruary | src/main/kotlin/dev/devbrew/solar/util/FileNameParser.kt:26 | "23-02-30.csv" is read as 2023-02-28 |
| FileNameParser.DayTextParses | src/main/kotlin/dev/devbrew/solar/util/FileNameParser.kt:26 | the two-digit text of a valid date parses back to that date |
| FileNameParser.ParseDateOfDayFile | src/main/kotlin/dev/devbrew/solar/util/FileNameParser.kt:20-32 | a daily file name built from a date, with any dot-free extension, parses to that date |
| FileNameParser.ShortCsvNotDaily | src/main/kotlin/dev/devbrew/solar/util/FileNameParser.kt:25 | a base name that is not 8 characters long is never a daily file |
| FileNameParser.ParseYearMonth | src/main/kotlin/dev/devbrew/solar/util/FileNameParser.kt:38-50 | a parsed folder name gives a month of 2000..2099 |
| FileNameParser.ParseYearMonthAccepts | src/main/kotlin/dev/devbrew/solar/util/FileNameParser.kt:40-45 | a folder name parses iff, with '_' read as '-', it is `dd-dd` with month 1..12, and then to (2000+yy, MM) |
| FileNameParser.ReplaceUnderscoreIdempotent | src/main/kotlin/dev/devbrew/solar/util/FileNameParser.kt:40 | normalising '_' to '-' twice is normalising once |
| FileNameParser.ParseYearMonthUnderscore | src/main/kotlin/dev/devbrew/solar/util/FileNameParser.kt:38-50 | a folder name and its normalised form parse alike |
| FileNameParser.UnderscoreMonthParses | src/main/kotlin/dev/devbrew/solar/util/FileNameParser.kt:38-50 | "YY_MM" parses to (2000+YY, MM) |
| FileNameParser.DashMonthParses | src/main/kotlin/dev/devbrew/solar/util/FileNameParser.kt:38-50 | "YY-MM" parses to (2000+YY, MM) |
| FileNameParser.TruncatedRem | src/main/kotlin/dev/devbrew/solar/util/FileNameParser.kt:57 | Kotlin's `%` truncates: the remainder is below the divisor in magnitude and agrees with `%` for non-negative years |
| FileNameParser.YearDigitsOfCentury | src/main/kotlin/dev/devbrew/solar/util/FileNameParser.kt:57 | years 2000..2099 give two digits whose value is `year − 2000` |
| FileNameParser.MonthDigits | src/main/kotlin/dev/devbrew/solar/util/FileNameParser.kt:58 | the month is written as two digits that read back as the month |
| FileNameParser.MatrixNameRoundTrip | src/main/kotlin/dev/devbrew/solar/util/FileNameParser.kt:56-60 | the matrix file's base name `YY_MM` parses back to its month |
| FileNameParser.MatrixNameInjective | src/main/kotlin/dev/devbrew/solar/util/FileNameParser.kt:56-60 | distinct months of 2000..2099 get distinct matrix file names |
| FileNameParser.SummaryNameInjective | src/main/kotlin/dev/devbrew/solar/util/FileNameParser.kt:66-70 | distinct months of 2000..2099 get distinct summary file names |
| FileNameParser.OutputNamesDiffer | src/main/kotlin/dev/devbrew/solar/util/FileNameParser.kt:56-70 | no matrix file name is a summary file name |
| FileNameParser.OutputNamesNotDaily | src/main/kotlin/dev/devbrew/solar/util/FileNameParser.kt:56-70 | neither output file name is ever taken for a daily file |
| FileNameParser.IsCsvFileOf | src/main/kotlin/dev/devbrew/solar/util/FileNameParser.kt:75-77 | a regular file counts as CSV iff its extension is "csv" in any case; a directory never does |
| FileNameParser.NoDotNotCsv | src/main/kotlin/dev/devbrew/solar/util/FileNameParser.kt:75-77 | a name without a dot is never a CSV file |
| FileNameParser.MonthNamesDistinct | src/main/kotlin/dev/devbrew/solar/util/FileNameParser.kt:84-87 | the twelve month names are distinct and contain no space |
| FileNameParser.MonthLabelParts | src/main/kotlin/dev/devbrew/solar/util/FileNameParser.kt:83-89 | the label splits at its space into the month's name and the year |
| FileNameParser.MonthLabelInjective | src/main/kotlin/dev/devbrew/solar/util/FileNameParser.kt:83-89 | distinct months get distinct labels |
| DailyCsvParser.Parse | src/main/kotlin/dev/devbrew/solar/input/DailyCsvParser.kt:35-91 | null iff no line yields a record; otherwise the day of the expected date with exactly the records of the lines, in order |
| DailyCsvParser.LineRecord | src/main/kotlin/dev/devbrew/solar/input/DailyCsvParser.kt:44-54 | blank lines, the marker line and lines before the marker yield no record |
| DailyCsvParser.NoRecordsBeforeSentinel | src/main/kotlin/dev/devbrew/solar/input/DailyCsvParser.kt:47-54 | a file without the marker line yields no records |
| DailyCsvParser.DataLineAccepted | src/main/kotlin/dev/devbrew/solar/input/DailyCsvParser.kt:56-76 | a data line yields a record iff it has two fields, a non-blank first field and a parsable trimmed timestamp; the record holds that timestamp and the parsed value |
| DailyCsvParser.BlankValueIsAbsent | src/main/kotlin/dev/devbrew/solar/input/DailyCsvParser.kt:63-64 | a blank value field is recorded as absent |
| DailyCsvParser.AtMostOneRecordPerLine | src/main/kotlin/dev/devbrew/solar/input/DailyCsvParser.kt:43-77 | no more records than lines |
| DailyCsvParser.SkippedLineIrrelevant | src/main/kotlin/dev/devbrew/solar/input/DailyCsvParser.kt:72-75 | a rejected line, whose error is caught, can be removed without changing the records |
| DataScanner.ScanRoot | src/main/kotlin/dev/devbrew/solar/input/DataScanner.kt:29-38 | the first pass groups the root's daily files by month |
| DataScanner.ScanMonthDirectory | src/main/kotlin/dev/devbrew/solar/input/DataScanner.kt:45-53 | a month directory adds its own month's daily files to the grouping |
| DataScanner.ScanDirectories | src/main/kotlin/dev/devbrew/solar/input/DataScanner.kt:41-56 | the second pass adds every month directory's files |
| DataScanner.SortListsSpec | src/main/kotlin/dev/devbrew/solar/input/DataScanner.kt:59-61 | every month keeps its place and its files, now ordered by name, files of equal name in discovery order |
| DataScanner.SortEachList | src/main/kotlin/dev/devbrew/solar/input/DataScanner.kt:59-61 | the sorting loop computes exactly the sorted lists |
| DataScanner.ScanAndGroupByMonth | src/main/kotlin/dev/devbrew/solar/input/DataScanner.kt:25-64 | the scan's result is the specified grouping, sorted by month |
| DataScanner.GroupContents | src/main/kotlin/dev/devbrew/solar/input/DataScanner.kt:26-49 | `getOrPut(...).add` yields distinct months, and each month maps to exactly its files in discovery order |
| DataScanner.GroupEntry | src/main/kotlin/dev/devbrew/solar/input/DataScanner.kt:26-49 | every group is non-empty and holds exactly its month's files |
| DataScanner.GroupHasMonth | src/main/kotlin/dev/devbrew/solar/input/DataScanner.kt:26-49 | a month is present iff some file belongs to it |
| DataScanner.RootCandidatesBelong | src/main/kotlin/dev/devbrew/solar/input/DataScanner.kt:29-38 | every root file taken is a CSV daily file of the month it is filed under |
| DataScanner.ChildCandidatesBelong | src/main/kotlin/dev/devbrew/solar/input/DataScanner.kt:45-53 | a month directory contributes only daily files of that very month |
| DataScanner.DirCandidatesBelong | src/main/kotlin/dev/devbrew/solar/input/DataScanner.kt:41-56 | every file taken from a sub-directory belongs to its month |
| DataScanner.CandidatesBelong | src/main/kotlin/dev/devbrew/solar/input/DataScanner.kt:28-56 | every file found, in either pass, belongs to its month |
| DataScanner.FilesOfBelong | src/main/kotlin/dev/devbrew/solar/input/DataScanner.kt:34-49 | a month's collected files all belong to it |
| DataScanner.ScanMonth | src/main/kotlin/dev/devbrew/solar/input/DataScanner.kt:25-64 | each group of the result holds its month's files sorted by name, is non-empty, and holds only files of that month |
| DataScanner.ScanMonthsAscend | src/main/kotlin/dev/devbrew/solar/input/DataScanner.kt:63 | the months of the result are distinct and strictly ascending |
| DataScanner.ScanHasMonth | src/main/kotlin/dev/devbrew/solar/input/DataScanner.kt:25-64 | a month appears in the result iff some daily file of it was found |
| Decimal.ParseUnsignedDecimal | src/main/kotlin/dev/devbrew/solar/aggregation/MonthlyAggregator.kt:142-144 | unsigned decimal text reads as a non-negative number |
| Decimal.ParseInt | src/main/kotlin/dev/devbrew/solar/aggregation/MonthlyAggregator.kt:145 | `toInt` yields only 32-bit values |
| Decimal.ParseIntRoundTrip | src/main/kotlin/dev/devbrew/solar/aggregation/MonthlyAggregator.kt:145 | every 32-bit count written as text reads back |
| Decimal.Round3 | src/main/kotlin/dev/devbrew/solar/export/MonthlyExporter.kt:171 | `%.3f` moves a value by at most half a thousandth and keeps its sign |
| Decimal.Format3RoundTrip | src/main/kotlin/dev/devbrew/solar/export/MonthlyExporter.kt:171 | `%.3f` text reads back as the value rounded to thousandths |
| Decimal.Round3Idempotent | src/main/kotlin/dev/devbrew/solar/export/MonthlyExporter.kt:171 | rounding a rounded value changes nothing |
| Decimal.Round3Exact | src/main/kotlin/dev/devbrew/solar/export/MonthlyExporter.kt:171 | a whole number of thousandths survives formatting exactly |
| MonthlyExporter.FormatDecimal | src/main/kotlin/dev/devbrew/solar/export/MonthlyExporter.kt:169-175 | the text is empty iff the value is null |
| MonthlyExporter.FormatDecimalHasNo | src/main/kotlin/dev/devbrew/solar/export/MonthlyExporter.kt:169-175 | formatted values contain only digits, '.' and '-', so never a field separator |
| MonthlyExporter.FormatDecimalRoundTrip | src/main/kotlin/dev/devbrew/solar/export/MonthlyExporter.kt:169-175 | a formatted value reads back as the value rounded to thousandths |
| MonthlyExporter.SummaryRows | src/main/kotlin/dev/devbrew/solar/export/MonthlyExporter.kt:29-37 | one row per day summary |
| MonthlyExporter.SummaryRowsAt | src/main/kotlin/dev/devbrew/solar/export/MonthlyExporter.kt:30-36 | row `i` is the row of summary `i` |
| MonthlyExporter.SummaryRowFields | src/main/kotlin/dev/devbrew/solar/export/MonthlyExporter.kt:31-35 | a row splits at ';' into exactly its five fields |
| MonthlyExporter.SummaryLines | src/main/kotlin/dev/devbrew/solar/export/MonthlyExporter.kt:23-39 | the header plus one line per summary |
| MonthlyExporter.ExportSummary | src/main/kotlin/dev/devbrew/solar/export/MonthlyExporter.kt:23-39 | the writing loop produces the header and then the specified rows |
| MonthlyExporter.SummaryLinesOrder | src/main/kotlin/dev/devbrew/solar/export/MonthlyExporter.kt:26-37 | header first, then the summaries' rows in ascending date order, a permutation of the input |
| MonthlyExporter.HeaderAndRows | src/main/kotlin/dev/devbrew/solar/export/MonthlyExporter.kt:26-37 | line `i+1` after the header is the row of summary `i` |
| MonthlyExporter.MonthDatesSpec | src/main/kotlin/dev/devbrew/solar/export/MonthlyExporter.kt:116-117 | a date is a column of the month iff it is a real date of that month |
| MonthlyExporter.MonthDatesAscend | src/main/kotlin/dev/devbrew/solar/export/MonthlyExporter.kt:116-117 | the columns' dates strictly increase |
| MonthlyExporter.SlotsUpTo | src/main/kotlin/dev/devbrew/solar/export/MonthlyExporter.kt:120-124 | the first `n` ten-minute slots |
| MonthlyExporter.SlotsUpToAt | src/main/kotlin/dev/devbrew/solar/export/MonthlyExporter.kt:120-124 | slot `i` is `(i/6):(i%6)*10` |
| MonthlyExporter.TimeSlots | src/main/kotlin/dev/devbrew/solar/export/MonthlyExporter.kt:120-124 | 144 slots |
| MonthlyExporter.BuildTimeSlots | src/main/kotlin/dev/devbrew/solar/export/MonthlyExporter.kt:120-124 | the slot loop yields the 144 slots |
| MonthlyExporter.BuildDataMatrix | src/main/kotlin/dev/devbrew/solar/export/MonthlyExporter.kt:127-134 | the nested record loop builds the specified (date, time) matrix |
| MonthlyExporter.BuildLine | src/main/kotlin/dev/devbrew/solar/export/MonthlyExporter.kt:138-144 | appending "\t" + field after the first field builds the tab-joined line |
| MonthlyExporter.FillDayLookup | src/main/kotlin/dev/devbrew/solar/export/MonthlyExporter.kt:130-133 | after a day's records, a cell of that day holds its time's last record value; other cells keep theirs |
| MonthlyExporter.FillAllCell | src/main/kotlin/dev/devbrew/solar/export/MonthlyExporter.kt:129-134 | a cell of the matrix is the last value recorded at that date and time |
| MonthlyExporter.OffGridIrrelevant | src/main/kotlin/dev/devbrew/solar/export/MonthlyExporter.kt:148-158 | records at a time that is not a slot have no effect on any slot's cell |
| MonthlyExporter.RowCells | src/main/kotlin/dev/devbrew/solar/export/MonthlyExporter.kt:151-158 | one cell per date |
| MonthlyExporter.RowCellsAt | src/main/kotlin/dev/devbrew/solar/export/MonthlyExporter.kt:151-158 | cell `j` is the formatted matrix value of date `j`, empty when absent |
| MonthlyExporter.RowLines | src/main/kotlin/dev/devbrew/solar/export/MonthlyExporter.kt:148-161 | one row per slot |
| MonthlyExporter.RowLinesAt | src/main/kotlin/dev/devbrew/solar/export/MonthlyExporter.kt:148-161 | row `i` is the row of slot `i` |
| MonthlyExporter.MatrixLines | src/main/kotlin/dev/devbrew/solar/export/MonthlyExporter.kt:136-162 | a header plus 144 rows |
| MonthlyExporter.ExportMatrixWithTimeData | src/main/kotlin/dev/devbrew/solar/export/MonthlyExporter.kt:110-163 | the writing loops produce exactly the specified matrix lines, 145 of them |
| MonthlyExporter.HeaderSplits | src/main/kotlin/dev/devbrew/solar/export/MonthlyExporter.kt:138-144 | the header splits at tabs into its fields |
| MonthlyExporter.RowSplits | src/main/kotlin/dev/devbrew/solar/export/MonthlyExporter.kt:149-159 | a row splits at tabs into its fields |
| MonthlyExporter.RowFieldsShape | src/main/kotlin/dev/devbrew/solar/export/MonthlyExporter.kt:149-159 | a row is the slot's time and then one formatted value per date |
| MonthlyExporter.MatrixHeader | src/main/kotlin/dev/devbrew/solar/export/MonthlyExporter.kt:136-145 | 145 lines; the header's columns are "Uhrzeit" and every date of the month as dd.MM.yyyy |
| MonthlyExporter.MatrixLineAt | src/main/kotlin/dev/devbrew/solar/export/MonthlyExporter.kt:148-161 | line `i+1` is the row of slot `i` over all dates of the month |
| MonthlyExporter.MatrixRow | src/main/kotlin/dev/devbrew/solar/export/MonthlyExporter.kt:148-161 | row `i`'s columns are HH:mm of slot `i`, then for day `j` the formatted last value recorded at that day and slot |
| MonthlyAggregator.NewerFiles | src/main/kotlin/dev/devbrew/solar/aggregation/MonthlyAggregator.kt:44 | the filter keeps at most all files |
| MonthlyAggregator.NewerFilesExist | src/main/kotlin/dev/devbrew/solar/aggregation/MonthlyAggregator.kt:44-45 | some file is newer iff the filtered list is non-empty |
| MonthlyAggregator.ShouldProcessMonthCases | src/main/kotlin/dev/devbrew/solar/aggregation/MonthlyAggregator.kt:29-51 | true when an output is missing; with both present, true iff some daily file is newer than the matrix or than the summary |
| MonthlyAggregator.ProcessMonth | src/main/kotlin/dev/devbrew/solar/aggregation/MonthlyAggregator.kt:64-97 | the loop builds the specified result; the day map has distinct dates and maps each date to the day of the last file of that date that parsed |
| MonthlyAggregator.DayMapDistinct | src/main/kotlin/dev/devbrew/solar/aggregation/MonthlyAggregator.kt:65-77 | the day map never holds a date twice |
| MonthlyAggregator.DayMapGet | src/main/kotlin/dev/devbrew/solar/aggregation/MonthlyAggregator.kt:68-77 | a later file of the same date replaces the earlier one |
| MonthlyAggregator.DayMapDates | src/main/kotlin/dev/devbrew/solar/aggregation/MonthlyAggregator.kt:69-73 | each day is stored under its own date |
| MonthlyAggregator.DayMapFromFiles | src/main/kotlin/dev/devbrew/solar/aggregation/MonthlyAggregator.kt:68-77 | every stored day was parsed from one of the files |
| MonthlyAggregator.SumTotalsNonNegative | src/main/kotlin/dev/devbrew/solar/aggregation/MonthlyAggregator.kt:84 | a sum of non-negative totals is non-negative |
| MonthlyAggregator.ProcessedMonthSummary | src/main/kotlin/dev/devbrew/solar/aggregation/MonthlyAggregator.kt:79-96 | one summary per stored day, exactly the map's dates, strictly ascending; the month total is their sum and not negative; names and label are the month's |
| MonthlyAggregator.ExportMonth | src/main/kotlin/dev/devbrew/solar/aggregation/MonthlyAggregator.kt:103-115 | both files are written as specified |
| MonthlyAggregator.ExportedMonthFresh | src/main/kotlin/dev/devbrew/solar/aggregation/MonthlyAggregator.kt:103-115 | the summary and matrix files hold their lines stamped `now`; all other files are unchanged; with no daily file newer than `now`, the month is up to date |
| MonthlyAggregator.ParseSummaryLine | src/main/kotlin/dev/devbrew/solar/aggregation/MonthlyAggregator.kt:135-158 | the per-line body yields the specified entry, or none |
| MonthlyAggregator.ParsedSummaries | src/main/kotlin/dev/devbrew/solar/aggregation/MonthlyAggregator.kt:134-160 | at most one summary per data line |
| MonthlyAggregator.LoadExistingSummary | src/main/kotlin/dev/devbrew/solar/aggregation/MonthlyAggregator.kt:121-179 | null for a missing file or fewer than two lines; otherwise the specified summary, with at least one day, fewer days than lines, and the total the sum of the days' totals |
| MonthlyAggregator.MalformedLineSkipped | src/main/kotlin/dev/devbrew/solar/aggregation/MonthlyAggregator.kt:156-158 | a line that fails to parse can be removed without changing the result |
| MonthlyAggregator.ReadingRoundTrip | src/main/kotlin/dev/devbrew/solar/aggregation/MonthlyAggregator.kt:143-144 | a written reading reads back rounded to thousandths, and null stays null |
| MonthlyAggregator.SummaryRowTrimmed | src/main/kotlin/dev/devbrew/solar/aggregation/MonthlyAggregator.kt:135-136 | a written summary row is non-empty and unchanged by `trim` |
| MonthlyAggregator.SummaryRowReads | src/main/kotlin/dev/devbrew/solar/aggregation/MonthlyAggregator.kt:135-158 | a written summary row reads back as the summary, its values rounded to thousandths |
| MonthlyAggregator.RowsReadBack | src/main/kotlin/dev/devbrew/solar/aggregation/MonthlyAggregator.kt:134-160 | the written rows read back as the rounded summaries, in order |
| MonthlyAggregator.LoadExportedSummary | src/main/kotlin/dev/devbrew/solar/aggregation/MonthlyAggregator.kt:121-179 | loading a written summary file gives the month's summary of the rounded, date-sorted days, or null when there were no days |
| MonthlyAggregator.MapDayReloadable | src/main/kotlin/dev/devbrew/solar/aggregation/MonthlyAggregator.kt:71-73 | a stored day's summary has a valid 4-digit-year date and a 32-bit count |
| MonthlyAggregator.ProcessedDaysReloadable | src/main/kotlin/dev/devbrew/solar/aggregation/MonthlyAggregator.kt:83 | every day summary of a processed month can be written and read back |
| MonthlyAggregator.ProcessedMonthReloads | src/main/kotlin/dev/devbrew/solar/aggregation/MonthlyAggregator.kt:103-179 | after export, loading gives back the processed summary with values rounded to thousandths, or null for a month without days |
| DashboardExporter.MonthKeyOrder | src/main/kotlin/dev/devbrew/solar/export/DashboardExporter.kt:27 | the key order is `compareBy(year, month)` |
| DashboardExporter.DashboardOf | src/main/kotlin/dev/devbrew/solar/export/DashboardExporter.kt:25-29 | the months are a stable permutation of the input in (year, month) order; `generatedAt` as given |
| DashboardExporter.DashboardChronological | src/main/kotlin/dev/devbrew/solar/export/DashboardExporter.kt:27 | dashboard months ascend by year, then by month |
| DashboardExporter.DashboardKeepsOrderedMonths | src/main/kotlin/dev/devbrew/solar/export/DashboardExporter.kt:27 | months already in order are kept as given |
| Sorting.SortBy | src/main/kotlin/dev/devbrew/solar/model/Models.kt:78 | the sort is a permutation, ordered by key, and stable for equal keys |
| Sorting.InSorted | src/main/kotlin/dev/devbrew/solar/model/Models.kt:78 | sorting keeps exactly the same elements |
| Sorting.SortDistinctKeys | src/main/kotlin/dev/devbrew/solar/model/Models.kt:78 | distinct keys stay distinct and strictly ascend after sorting |
| Sorting.SortSorted | src/main/kotlin/dev/devbrew/solar/export/DashboardExporter.kt:27 | an already ordered list is left unchanged |
| LinkedMaps.Put | src/main/kotlin/dev/devbrew/solar/aggregation/MonthlyAggregator.kt:73 | `map[k] = v` grows the map only for a new key, and keeps every existing key in its place |
| LinkedMaps.GetPut | src/main/kotlin/dev/devbrew/solar/aggregation/MonthlyAggregator.kt:73 | after `map[k] = v`, `k` maps to `v` and every other key is unchanged |
| LinkedMaps.PutDistinct | src/main/kotlin/dev/devbrew/solar/aggregation/MonthlyAggregator.kt:65 | storing keeps the keys distinct |
| Application.HandleMonth | src/main/kotlin/dev/devbrew/solar/Main.kt:52-71 | the loop body computes the specified month step |
| Application.Run | src/main/kotlin/dev/devbrew/solar/Main.kt:28-81 | the main procedure computes the specified run |
| Application.NoDailyFilesNoDashboard | src/main/kotlin/dev/devbrew/solar/Main.kt:34-40 | no dashboard iff the scan finds nothing, and then nothing is written |
| Application.MonthStepMonth | src/main/kotlin/dev/devbrew/solar/Main.kt:59-71 | a month step contributes only a summary of its own month |
| Application.RollupAscending | src/main/kotlin/dev/devbrew/solar/Main.kt:49-73 | at most one summary per month, in the months' order |
| Application.DashboardInScanOrder | src/main/kotlin/dev/devbrew/solar/Main.kt:75-81 | the dashboard receives exactly the summaries collected by the loop |
| Application.ForcedRollup | src/main/kotlin/dev/devbrew/solar/Main.kt:52-63 | with `force`, every month is processed regardless of the outputs |
| Application.ShouldProcessLocal | src/main/kotlin/dev/devbrew/solar/aggregation/MonthlyAggregator.kt:29-51 | the decision depends only on the month's own two output files |
| Application.OwnNames | src/main/kotlin/dev/devbrew/solar/util/FileNameParser.kt:56-70 | different months of 2000..2099 never share an output file name |
| Application.MonthStepLocal | src/main/kotlin/dev/devbrew/solar/Main.kt:59-71 | a month step leaves every other month's output files untouched |
| Application.StepLeavesUpToDate | src/main/kotlin/dev/devbrew/solar/Main.kt:59-71 | after its step, with daily files no newer than `now`, a month is up to date |
| Application.StepKeepsOthersUpToDate | src/main/kotlin/dev/devbrew/solar/Main.kt:59-71 | a step never makes another up-to-date month stale |
| Application.RollupLeavesUpToDate | src/main/kotlin/dev/devbrew/solar/Main.kt:49-73 | after a run over scanned months, every month is up to date |
| Application.UpToDateRollup | src/main/kotlin/dev/devbrew/solar/Main.kt:64-71 | when every month is up to date, a run writes nothing and reloads every summary |
| Application.ScanGivesScannedMonths | src/main/kotlin/dev/devbrew/solar/input/DataScanner.kt:25-64 | the scan's months are distinct and of 2000..2099 |
| Application.RerunReloads | src/main/kotlin/dev/devbrew/solar/Main.kt:49-81 | a second run without `force` changes no file, and its dashboard is built from the summaries reloaded from the first run's files |
| Application.ReloadedLocal | src/main/kotlin/dev/devbrew/solar/aggregation/MonthlyAggregator.kt:121-125 | reading months back depends only on their own summary files |
| Application.ForcedRollupReloads | src/main/kotlin/dev/devbrew/solar/Main.kt:49-71 | after a forced rollup of distinct months of this century, reading them back gives the regenerated summaries rounded to thousandths, months without a day left out |
| Application.ForcedRunDashboard | src/main/kotlin/dev/devbrew/solar/Main.kt:52-81 | a forced run's dashboard holds every month's regenerated summary in scan order, a month without a day included |
| Application.ForcedRunThenRerun | src/main/kotlin/dev/devbrew/solar/Main.kt:49-81 | a later run without `force` after a forced one changes no file and holds the reloaded summaries, so a month without a day drops out |
| LegacyConverter.ListedFiles | src/main/kotlin/SunnyBeam-Converter.kt:45 | the listing keeps at most all files |
| LegacyConverter.ListedFilesSpec | src/main/kotlin/SunnyBeam-Converter.kt:45 | a file is listed iff it is in the folder and its name ends in ".csv" or ".CSV" |
| LegacyConverter.DropComments | src/main/kotlin/SunnyBeam-Converter.kt:52 | `dropWhile` leaves a suffix of the lines |
| LegacyConverter.DropCommentsSpec | src/main/kotlin/SunnyBeam-Converter.kt:52 | exactly the leading run of ';' lines is dropped |
| LegacyConverter.LineWriteSpec | src/main/kotlin/SunnyBeam-Converter.kt:54-66 | a line stores a value iff it has two fields, a non-blank first field, a parsable timestamp on a ten-minute mark, and a column inside the grid; the store goes to that slot's row in the file's column; an empty field stores null; otherwise the text is stored with ',' turned into '.' |
| LegacyConverter.LastWriteSnoc | src/main/kotlin/SunnyBeam-Converter.kt:61 | a store changes its own cell and no other |
| LegacyConverter.LastWriteWins | src/main/kotlin/SunnyBeam-Converter.kt:61 | a cell holds the value of the last store into it |
| LegacyConverter.LastWriteUntouched | src/main/kotlin/SunnyBeam-Converter.kt:42 | a cell no store reaches stays null |
| LegacyConverter.FileWritesInGrid | src/main/kotlin/SunnyBeam-Converter.kt:50-61 | every store of a file lands in a slot row and in the file's own column |
| LegacyConverter.BadFileNameAborts | src/main/kotlin/SunnyBeam-Converter.kt:49 | a listed file whose name is not a `yy-MM-dd` date stops the run with no output |
| LegacyConverter.FolderNameNormalized | src/main/kotlin/SunnyBeam-Converter.kt:18 | "YY_MM" and "YY-MM" folders give the same overview |
| LegacyConverter.RowTexts | src/main/kotlin/SunnyBeam-Converter.kt:74 | one cell text per day |
| LegacyConverter.RowTextsAt | src/main/kotlin/SunnyBeam-Converter.kt:74 | cell `d` of a row is its slot's last stored value for day `d`, empty for null |
| LegacyConverter.OverviewRows | src/main/kotlin/SunnyBeam-Converter.kt:72-76 | one row per slot |
| LegacyConverter.OverviewRowsAt | src/main/kotlin/SunnyBeam-Converter.kt:72-76 | row `s` is slot `s`'s row |
| LegacyConverter.OverviewLayout | src/main/kotlin/SunnyBeam-Converter.kt:70-77 | 145 lines: the header of the month's dates, then per slot its time and, for each day, the text of the day's cell |
| LegacyConverter.SlotTimesAscend | src/main/kotlin/SunnyBeam-Converter.kt:72 | the rows come out in ascending time order |
| LegacyConverter.ApplyLine | src/main/kotlin/SunnyBeam-Converter.kt:55-61 | handling one line updates the grid by exactly that line's store |
| LegacyConverter.ApplyLines | src/main/kotlin/SunnyBeam-Converter.kt:54-67 | the line loop applies the file's stores in order |
| LegacyConverter.ApplyFile | src/main/kotlin/SunnyBeam-Converter.kt:47-67 | a file with a date name applies its stores; otherwise it fails |
| LegacyConverter.FillGrid | src/main/kotlin/SunnyBeam-Converter.kt:45-68 | the file loop succeeds iff every listed name is a date, and then every cell holds its last stored value |
| LegacyConverter.RenderRows | src/main/kotlin/SunnyBeam-Converter.kt:72-76 | rendering the filled grid gives exactly the specified rows |
| LegacyConverter.GenerateMonthlyOverview | src/main/kotlin/SunnyBeam-Converter.kt:25-79 | the in-place procedure produces exactly the specified overview, or nothing when it throws |

## Left out

- **Files and encodings.**
  - Real file I/O is not modelled: inputs are a directory-tree value and outputs are a returned map.
  - Latin-1 decoding is not modelled.
  - The caught exceptions of failed reads and writes are not modelled.
  - Files are lists of lines.
  - A file's modification time is an integer.
  - Each write is stamped with `now`, which is a parameter, as is the dashboard's `generatedAt`, since the clock is outside the model.
- **JSON.** The JSON encoding of `dashboard-data.json` is not modelled. The dashboard is the returned `DashboardData` value.
- **Outside the core.** Logging, the command-line configuration, the web dashboard and the console prompt of the converter's `main` are not modelled. The folder-name normalisation of that `main` is folded into `GenerateMonthlyOverview`, which returns the overview's lines instead of writing them.
- **exportMatrix.** No caller uses the summary-only `exportMatrix`, so it is not modelled.
- **Numbers.**
  - Kotlin doubles are modelled as exact reals, so there is no floating-point rounding in sums or differences.
  - `%.3f` is modelled as half-up rounding with a '.' separator. The default locale's separator, which the code does not fix, is not modelled.
  - `toDouble`/`toDoubleOrNull` are modelled as an optional sign, digits, and an optional '.' with digits. Exponents, `NaN`, `Infinity`, hexadecimal floats and surrounding whitespace, which Java also accepts, are not.
  - The decimal parser needs digits on both sides of a '.'. Java also accepts a missing side, as in "12." and ".5", and a trailing `f`, `F`, `d` or `D`. So a daily value written "12," reads as 12.0 in the program but as an absent reading in `DailyCsvParser`.
  - `Calendar.ParseIsoDate` accepts exactly four year digits. The ISO parser of `LocalDate.parse` (MonthlyAggregator.kt:141) also accepts a signed year or one of five or more digits, as in "-0001-01-01" and "+10000-01-01". The model rejects those lines of a summary file.
  - `Calendar.ParseDateTime` reads the `yyyy` field of `dd.MM.yyyy HH:mm` as exactly four digits. Java also accepts '+' followed by five or more digits there, which the model rejects.
  - `toInt` is modelled as an optional sign and ASCII digits within 32 bits.
- **Directory listings.**
  - The order `listFiles` returns is taken as given, in the scanner and in the converter.
  - The converter's listing treats every entry as a file, so a directory named `*.csv` is not modelled.
  - The scanner looks one directory level deep, like the code.
- **Scan** (`DataScanner.Scan`): a month directory's name is matched with `parseYearMonth`. A failure to read a directory is not modelled.
- **Preconditions of the reload lemmas.** `MapDayReloadable`, `ProcessedDaysReloadable`, `ProcessedMonthReloads`, `ForcedRollupReloads` and `ForcedRunThenRerun` assume a daily file has at most 2³¹−1 lines, so that a measurement count fits `toInt`.
- **Rounded round trip.** `LoadExportedSummary` states the round trip up to the rounding of `%.3f`. The exact round trip does not hold.
