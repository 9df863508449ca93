/**
 * The reader of one SunnyBeam daily file. The file opens with metadata lines; the line
 * starting with "DD.MM.YYYY HH:mm" marks the start of the data, after which every line
 * `dd.MM.yyyy HH:mm;<kWh>` with a decimal comma gives one reading. Lines that do not
 * parse are skipped one by one.
 */
module DailyCsvParser {
  import opened Wrappers
  import opened Text
  import opened Calendar
  import opened Decimal
  import opened Models

  const Sentinel: string := "DD.MM.YYYY HH:mm"

  predicate IsSentinel(line: string) { StartsWith(line, Sentinel) }

  /** The value field: absent when blank, otherwise read with ',' as the decimal separator. */
  function ParseValue(field: string): Option<real>
  {
    var t := Trim(field);
    if t == [] then None else ParseDecimal(ReplaceChar(t, ',', '.'))
  }

  /** The record a line of the data section yields, if any. */
  function DataLineRecord(line: string): Option<MeasurementRecord>
  {
    var parts := Split(line, ';');
    if |parts| >= 2 && !IsBlank(parts[0]) then
      match ParseDateTime(Trim(parts[0]))
      case None => None
      case Some(timestamp) => Some(MeasurementRecord(timestamp, ParseValue(parts[1])))
    else None
  }

  /** What the parser does with one line, given whether the data section has started. */
  function LineRecord(started: bool, line: string): (r: Option<MeasurementRecord>)
    ensures IsBlank(line) || IsSentinel(line) || !started ==> r.None?
  {
    if IsBlank(line) || IsSentinel(line) || !started then None else DataLineRecord(line)
  }

  /** Whether some line is a sentinel line: the parser's `dataStarted` after these lines. */
  predicate SentinelSeen(lines: seq<string>)
  {
    lines != [] && (SentinelSeen(lines[..|lines| - 1]) || IsSentinel(lines[|lines| - 1]))
  }

  /** The records of a file: what each line yields, in line order. */
  function Records(lines: seq<string>): seq<MeasurementRecord>
  {
    if lines == [] then []
    else
      var init := lines[..|lines| - 1];
      Records(init) + OptionToSeq(LineRecord(SentinelSeen(init), lines[|lines| - 1]))
  }

  /** The day a file describes: its records under the expected date, or nothing without records. */
  function DayOf(lines: seq<string>, expectedDate: Date): Option<DayData>
  {
    var records := Records(lines);
    if records == [] then None else Some(DayData(expectedDate, records))
  }

  lemma SentinelNotBlank(line: string)
    requires IsSentinel(line)
    ensures !IsBlank(line)
  {
    assert line[0] == Sentinel[0];
  }

  lemma SentinelSeenSnoc(lines: seq<string>, line: string)
    ensures SentinelSeen(lines + [line]) <==> SentinelSeen(lines) || IsSentinel(line)
  {
    assert (lines + [line])[..|lines|] == lines;
  }

  /**
   * `parse`: reads the lines in order, switching to the data section at the first
   * sentinel line; `None` when no line gave a record, otherwise the records under
   * `expectedDate`.
   */
  method Parse(lines: seq<string>, expectedDate: Date) returns (r: Option<DayData>)
    ensures r == DayOf(lines, expectedDate)
    ensures r.None? <==> Records(lines) == []
    ensures r.Some? ==> r.value.date == expectedDate && r.value.records == Records(lines)
  {
    var records: seq<MeasurementRecord> := [];
    var dataStarted := false;
    for i := 0 to |lines|
      invariant records == Records(lines[..i])
      invariant dataStarted == SentinelSeen(lines[..i])
    {
      var line := lines[i];
      assert lines[..i + 1] == lines[..i] + [line];
      SentinelSeenSnoc(lines[..i], line);
      if IsBlank(line) {
        if IsSentinel(line) { SentinelNotBlank(line); }
        continue;
      }
      if IsSentinel(line) {
        dataStarted := true;
        continue;
      }
      if !dataStarted {
        continue;
      }
      var parts := Split(line, ';');
      if |parts| >= 2 && !IsBlank(parts[0]) {
        var timestamp := ParseDateTime(Trim(parts[0]));
        if timestamp.Some? {
          var value: Option<real>;
          if Trim(parts[1]) == [] {
            value := None;
          } else {
            value := ParseDecimal(ReplaceChar(Trim(parts[1]), ',', '.'));
          }
          records := records + [MeasurementRecord(timestamp.value, value)];
        }
      }
    }
    assert lines[..|lines|] == lines;
    if records == [] {
      return None;
    }
    return Some(DayData(expectedDate, records));
  }

  // ================================================================ properties

  /** Before the first sentinel line no line yields a record. */
  lemma {:induction false} NoRecordsBeforeSentinel(lines: seq<string>)
    requires !SentinelSeen(lines)
    ensures Records(lines) == []
  {
    if lines != [] {
      var init := lines[..|lines| - 1];
      assert lines == init + [lines[|lines| - 1]];
      SentinelSeenSnoc(init, lines[|lines| - 1]);
      NoRecordsBeforeSentinel(init);
    }
  }

  /**
   * A data line is kept exactly when it has two ';' fields, a non-blank first field and a
   * timestamp there; the value field only decides the reading, which may be absent.
   */
  lemma DataLineAccepted(line: string)
    ensures var parts := Split(line, ';');
      DataLineRecord(line).Some? <==>
        |parts| >= 2 && !IsBlank(parts[0]) && ParseDateTime(Trim(parts[0])).Some?
    ensures var parts := Split(line, ';');
      DataLineRecord(line).Some? ==>
        DataLineRecord(line).value.timestamp == ParseDateTime(Trim(parts[0])).value
        && DataLineRecord(line).value.value == ParseValue(parts[1])
  {
  }

  /** A blank or whitespace-only value field gives an absent reading. */
  lemma BlankValueIsAbsent(field: string)
    requires IsBlank(field)
    ensures ParseValue(field) == None
  {
  }

  /** Each line yields at most one record: never more records than lines. */
  lemma {:induction false} AtMostOneRecordPerLine(lines: seq<string>)
    ensures |Records(lines)| <= |lines|
  {
    if lines != [] {
      AtMostOneRecordPerLine(lines[..|lines| - 1]);
    }
  }

  /**
   * Records keep line order: one more line appends what that line yields, in the state
   * the lines before it leave, after the records of those lines.
   */
  lemma RecordsSnoc(lines: seq<string>, line: string)
    ensures Records(lines + [line]) == Records(lines) + OptionToSeq(LineRecord(SentinelSeen(lines), line))
  {
    assert (lines + [line])[..|lines|] == lines;
  }

  lemma {:induction false} SentinelSeenWithout(before: seq<string>, line: string, rest: seq<string>)
    requires !IsSentinel(line)
    ensures SentinelSeen(before + [line] + rest) == SentinelSeen(before + rest)
    decreases |rest|
  {
    if rest == [] {
      assert before + [line] + rest == before + [line];
      assert before + rest == before;
      SentinelSeenSnoc(before, line);
    } else {
      var init, last := rest[..|rest| - 1], rest[|rest| - 1];
      SentinelSeenWithout(before, line, init);
      assert before + [line] + rest == (before + [line] + init) + [last];
      assert before + rest == (before + init) + [last];
      SentinelSeenSnoc(before + [line] + init, last);
      SentinelSeenSnoc(before + init, last);
    }
  }

  /**
   * A data-section line that yields nothing and is not a sentinel can be removed without
   * changing the records of the other lines.
   */
  lemma {:induction false} SkippedLineIrrelevant(before: seq<string>, line: string, after: seq<string>)
    requires !IsSentinel(line) && LineRecord(SentinelSeen(before), line).None?
    ensures Records(before + [line] + after) == Records(before + after)
    decreases |after|
  {
    if after == [] {
      assert before + [line] + after == before + [line];
      assert before + after == before;
      RecordsSnoc(before, line);
      assert OptionToSeq(LineRecord(SentinelSeen(before), line)) == [];
    } else {
      var init, last := after[..|after| - 1], after[|after| - 1];
      var long, short := before + [line] + init, before + init;
      assert before + [line] + after == long + [last];
      assert before + after == short + [last];
      SkippedLineIrrelevant(before, line, init);
      SentinelSeenWithout(before, line, init);
      RecordsSnoc(long, last);
      RecordsSnoc(short, last);
      var tail := OptionToSeq(LineRecord(SentinelSeen(short), last));
      calc {
        Records(before + [line] + after);
        Records(long + [last]);
        Records(long) + tail;
        Records(short) + tail;
        Records(short + [last]);
      }
    }
  }
}
