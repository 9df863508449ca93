/**
 * The calendar values the aggregator uses (`LocalDate`, `YearMonth`, `LocalTime`,
 * `LocalDateTime` of java.time) and the fixed-width text forms it parses and prints:
 * `dd.MM.yyyy HH:mm` timestamps (default SMART resolver), ISO `yyyy-MM-dd` dates
 * (STRICT resolver), `dd.MM.yyyy` column headers and `HH:mm` row labels.
 * Dates follow the proleptic Gregorian calendar.
 */
module Calendar {
  import opened Wrappers
  import opened Text

  type MonthOfYear = m: int | 1 <= m <= 12 witness 1
  type DayOfMonth = d: int | 1 <= d <= 31 witness 1
  type HourOfDay = h: int | 0 <= h <= 23
  type MinuteOfHour = m: int | 0 <= m <= 59

  /** A `LocalDate`; `ValidDate` adds that the day exists in its month. */
  datatype Date = Date(year: int, month: MonthOfYear, day: DayOfMonth)

  datatype YearMonth = YearMonth(year: int, month: MonthOfYear)

  /** A `LocalTime` at minute resolution (every parsed time has zero seconds). */
  datatype Time = Time(hour: HourOfDay, minute: MinuteOfHour)

  datatype DateTime = DateTime(date: Date, time: Time)

  predicate IsLeapYear(y: int) { y % 4 == 0 && (y % 100 != 0 || y % 400 == 0) }

  function LengthOfMonth(year: int, month: MonthOfYear): (n: int)
    ensures 28 <= n <= 31
  {
    if month == 2 then (if IsLeapYear(year) then 29 else 28)
    else if month == 4 || month == 6 || month == 9 || month == 11 then 30
    else 31
  }

  predicate ValidDate(d: Date) { d.day <= LengthOfMonth(d.year, d.month) }

  function YearMonthOf(d: Date): YearMonth { YearMonth(d.year, d.month) }

  function DaysIn(ym: YearMonth): (n: int)
    ensures 28 <= n <= 31
  {
    LengthOfMonth(ym.year, ym.month)
  }

  /** `YearMonth.atDay(day)`. */
  function AtDay(ym: YearMonth, day: int): (d: Date)
    requires 1 <= day <= DaysIn(ym)
    ensures ValidDate(d) && YearMonthOf(d) == ym && d.day == day
  {
    Date(ym.year, ym.month, day)
  }

  function DateKey(d: Date): seq<int> { [d.year, d.month, d.day] }

  function YearMonthKey(ym: YearMonth): seq<int> { [ym.year, ym.month] }

  /** `plusDays(1)` of a valid date. */
  function NextDay(d: Date): (r: Date)
    requires ValidDate(d)
    ensures ValidDate(r)
  {
    if d.day < LengthOfMonth(d.year, d.month) then Date(d.year, d.month, d.day + 1)
    else if d.month < 12 then Date(d.year, d.month + 1, 1)
    else Date(d.year + 1, 1, 1)
  }

  /**
   * java.time's SMART resolution of a parsed year, month and day: the month must lie in
   * 1..12 and the day in 1..31; a day past the end of its month becomes the month's last day.
   */
  function ResolveSmartDate(year: int, month: int, day: int): (r: Option<Date>)
    ensures r.Some? <==> 1 <= month <= 12 && 1 <= day <= 31
    ensures r.Some? ==> ValidDate(r.value) && r.value.year == year && r.value.month == month
    ensures r.Some? ==> r.value.day == if day <= LengthOfMonth(year, month) then day else LengthOfMonth(year, month)
  {
    if 1 <= month <= 12 && 1 <= day <= 31 then
      var last := LengthOfMonth(year, month);
      Some(Date(year, month, if day <= last then day else last))
    else None
  }

  // ---------------------------------------------------------------- timestamps

  /**
   * `LocalDateTime.parse(s, ofPattern("dd.MM.yyyy HH:mm"))`: exactly two-digit day, month,
   * hour and minute and a four-digit year of era (1..9999); the date resolves as in
   * `ResolveSmartDate`; minutes 0..59, hours 0..23, and "24:00" is midnight of the next day.
   * A year written as '+' and five or more digits, which `java.time` also reads, is rejected.
   */
  function ParseDateTime(s: string): Option<DateTime>
  {
    if |s| != 16 || s[2] != '.' || s[5] != '.' || s[10] != ' ' || s[13] != ':' then None
    else if !(AllDigits(s[0..2]) && AllDigits(s[3..5]) && AllDigits(s[6..10])
              && AllDigits(s[11..13]) && AllDigits(s[14..16])) then None
    else
      var day, month, year := DigitsValue(s[0..2]), DigitsValue(s[3..5]), DigitsValue(s[6..10]);
      var hour, minute := DigitsValue(s[11..13]), DigitsValue(s[14..16]);
      if year < 1 || minute > 59 then None
      else match ResolveSmartDate(year, month, day)
        case None => None
        case Some(date) =>
          if hour == 24 && minute == 0 then Some(DateTime(NextDay(date), Time(0, 0)))
          else if hour <= 23 then Some(DateTime(date, Time(hour, minute)))
          else None
  }

  // ---------------------------------------------------------------- the 144 ten-minute slots

  const SlotsPerDay: int := 144

  /** Slot `i` of a day: hour `i / 6`, minute `(i % 6) * 10`. */
  function SlotTime(i: int): Time
    requires 0 <= i < SlotsPerDay
  {
    Time(i / 6, (i % 6) * 10)
  }

  /** The slot a time falls on; none for a time off the ten-minute grid. */
  function SlotIndex(t: Time): (r: Option<int>)
    ensures r.Some? ==> 0 <= r.value < SlotsPerDay && SlotTime(r.value) == t
    ensures t.minute % 10 == 0 <==> r.Some?
  {
    if t.minute % 10 == 0 then Some(t.hour * 6 + t.minute / 10) else None
  }

  lemma SlotIndexOfSlotTime(i: int)
    requires 0 <= i < SlotsPerDay
    ensures SlotIndex(SlotTime(i)) == Some(i)
  {
  }

  // ---------------------------------------------------------------- printing

  /** `HH:mm`. */
  function FormatTime(t: Time): string
  {
    PadNat(t.hour, 2) + ":" + PadNat(t.minute, 2)
  }

  /** `dd.MM.yyyy`: the year of era, at least four digits, with '+' beyond four. */
  function FormatDotDate(d: Date): string
  {
    var yoe: nat := if d.year >= 1 then d.year else 1 - d.year;
    PadNat(d.day, 2) + "." + PadNat(d.month, 2) + "." + (if yoe > 9999 then "+" else "") + PadNat(yoe, 4)
  }

  /** `LocalDate.toString()`: four-digit year (sign when negative, '+' beyond 9999), month, day. */
  function FormatIsoDate(d: Date): string
  {
    var y := if 0 <= d.year <= 9999 then PadNat(d.year, 4)
      else if d.year > 9999 then "+" + NatToString(d.year)
      else if d.year > -1000 then "-" + PadNat(-d.year, 4)
      else "-" + NatToString(-d.year);
    y + "-" + PadNat(d.month, 2) + "-" + PadNat(d.day, 2)
  }

  /**
   * `LocalDate.parse(s)` (ISO_LOCAL_DATE, STRICT), for unsigned four-digit years:
   * a month outside 1..12 or a day that does not exist in its month is rejected.
   */
  function ParseIsoDate(s: string): (r: Option<Date>)
    ensures r.Some? ==> ValidDate(r.value)
  {
    if |s| != 10 || s[4] != '-' || s[7] != '-' then None
    else if !(AllDigits(s[..4]) && AllDigits(s[5..7]) && AllDigits(s[8..10])) then None
    else
      var year, month, day := DigitsValue(s[..4]), DigitsValue(s[5..7]), DigitsValue(s[8..10]);
      if 1 <= month <= 12 && 1 <= day <= 31 && day <= LengthOfMonth(year, month)
      then Some(Date(year, month, day)) else None
  }

  lemma Pow10Values()
    ensures Pow10(2) == 100 && Pow10(3) == 1000 && Pow10(4) == 10000
  {
    assert Pow10(1) == 10;
  }

  /** The positions `ParseIsoDate` reads in a string laid out as `yyyy-MM-dd`. */
  lemma IsoLayout(y: string, m: string, d: string)
    requires |y| == 4 && |m| == 2 && |d| == 2
    ensures var s := y + "-" + m + "-" + d;
      |s| == 10 && s[4] == '-' && s[7] == '-' && s[..4] == y && s[5..7] == m && s[8..10] == d
  {
  }

  /** Printing a date of a four-digit year and parsing it back gives the same date. */
  lemma IsoDateRoundTrip(d: Date)
    requires ValidDate(d) && 0 <= d.year <= 9999
    ensures ParseIsoDate(FormatIsoDate(d)) == Some(d)
  {
    Pow10Values();
    PadNatValue(d.year, 4);
    PadNatValue(d.month, 2);
    PadNatValue(d.day, 2);
    IsoLayout(PadNat(d.year, 4), PadNat(d.month, 2), PadNat(d.day, 2));
  }

  /** A header date holds neither a tab nor a semicolon, so it fits one field of a row. */
  lemma DotDateHasNoSeparator(d: Date, c: char)
    requires !IsDigit(c) && c != '.' && c != '+'
    ensures c !in FormatDotDate(d)
  {
    var yoe: nat := if d.year >= 1 then d.year else 1 - d.year;
    PadNatHasNo(d.day, 2, c);
    PadNatHasNo(d.month, 2, c);
    PadNatHasNo(yoe, 4, c);
  }

  lemma TimeHasNoSeparator(t: Time, c: char)
    requires !IsDigit(c) && c != ':'
    ensures c !in FormatTime(t)
  {
    PadNatHasNo(t.hour, 2, c);
    PadNatHasNo(t.minute, 2, c);
  }

  /** An ISO date of a four-digit year starts with a digit. */
  lemma IsoDateStartsWithDigit(d: Date)
    requires 0 <= d.year <= 9999
    ensures FormatIsoDate(d) != [] && IsDigit(FormatIsoDate(d)[0])
  {
    PadNatValue(d.year, 4);
    assert FormatIsoDate(d)[0] == PadNat(d.year, 4)[0];
  }

  /** An ISO date holds none of the field separators the summary file uses. */
  lemma IsoDateHasNoSeparator(d: Date, c: char)
    requires !IsDigit(c) && c != '-' && c != '+'
    ensures c !in FormatIsoDate(d)
  {
    PadNatHasNo(d.month, 2, c);
    PadNatHasNo(d.day, 2, c);
    if 0 <= d.year <= 9999 { PadNatHasNo(d.year, 4, c); }
    else if d.year > 9999 { DigitsHaveNo(NatToString(d.year), c); }
    else if d.year > -1000 { PadNatHasNo(-d.year, 4, c); }
    else { DigitsHaveNo(NatToString(-d.year), c); }
  }
}
