/**
 * CalendarLoader: reads calendar_dates.txt (service_id,date,exception_type) line by
 * line into a TripServiceCalendar.  Exception type 1 adds the date to the service,
 * type 2 removes it, as section "calendar_dates.txt" of the GTFS Schedule reference
 * defines; malformed lines are skipped one at a time.  The file's lines arrive as a
 * sequence; reading the resource is not part of this model.
 */
module CalendarLoader {
  import opened Wrappers
  import opened Text
  import opened Calendar

  predicate IsLeapYear(y: int)
  {
    y % 4 == 0 && (y % 100 != 0 || y % 400 == 0)
  }

  function MonthLength(y: int, m: int): int
    requires 1 <= m <= 12
  {
    if m == 2 then (if IsLeapYear(y) then 29 else 28)
    else if m == 4 || m == 6 || m == 9 || m == 11 then 30
    else 31
  }

  /** The day number (days since 1970-01-01) of a date of the proleptic Gregorian calendar. */
  function DaysFromCivil(y: int, m: int, d: int): int
    requires 1 <= m <= 12
  {
    var y' := if m <= 2 then y - 1 else y;
    var era := y' / 400;
    var yoe := y' - era * 400;
    var mp := if m > 2 then m - 3 else m + 9;
    var doy := (153 * mp + 2) / 5 + d - 1;
    var doe := yoe * 365 + yoe / 4 - yoe / 100 + doy;
    era * 146097 + doe - 719468
  }

  /** Within a month, the next day of the month is the next day number. */
  lemma NextDayOfMonth(y: int, m: int, d: int)
    requires 1 <= m <= 12
    ensures DaysFromCivil(y, m, d + 1) == DaysFromCivil(y, m, d) + 1
  {
  }

  /** The value of a four-character run of digits. */
  function FourDigitValue(s: string): nat
    requires |s| == 4 && AllDigits(s)
  {
    TwoDigitValue(s[..2]) * 100 + TwoDigitValue(s[2..])
  }

  /** The largest year of era a LocalDate holds. */
  const MaxYear: int := 999_999_999

  /**
   * The text shapes `yyyyMMdd` parses: exactly eight ASCII digits, or a '+' and nine to
   * twenty-three digits, of which the last four are MMdd and the rest the year.  With
   * SignStyle.EXCEEDS_PAD and the fixed-width MM and dd after it, the year takes every
   * digit but the last four; it must be signed exactly when it has more than four
   * digits, and it has at most nineteen.  A '-' sign never gives a valid year of era.
   */
  predicate IsBasicIsoShape(s: string)
  {
    || (|s| == 8 && AllDigits(s))
    || (10 <= |s| <= 24 && s[0] == '+' && AllDigits(s[1..]))
  }

  /** The date named by a year of era and the digits MMdd after it, as the SMART resolver builds it. */
  function DateOf(y: int, md: string): (r: Option<int>)
    requires |md| == 4 && AllDigits(md)
    ensures r.Some? <==> 1 <= y <= MaxYear && 1 <= TwoDigitValue(md[..2]) <= 12 && 1 <= TwoDigitValue(md[2..]) <= 31
    ensures r.Some? ==> exists d :: 1 <= d <= MonthLength(y, TwoDigitValue(md[..2]))
                                    && r.value == DaysFromCivil(y, TwoDigitValue(md[..2]), d)
  {
    var m := TwoDigitValue(md[..2]);
    var d := TwoDigitValue(md[2..]);
    if y < 1 || MaxYear < y || m < 1 || 12 < m || d < 1 || 31 < d then None
    else
      var day := if d > MonthLength(y, m) then MonthLength(y, m) else d;
      Some(DaysFromCivil(y, m, day))
  }

  /**
   * LocalDate.parse(s, ofPattern("yyyyMMdd")) with the formatter's default SMART
   * resolver: one of the two shapes of IsBasicIsoShape, a year of era from 1 to
   * 999999999, a month from 1 to 12 and a day from 1 to 31, where a day past the end
   * of its month is moved back to the month's last day.  Anything else is a
   * DateTimeParseException (None).
   */
  function ParseBasicIsoDate(s: string): (r: Option<int>)
    ensures r.Some? ==> IsBasicIsoShape(s)
    ensures r.Some? ==> exists y, m, d :: 1 <= y <= MaxYear && 1 <= m <= 12 && 1 <= d <= MonthLength(y, m)
                                          && r.value == DaysFromCivil(y, m, d)
  {
    if |s| == 8 && AllDigits(s) then
      DateOf(FourDigitValue(s[..4]), s[4..])
    else if 10 <= |s| <= 24 && s[0] == '+' && AllDigits(s[1..]) then
      assert s[1..|s| - 4] == s[1..][..|s| - 5];
      assert s[|s| - 4..] == s[1..][|s| - 5..];
      DateOf(DigitsValue(s[1..|s| - 4]), s[|s| - 4..])
    else
      None
  }

  /** The yyyyMMdd text of a date with a year of at most four digits. */
  function BasicIsoText(y: nat, m: nat, d: nat): (s: string)
    requires y < 10000 && m < 100 && d < 100
    ensures |s| == 8 && AllDigits(s)
  {
    DigitPair(y / 100) + DigitPair(y % 100) + DigitPair(m) + DigitPair(d)
  }

  /** The MMdd digits read back as the month and the day. */
  lemma MonthDayFields(m: nat, d: nat)
    requires m < 100 && d < 100
    ensures TwoDigitValue((DigitPair(m) + DigitPair(d))[..2]) == m
    ensures TwoDigitValue((DigitPair(m) + DigitPair(d))[2..]) == d
  {
    assert (DigitPair(m) + DigitPair(d))[..2] == DigitPair(m);
    assert (DigitPair(m) + DigitPair(d))[2..] == DigitPair(d);
  }

  lemma BasicIsoFields(y: nat, m: nat, d: nat)
    requires y < 10000 && m < 100 && d < 100
    ensures FourDigitValue(BasicIsoText(y, m, d)[..4]) == y
    ensures BasicIsoText(y, m, d)[4..] == DigitPair(m) + DigitPair(d)
    ensures TwoDigitValue(BasicIsoText(y, m, d)[4..][..2]) == m
    ensures TwoDigitValue(BasicIsoText(y, m, d)[4..][2..]) == d
  {
    var s := BasicIsoText(y, m, d);
    assert s[..4][..2] == DigitPair(y / 100);
    assert s[..4][2..] == DigitPair(y % 100);
    assert s[4..] == DigitPair(m) + DigitPair(d);
    MonthDayFields(m, d);
  }

  /** Every real date written as yyyyMMdd parses back to its own day number. */
  lemma ParseBasicIsoDateRoundTrip(y: nat, m: nat, d: nat)
    requires 1 <= y <= 9999 && 1 <= m <= 12 && 1 <= d <= MonthLength(y, m)
    ensures ParseBasicIsoDate(BasicIsoText(y, m, d)) == Some(DaysFromCivil(y, m, d))
  {
    BasicIsoFields(y, m, d);
  }

  /** The text of a date whose year needs more than four digits: '+', the year, MM and dd. */
  function LongYearText(y: nat, m: nat, d: nat): (s: string)
    requires m < 100 && d < 100
    ensures |s| == |NatToString(y)| + 5
    ensures s[0] == '+' && AllDigits(s[1..])
  {
    var s := "+" + NatToString(y) + DigitPair(m) + DigitPair(d);
    assert s[1..] == NatToString(y) + DigitPair(m) + DigitPair(d);
    s
  }

  /** A year of five to nine digits written with its '+' sign parses back to its date. */
  lemma LongYearRoundTrip(y: nat, m: nat, d: nat)
    requires 10000 <= y <= MaxYear && 1 <= m <= 12 && 1 <= d <= MonthLength(y, m)
    ensures ParseBasicIsoDate(LongYearText(y, m, d)) == Some(DaysFromCivil(y, m, d))
  {
    var s := LongYearText(y, m, d);
    var k := |NatToString(y)|;
    Pow10Values();
    NatToStringLength(y, 9);
    NatToStringLong(y, 5);
    assert s[1..|s| - 4] == NatToString(y);
    assert s[|s| - 4..] == DigitPair(m) + DigitPair(d);
    MonthDayFields(m, d);
  }

  /** Without its sign a year of more than four digits is rejected. */
  lemma UnsignedLongYearRejected(y: nat, m: nat, d: nat)
    requires 10000 <= y && m < 100 && d < 100
    ensures ParseBasicIsoDate(NatToString(y) + DigitPair(m) + DigitPair(d)) == None
  {
    Pow10Values();
    NatToStringLong(y, 5);
  }

  /** A year of four digits or fewer with a '+' sign is rejected. */
  lemma SignedShortYearRejected(y: nat, m: nat, d: nat)
    requires y < 10000 && m < 100 && d < 100
    ensures ParseBasicIsoDate("+" + BasicIsoText(y, m, d)) == None
  {
    assert |"+" + BasicIsoText(y, m, d)| == 9;
  }

  /** The SMART resolver moves a day past the end of its month back to the last day. */
  lemma ParseClampsDay(y: nat, m: nat, d: nat)
    requires 1 <= y <= 9999 && 1 <= m <= 12 && MonthLength(y, m) < d <= 31
    ensures ParseBasicIsoDate(BasicIsoText(y, m, d)) == Some(DaysFromCivil(y, m, MonthLength(y, m)))
  {
    BasicIsoFields(y, m, d);
  }

  /** Year zero, month zero or thirteen, and day zero or thirty-two are rejected. */
  lemma ParseRejectsOutOfRange(y: nat, m: nat, d: nat)
    requires y < 10000 && m < 100 && d < 100
    requires y == 0 || m == 0 || 12 < m || d == 0 || 31 < d
    ensures ParseBasicIsoDate(BasicIsoText(y, m, d)) == None
  {
    BasicIsoFields(y, m, d);
  }

  /** One usable line of calendar_dates.txt. */
  datatype Row = Row(serviceId: string, date: int, exceptionType: int)

  /**
   * The per-line logic of loadFromCalendarDates: the trimmed line is split on commas
   * keeping empty fields; it is used only if it is not blank, has a non-empty trimmed
   * service id, date and exception type, the date parses as yyyyMMdd and the exception
   * type as an int.
   */
  function ParseCalendarLine(line: string): (r: Option<Row>)
    ensures r.Some? ==> Count(Trim(line), ',') >= 2
    ensures r.Some? ==> r.value.serviceId != [] && r.value.serviceId == Trim(r.value.serviceId)
  {
    var t := Trim(line);
    if t == [] then None
    else
      var cols := Split(t, ',');
      if |cols| < 2 then None
      else
        var serviceId := Trim(cols[0]);
        var dateStr := Trim(cols[1]);
        var exStr := if |cols| > 2 then Trim(cols[2]) else "";
        if serviceId == [] || dateStr == [] || exStr == [] then None
        else
          var date, ex := ParseBasicIsoDate(dateStr), ParseInt(exStr);
          if date.None? || ex.None? then None
          else
            TrimUnchanged(serviceId);
            Some(Row(serviceId, date.value, ex.value))
  }

  /**
   * What one parsed line does to the calendar's contents: type 1 makes the service run
   * on the date, type 2 stops it, anything else and a skipped line change nothing; a
   * calendar without empty services keeps none.
   */
  function ApplyRow(m: ServiceDates, row: Option<Row>): (r: ServiceDates)
    ensures row.None? ==> r == m
    ensures row.Some? && row.value.exceptionType == 1 ==> RunsOn(r, row.value.serviceId, row.value.date)
    ensures row.Some? && row.value.exceptionType == 2 ==> !RunsOn(r, row.value.serviceId, row.value.date)
    ensures row.Some? && row.value.exceptionType != 1 && row.value.exceptionType != 2 ==> r == m
    ensures NoEmptyServices(m) ==> NoEmptyServices(r)
  {
    if row.Some? && NoEmptyServices(m) then
      UpdatesKeepNoEmpty(m, row.value.serviceId, row.value.date);
      ApplyRowCases(m, row)
    else
      ApplyRowCases(m, row)
  }

  function ApplyRowCases(m: ServiceDates, row: Option<Row>): (r: ServiceDates)
    ensures row.Some? && row.value.exceptionType == 1 ==> RunsOn(r, row.value.serviceId, row.value.date)
    ensures row.Some? && row.value.exceptionType == 2 ==> !RunsOn(r, row.value.serviceId, row.value.date)
  {
    match row
    case None => m
    case Some(r) =>
      if r.exceptionType == 1 then Added(m, r.serviceId, r.date)
      else if r.exceptionType == 2 then Removed(m, r.serviceId, r.date)
      else m
  }

  /**
   * Which lines are used: the trimmed line splits into at least three fields, the
   * trimmed service id is not empty, the trimmed date parses and the trimmed exception
   * type is an int; the row then holds exactly those values and any further field is
   * ignored.
   */
  lemma ParseCalendarLineIff(line: string)
    ensures var cols := Split(Trim(line), ',');
            ParseCalendarLine(line).Some? <==>
              |cols| >= 3 && Trim(cols[0]) != [] &&
              ParseBasicIsoDate(Trim(cols[1])).Some? && ParseInt(Trim(cols[2])).Some?
    ensures var cols := Split(Trim(line), ',');
            ParseCalendarLine(line).Some? ==>
              ParseCalendarLine(line).value ==
                Row(Trim(cols[0]), ParseBasicIsoDate(Trim(cols[1])).value, ParseInt(Trim(cols[2])).value)
  {
    var t := Trim(line);
    var cols := Split(t, ',');
    if t == [] {
      assert IndexOf(t, ',') == -1;
      assert |cols| == 1;
    } else if |cols| >= 3 {
      CalendarLineFields(line, cols);
    }
  }

  /** A line of three or more fields: the row of the first three, or nothing when one is unusable. */
  lemma CalendarLineFields(line: string, cols: seq<string>)
    requires Trim(line) != [] && cols == Split(Trim(line), ',') && |cols| >= 3
    ensures Trim(cols[0]) == [] || ParseBasicIsoDate(Trim(cols[1])).None? || ParseInt(Trim(cols[2])).None?
            ==> ParseCalendarLine(line).None?
    ensures Trim(cols[0]) != [] && ParseBasicIsoDate(Trim(cols[1])).Some? && ParseInt(Trim(cols[2])).Some?
            ==> ParseCalendarLine(line) ==
                  Some(Row(Trim(cols[0]), ParseBasicIsoDate(Trim(cols[1])).value, ParseInt(Trim(cols[2])).value))
  {
    if Trim(cols[0]) == [] || ParseBasicIsoDate(Trim(cols[1])).None? || ParseInt(Trim(cols[2])).None? {
      UnusableFields(line, cols);
    } else {
      UsableFields(line, cols);
    }
  }

  lemma UnusableFields(line: string, cols: seq<string>)
    requires Trim(line) != [] && cols == Split(Trim(line), ',') && |cols| >= 3
    requires Trim(cols[0]) == [] || ParseBasicIsoDate(Trim(cols[1])).None? || ParseInt(Trim(cols[2])).None?
    ensures ParseCalendarLine(line).None?
  {
    if Trim(cols[0]) == [] {
      SkippedNoId(line, cols);
    } else if Trim(cols[1]) == [] || Trim(cols[2]) == [] {
      SkippedEmptyField(line, cols);
    } else {
      SkippedUnparsed(line, cols);
    }
  }

  lemma SkippedNoId(line: string, cols: seq<string>)
    requires Trim(line) != [] && cols == Split(Trim(line), ',') && |cols| >= 3
    requires Trim(cols[0]) == []
    ensures ParseCalendarLine(line).None?
  {
  }

  lemma SkippedEmptyField(line: string, cols: seq<string>)
    requires Trim(line) != [] && cols == Split(Trim(line), ',') && |cols| >= 3
    requires Trim(cols[1]) == [] || Trim(cols[2]) == []
    ensures ParseCalendarLine(line).None?
    ensures ParseBasicIsoDate(Trim(cols[1])).None? || ParseInt(Trim(cols[2])).None?
  {
  }

  lemma SkippedUnparsed(line: string, cols: seq<string>)
    requires Trim(line) != [] && cols == Split(Trim(line), ',') && |cols| >= 3
    requires Trim(cols[0]) != [] && Trim(cols[1]) != [] && Trim(cols[2]) != []
    requires ParseBasicIsoDate(Trim(cols[1])).None? || ParseInt(Trim(cols[2])).None?
    ensures ParseCalendarLine(line).None?
  {
  }

  lemma UsableFields(line: string, cols: seq<string>)
    requires Trim(line) != [] && cols == Split(Trim(line), ',') && |cols| >= 3
    requires Trim(cols[0]) != [] && ParseBasicIsoDate(Trim(cols[1])).Some? && ParseInt(Trim(cols[2])).Some?
    ensures ParseCalendarLine(line) ==
              Some(Row(Trim(cols[0]), ParseBasicIsoDate(Trim(cols[1])).value, ParseInt(Trim(cols[2])).value))
  {
    assert Trim(cols[1]) != [] && Trim(cols[2]) != [];
  }

  /**
   * A line of three comma-free fields that neither starts nor ends with a blank: it
   * gives the row of its trimmed fields when the id is non-empty, the date parses and
   * the type is an int, and is skipped otherwise.
   */
  lemma ThreeFieldLine(a: string, b: string, c: string)
    requires ',' !in a && ',' !in b && ',' !in c
    requires a == [] || !IsBlank(a[0])
    requires c == [] || !IsBlank(c[|c| - 1])
    ensures ParseCalendarLine(a + "," + b + "," + c) ==
              if Trim(a) != [] && ParseBasicIsoDate(Trim(b)).Some? && ParseInt(Trim(c)).Some?
              then Some(Row(Trim(a), ParseBasicIsoDate(Trim(b)).value, ParseInt(Trim(c)).value))
              else None
  {
    var line := a + "," + b + "," + c;
    EdgesNotBlank(a, b, c);
    TrimUnchanged(line);
    SplitThree(a, b, c, ',');
    ParseCalendarLineIff(line);
  }

  /** Such a line starts and ends with a character that is not blank. */
  lemma EdgesNotBlank(a: string, b: string, c: string)
    requires a == [] || !IsBlank(a[0])
    requires c == [] || !IsBlank(c[|c| - 1])
    ensures var line := a + "," + b + "," + c;
            line != [] && !IsBlank(line[0]) && !IsBlank(line[|line| - 1])
  {
    var line := a + "," + b + "," + c;
    assert line[0] == (if a == [] then ',' else a[0]);
    assert line[|line| - 1] == (if c == [] then ',' else c[|c| - 1]);
  }

  /**
   * Every well-formed line is loaded: a comma-free service id without blanks at its
   * ends, a real date written as yyyyMMdd and any int give the row of that id, date
   * and type.
   */
  lemma WellFormedLine(id: string, y: nat, m: nat, d: nat, e: int)
    requires id != [] && ',' !in id && !IsBlank(id[0]) && !IsBlank(id[|id| - 1])
    requires 1 <= y <= 9999 && 1 <= m <= 12 && 1 <= d <= MonthLength(y, m)
    requires Int32Min <= e <= Int32Max
    ensures ParseCalendarLine(id + "," + BasicIsoText(y, m, d) + "," + IntToString(e)) ==
              Some(Row(id, DaysFromCivil(y, m, d), e))
  {
    var date, ex := BasicIsoText(y, m, d), IntToString(e);
    IntToStringShape(e);
    assert ',' !in date && ',' !in ex;
    TrimUnchanged(id);
    TrimUnchanged(date);
    TrimUnchanged(ex);
    ParseBasicIsoDateRoundTrip(y, m, d);
    IntToStringParses(e);
    ThreeFieldLine(id, date, ex);
  }

  /** The contents after applying the parsed lines in file order. */
  function ApplyRows(m: ServiceDates, rows: seq<Option<Row>>): ServiceDates
    decreases |rows|
  {
    if rows == [] then m else ApplyRows(ApplyRow(m, rows[0]), rows[1..])
  }

  function ParseLines(lines: seq<string>): (rows: seq<Option<Row>>)
    ensures |rows| == |lines|
  {
    if lines == [] then [] else [ParseCalendarLine(lines[0])] + ParseLines(lines[1..])
  }

  /** The contents loaded from a whole file: the first line is a header and never read. */
  function Loaded(lines: seq<string>): ServiceDates
  {
    if lines == [] then map[] else ApplyRows(map[], ParseLines(lines[1..]))
  }

  /** loadFromCalendarDates over the lines of the file. */
  method LoadFromCalendarDates(lines: seq<string>) returns (cal: TripServiceCalendar)
    ensures fresh(cal)
    ensures cal.serviceDates == Loaded(lines)
    ensures cal.Valid()
  {
    cal := new TripServiceCalendar();
    if lines == [] {
      return;
    }
    var i := 1;
    while i < |lines|
      invariant 1 <= i <= |lines|
      invariant cal.Valid()
      invariant ApplyRows(cal.serviceDates, ParseLines(lines[i..])) == Loaded(lines)
    {
      var row := ParseLineAt(lines, i);
      ApplyParsedLine(cal, row);
      i := i + 1;
    }
  }

  /** The parse of line `i`: the first of the rows of the lines from `i` on. */
  method ParseLineAt(lines: seq<string>, i: int) returns (row: Option<Row>)
    requires 0 <= i < |lines|
    ensures ParseLines(lines[i..]) == [row] + ParseLines(lines[i + 1..])
  {
    row := ParseCalendarLine(lines[i]);
    assert lines[i..][0] == lines[i] && lines[i..][1..] == lines[i + 1..];
  }

  /** The body of the loading loop: one parsed line applied to the calendar. */
  method ApplyParsedLine(cal: TripServiceCalendar, row: Option<Row>)
    requires cal.Valid()
    modifies cal
    ensures cal.serviceDates == ApplyRow(old(cal.serviceDates), row)
    ensures cal.Valid()
  {
    if row.Some? {
      if row.value.exceptionType == 1 {
        cal.AddServiceDate(row.value.serviceId, row.value.date);
      } else if row.value.exceptionType == 2 {
        cal.RemoveServiceDate(row.value.serviceId, row.value.date);
      }
    }
  }

  lemma {:induction false} ApplyRowsAppend(m: ServiceDates, rows: seq<Option<Row>>, row: Option<Row>)
    ensures ApplyRows(m, rows + [row]) == ApplyRow(ApplyRows(m, rows), row)
    decreases |rows|
  {
    if rows == [] {
      assert [row][1..] == [];
    } else {
      assert (rows + [row])[1..] == rows[1..] + [row];
      ApplyRowsAppend(ApplyRow(m, rows[0]), rows[1..], row);
    }
  }

  /** Loading keeps every service non-empty. */
  lemma {:induction false} ApplyRowsKeepsNoEmpty(m: ServiceDates, rows: seq<Option<Row>>)
    requires NoEmptyServices(m)
    ensures NoEmptyServices(ApplyRows(m, rows))
    decreases |rows|
  {
    if rows != [] {
      if rows[0].Some? {
        UpdatesKeepNoEmpty(m, rows[0].value.serviceId, rows[0].value.date);
      }
      ApplyRowsKeepsNoEmpty(ApplyRow(m, rows[0]), rows[1..]);
    }
  }

  /**
   * The last line that names a service and date decides: after a line adding (s, d)
   * the service runs on d whatever came before, after a line removing it it does not.
   */
  lemma LastRowDecides(m: ServiceDates, rows: seq<Option<Row>>, row: Row)
    ensures var after := ApplyRows(m, rows + [Some(row)]);
            (row.exceptionType == 1 ==> RunsOn(after, row.serviceId, row.date)) &&
            (row.exceptionType == 2 ==> !RunsOn(after, row.serviceId, row.date))
  {
    ApplyRowsAppend(m, rows, Some(row));
  }

  /** A skipped line, or one naming another service or date, leaves (s, d) as it was. */
  lemma OtherRowKeeps(m: ServiceDates, row: Option<Row>, s: string, d: int)
    requires row.None? || row.value.serviceId != s || row.value.date != d
    ensures RunsOn(ApplyRow(m, row), s, d) == RunsOn(m, s, d)
  {
    if row.Some? {
      AddOnlyTouchesPair(m, row.value.serviceId, row.value.date, s, d);
      RemoveOnlyTouchesPair(m, row.value.serviceId, row.value.date, s, d);
    }
  }

  /** A line whose exception type is neither 1 nor 2 changes nothing. */
  lemma UnknownExceptionTypeIgnored(m: ServiceDates, row: Row)
    requires row.exceptionType != 1 && row.exceptionType != 2
    ensures ApplyRow(m, Some(row)) == m
  {
  }

  /** A blank line, or one with fewer than three comma-separated columns, is skipped. */
  lemma ShortLineSkipped(line: string)
    requires Count(Trim(line), ',') < 2
    ensures ParseCalendarLine(line) == None
  {
  }

  /** Whatever the first line says, it does not change what is loaded. */
  lemma HeaderNeverRead(h1: string, h2: string, rest: seq<string>)
    ensures Loaded([h1] + rest) == Loaded([h2] + rest)
  {
    assert ([h1] + rest)[1..] == rest == ([h2] + rest)[1..];
  }
}
