/**
 * Calendar date-times and the browser's date helpers: the three text
 * forms a date-time is written in (the datetime-local input form, the
 * display form and the form sent to the database) and adding one minute.
 *
 * A JavaScript Date is modelled by its calendar fields in the browser's
 * local time zone; parsing a string into a Date happens before these
 * functions are reached, so they take a DateTime (or None where the source
 * receives an empty or missing string).
 */
module DateTimes {
  import opened Text
  import opened Wrappers

  datatype DateTime = DateTime(year: int, month: int, day: int, hour: int, minute: int, second: int)

  // ---------------------------------------------------------------------
  // The Gregorian calendar
  // ---------------------------------------------------------------------

  predicate IsLeapYear(y: int)
  {
    y % 4 == 0 && (y % 100 != 0 || y % 400 == 0)
  }

  function DaysInMonth(y: int, m: int): int
  {
    if m == 2 then (if IsLeapYear(y) then 29 else 28)
    else if m == 4 || m == 6 || m == 9 || m == 11 then 30
    else 31
  }

  function DaysInYear(y: int): int
  {
    if IsLeapYear(y) then 366 else 365
  }

  /** A date-time a Date object can hold (years before 1 are not modelled). */
  predicate Valid(d: DateTime)
  {
    && 1 <= d.year
    && 1 <= d.month <= 12
    && 1 <= d.day <= DaysInMonth(d.year, d.month)
    && 0 <= d.hour < 24
    && 0 <= d.minute < 60
    && 0 <= d.second < 60
  }

  /** Days from 1 January of year 1 to 1 January of year y. */
  function DaysBeforeYear(y: int): int
  {
    365 * (y - 1) + (y - 1) / 4 - (y - 1) / 100 + (y - 1) / 400
  }

  /** Days from 1 January of year y to the first day of month m (m = 13 is the next 1 January). */
  function DaysBeforeMonth(y: int, m: int): int
  {
    if m <= 1 then 0 else DaysBeforeMonth(y, m - 1) + DaysInMonth(y, m - 1)
  }

  /** The number of the day d falls on, counting 1 January of year 1 as day 0. */
  function DayNumber(d: DateTime): int
  {
    DaysBeforeYear(d.year) + DaysBeforeMonth(d.year, d.month) + d.day - 1
  }

  /** The number of the minute d falls in, counting from the start of day 0. */
  function MinuteNumber(d: DateTime): int
  {
    (DayNumber(d) * 24 + d.hour) * 60 + d.minute
  }

  /** Day number of 1 January 1970, the origin of Date.prototype.getTime. */
  const UnixEpochDay := 719162

  /** Midnight at the start of 1 January 1970. */
  const UnixEpoch := DateTime(1970, 1, 1, 0, 0, 0)

  /** Milliseconds since 1970-01-01 00:00:00, as Date.prototype.getTime gives them (local time taken as UTC). */
  function EpochMillis(d: DateTime): (ms: int)
    ensures d == UnixEpoch ==> ms == 0
  {
    ((MinuteNumber(d) - UnixEpochDay * 1440) * 60 + d.second) * 1000
  }

  /** The day of the week as Date.prototype.getDay numbers it: 0 is Sunday, 5 is Friday; 1 January 1970 was a Thursday. */
  function Weekday(d: DateTime): (w: int)
    ensures 0 <= w < 7
    ensures d == UnixEpoch ==> w == 4
  {
    (DayNumber(d) + 1) % 7
  }

  /** Going from y - 1 to y adds one to y / k exactly when k divides y. */
  lemma QuotientStep(y: int, k: int)
    requires k == 4 || k == 100 || k == 400
    ensures y / k == (y - 1) / k + (if y % k == 0 then 1 else 0)
  {
    if k == 4 {
      assert y / 4 == (y - 1) / 4 + (if y % 4 == 0 then 1 else 0);
    } else if k == 100 {
      assert y / 100 == (y - 1) / 100 + (if y % 100 == 0 then 1 else 0);
    } else {
      assert y / 400 == (y - 1) / 400 + (if y % 400 == 0 then 1 else 0);
    }
  }

  lemma DaysBeforeNextYear(y: int)
    requires 1 <= y
    ensures DaysBeforeYear(y + 1) == DaysBeforeYear(y) + DaysInYear(y)
  {
    QuotientStep(y, 4);
    QuotientStep(y, 100);
    QuotientStep(y, 400);
    DivisorChain(y);
  }

  /** A multiple of 400 is a multiple of 100, and a multiple of 100 a multiple of 4. */
  lemma DivisorChain(y: int)
    ensures y % 400 == 0 ==> y % 100 == 0
    ensures y % 100 == 0 ==> y % 4 == 0
  {
    if y % 400 == 0 {
      var q := y / 400;
      assert y == 100 * (4 * q) + 0;
      DivModUnique(y, 100, 4 * q, 0);
    }
    if y % 100 == 0 {
      var q := y / 100;
      assert y == 4 * (25 * q) + 0;
      DivModUnique(y, 4, 25 * q, 0);
    }
  }

  lemma DaysBeforeNewYear(y: int)
    ensures DaysBeforeMonth(y, 13) == DaysInYear(y)
  {
    var feb := DaysInMonth(y, 2);
    assert DaysBeforeMonth(y, 2) == 31;
    assert DaysBeforeMonth(y, 3) == 31 + feb;
    assert DaysBeforeMonth(y, 4) == 62 + feb;
    assert DaysBeforeMonth(y, 5) == 92 + feb;
    assert DaysBeforeMonth(y, 6) == 123 + feb;
    assert DaysBeforeMonth(y, 7) == 153 + feb;
    assert DaysBeforeMonth(y, 8) == 184 + feb;
    assert DaysBeforeMonth(y, 9) == 215 + feb;
    assert DaysBeforeMonth(y, 10) == 245 + feb;
    assert DaysBeforeMonth(y, 11) == 276 + feb;
    assert DaysBeforeMonth(y, 12) == 306 + feb;
  }

  // ---------------------------------------------------------------------
  // Adding one minute
  // ---------------------------------------------------------------------

  /**
   * The date-time one minute after d, carrying into the hour, the day, the
   * month and the year as Date.prototype.setMinutes does. Seconds are kept.
   */
  function AddOneMinute(d: DateTime): DateTime
  {
    if d.minute < 59 then d.(minute := d.minute + 1)
    else if d.hour < 23 then d.(hour := d.hour + 1, minute := 0)
    else if d.day < DaysInMonth(d.year, d.month) then d.(day := d.day + 1, hour := 0, minute := 0)
    else if d.month < 12 then d.(month := d.month + 1, day := 1, hour := 0, minute := 0)
    else DateTime(d.year + 1, 1, 1, 0, 0, d.second)
  }

  /** Adding one minute gives a valid date-time exactly one minute later, with the same seconds. */
  lemma AddOneMinuteIsNextMinute(d: DateTime)
    requires Valid(d)
    ensures Valid(AddOneMinute(d))
    ensures MinuteNumber(AddOneMinute(d)) == MinuteNumber(d) + 1
    ensures AddOneMinute(d).second == d.second
    ensures EpochMillis(AddOneMinute(d)) == EpochMillis(d) + 60000
  {
    var r := AddOneMinute(d);
    if d.minute == 59 && d.hour == 23 && d.day == DaysInMonth(d.year, d.month) {
      if d.month < 12 {
        assert DayNumber(r) == DayNumber(d) + 1;
      } else {
        DaysBeforeNextYear(d.year);
        DaysBeforeNewYear(d.year);
        assert DayNumber(r) == DayNumber(d) + 1;
      }
    }
  }

  /** The day advances exactly when one minute is added to 23:59, and the weekday with it. */
  lemma AddOneMinuteDay(d: DateTime)
    requires Valid(d)
    ensures DayNumber(AddOneMinute(d)) == DayNumber(d) + (if d.hour == 23 && d.minute == 59 then 1 else 0)
    ensures d.hour == 23 && d.minute == 59 ==> Weekday(AddOneMinute(d)) == (Weekday(d) + 1) % 7
  {
    AddOneMinuteIsNextMinute(d);
    var r := AddOneMinute(d);
    var a, b := DayNumber(d), DayNumber(r);
    assert (b * 24 + r.hour) * 60 + r.minute == (a * 24 + d.hour) * 60 + d.minute + 1;
    if d.hour == 23 && d.minute == 59 {
      assert r.hour == 0 && r.minute == 0;
      assert b * 1440 == a * 1440 + 1440;
      assert b == a + 1;
      assert (b + 1) % 7 == ((a + 1) % 7 + 1) % 7;
    } else {
      assert r.hour * 60 + r.minute == d.hour * 60 + d.minute + 1;
      assert b * 1440 == a * 1440;
    }
  }

  // ---------------------------------------------------------------------
  // Text forms
  // ---------------------------------------------------------------------

  /** s padded on the left with '0' to at least two characters, as String.prototype.padStart(2, '0'). */
  function PadStart2(s: string): string
  {
    if |s| >= 2 then s else seq(2 - |s|, _ => '0') + s
  }

  /** The field text of a month, day, hour, minute or second. */
  function Pad2(n: nat): string
  {
    PadStart2(NatToString(n))
  }

  /** A two-digit field is the tens digit followed by the units digit. */
  lemma Pad2Digits(n: nat)
    requires n < 100
    ensures Pad2(n) == [DigitChar(n / 10), DigitChar(n % 10)]
  {
    if n >= 10 {
      assert NatToString(n / 10) == [DigitChar(n / 10)];
    }
  }

  function YearText(d: DateTime): string
  {
    IntToString(d.year)
  }

  /** "YYYY-MM-DD", the year written without padding. */
  function DatePart(d: DateTime): string
    requires Valid(d)
  {
    YearText(d) + "-" + Pad2(d.month) + "-" + Pad2(d.day)
  }

  /** "HH:MM" */
  function ClockPart(d: DateTime): string
    requires Valid(d)
  {
    Pad2(d.hour) + ":" + Pad2(d.minute)
  }

  /** formatDateTimeLocal: "" for an empty input, otherwise "YYYY-MM-DDTHH:MM". */
  function FormatLocal(input: Option<DateTime>): string
    requires input.Some? ==> Valid(input.value)
  {
    match input
    case None => ""
    case Some(d) => DatePart(d) + "T" + ClockPart(d)
  }

  /** formatDateTimeDisplay: "-" for an empty input, otherwise "YYYY-MM-DD HH:MM". */
  function FormatDisplay(input: Option<DateTime>): string
    requires input.Some? ==> Valid(input.value)
  {
    match input
    case None => "-"
    case Some(d) => DatePart(d) + " " + ClockPart(d)
  }

  /** formatDateTimeForDB: "YYYY-MM-DDTHH:MM:SS". */
  function FormatForDB(d: DateTime): string
    requires Valid(d)
  {
    DatePart(d) + "T" + ClockPart(d) + ":" + Pad2(d.second)
  }

  /**
   * addOneMinute: for an empty input the current time (a parameter here),
   * otherwise the input one minute later, in the database form.
   */
  function AddOneMinuteText(input: Option<DateTime>, now: DateTime): string
    requires input.Some? ==> Valid(input.value)
    requires Valid(now)
  {
    AddOneMinuteValidity(input, now);
    FormatForDB(NextMinuteOr(input, now))
  }

  /** The date-time addOneMinute writes out. */
  function NextMinuteOr(input: Option<DateTime>, now: DateTime): DateTime
  {
    match input
    case None => now
    case Some(d) => AddOneMinute(d)
  }

  lemma AddOneMinuteValidity(input: Option<DateTime>, now: DateTime)
    requires input.Some? ==> Valid(input.value)
    requires Valid(now)
    ensures Valid(NextMinuteOr(input, now))
  {
    if input.Some? {
      AddOneMinuteIsNextMinute(input.value);
    }
  }

  // ---------------------------------------------------------------------
  // How the three text forms relate
  // ---------------------------------------------------------------------

  /** A four-digit year is written as four characters, so the date part is ten characters. */
  lemma DatePartLength(d: DateTime)
    requires Valid(d) && d.year < 10000
    ensures 1000 <= d.year ==> |DatePart(d)| == 10
    ensures |DatePart(d)| == |YearText(d)| + 6
  {
    assert YearText(d) == NatToString(d.year);
    if 1000 <= d.year {
      NatToStringLength(d.year, 4);
    }
    Pad2Digits(d.month);
    Pad2Digits(d.day);
  }

  /**
   * The display form is the datetime-local form with the 'T' between date
   * and time replaced by a space; nothing else differs.
   */
  lemma DisplayIsLocalWithSpace(d: DateTime)
    requires Valid(d)
    ensures var local, k := FormatLocal(Some(d)), |DatePart(d)|;
      && |FormatDisplay(Some(d))| == |local|
      && local[k] == 'T' && FormatDisplay(Some(d))[k] == ' '
      && FormatDisplay(Some(d)) == local[..k] + " " + local[k + 1..]
  {
    var local, k := FormatLocal(Some(d)), |DatePart(d)|;
    assert local[..k] == DatePart(d);
    assert local[k + 1..] == ClockPart(d);
  }

  /** The database form extends the datetime-local form with ":SS". */
  lemma ForDBExtendsLocal(d: DateTime)
    requires Valid(d)
    ensures var local := FormatLocal(Some(d));
      && FormatForDB(d)[..|local|] == local
      && FormatForDB(d)[|local|..] == ":" + Pad2(d.second)
  {
    var local := FormatLocal(Some(d));
    assert FormatForDB(d) == local + (":" + Pad2(d.second));
  }

  // ---------------------------------------------------------------------
  // Reading the database form back
  // ---------------------------------------------------------------------

  function TwoDigits(s: string, i: nat): nat
    requires i + 2 <= |s| && IsDigit(s[i]) && IsDigit(s[i + 1])
  {
    DigitValue(s[i]) * 10 + DigitValue(s[i + 1])
  }

  /** The date-time written as "YYYY-MM-DDTHH:MM:SS" (four-digit year), or None. */
  function ParseForDB(s: string): Option<DateTime>
  {
    if |s| == 19 && AllDigits(s[..4]) && s[4] == '-' && s[7] == '-' && s[10] == 'T' && s[13] == ':' && s[16] == ':'
       && IsDigit(s[5]) && IsDigit(s[6]) && IsDigit(s[8]) && IsDigit(s[9]) && IsDigit(s[11]) && IsDigit(s[12])
       && IsDigit(s[14]) && IsDigit(s[15]) && IsDigit(s[17]) && IsDigit(s[18])
    then
      var d := DateTime(DigitsValue(s[..4]), TwoDigits(s, 5), TwoDigits(s, 8), TwoDigits(s, 11), TwoDigits(s, 14), TwoDigits(s, 17));
      if Valid(d) then Some(d) else None
    else None
  }

  lemma FourDigitYear(y: nat)
    requires 1000 <= y < 10000
    ensures NatToString(y) == [DigitChar(y / 1000), DigitChar(y / 100 % 10), DigitChar(y / 10 % 10), DigitChar(y % 10)]
  {
    assert NatToString(y / 1000) == [DigitChar(y / 1000)];
    assert NatToString(y / 100) == NatToString(y / 1000) + [DigitChar(y / 100 % 10)];
    assert NatToString(y / 10) == NatToString(y / 100) + [DigitChar(y / 10 % 10)];
  }

  lemma DatePartCharacters(d: DateTime)
    requires Valid(d) && 1000 <= d.year < 10000
    ensures DatePart(d) == [
      DigitChar(d.year / 1000), DigitChar(d.year / 100 % 10), DigitChar(d.year / 10 % 10), DigitChar(d.year % 10), '-',
      DigitChar(d.month / 10), DigitChar(d.month % 10), '-', DigitChar(d.day / 10), DigitChar(d.day % 10)]
  {
    FourDigitYear(d.year);
    assert YearText(d) == NatToString(d.year);
    Pad2Digits(d.month);
    Pad2Digits(d.day);
  }

  lemma ClockPartCharacters(d: DateTime)
    requires Valid(d)
    ensures ClockPart(d) == [DigitChar(d.hour / 10), DigitChar(d.hour % 10), ':', DigitChar(d.minute / 10), DigitChar(d.minute % 10)]
  {
    Pad2Digits(d.hour);
    Pad2Digits(d.minute);
  }

  /** The four digits of a year read back as that year. */
  lemma YearDigitsValue(y: nat)
    requires 1000 <= y < 10000
    ensures DigitsValue([DigitChar(y / 1000), DigitChar(y / 100 % 10), DigitChar(y / 10 % 10), DigitChar(y % 10)]) == y
  {
    FourDigitYear(y);
    NatToStringValue(y);
  }

  /** The database form of a date-time with a four-digit year, character by character. */
  function ForDBCharacters(d: DateTime): seq<char>
    requires Valid(d) && 1000 <= d.year < 10000
  {
    [ DigitChar(d.year / 1000), DigitChar(d.year / 100 % 10), DigitChar(d.year / 10 % 10), DigitChar(d.year % 10), '-',
      DigitChar(d.month / 10), DigitChar(d.month % 10), '-', DigitChar(d.day / 10), DigitChar(d.day % 10), 'T',
      DigitChar(d.hour / 10), DigitChar(d.hour % 10), ':', DigitChar(d.minute / 10), DigitChar(d.minute % 10), ':',
      DigitChar(d.second / 10), DigitChar(d.second % 10)]
  }

  lemma ForDBIsCharacters(d: DateTime)
    requires Valid(d) && 1000 <= d.year < 10000
    ensures FormatForDB(d) == ForDBCharacters(d)
  {
    DatePartCharacters(d);
    ClockPartCharacters(d);
    Pad2Digits(d.second);
  }

  lemma DigitCharValue(n: nat)
    requires n < 10
    ensures IsDigit(DigitChar(n)) && DigitValue(DigitChar(n)) == n
  {
  }

  /** A field written as its two digits at index i reads back as its value. */
  lemma TwoDigitsOf(s: string, i: nat, n: nat)
    requires n < 100 && i + 2 <= |s|
    requires s[i] == DigitChar(n / 10) && s[i + 1] == DigitChar(n % 10)
    ensures IsDigit(s[i]) && IsDigit(s[i + 1]) && TwoDigits(s, i) == n
  {
    DigitCharValue(n / 10);
    DigitCharValue(n % 10);
  }

  lemma ParseForDBCharacters(d: DateTime)
    requires Valid(d) && 1000 <= d.year < 10000
    ensures ParseForDB(ForDBCharacters(d)) == Some(d)
  {
    var s := ForDBCharacters(d);
    assert AllDigits(s[..4]) && DigitsValue(s[..4]) == d.year by {
      assert s[..4] == [DigitChar(d.year / 1000), DigitChar(d.year / 100 % 10), DigitChar(d.year / 10 % 10), DigitChar(d.year % 10)];
      YearDigitsValue(d.year);
    }
    TwoDigitsOf(s, 5, d.month);
    TwoDigitsOf(s, 8, d.day);
    TwoDigitsOf(s, 11, d.hour);
    TwoDigitsOf(s, 14, d.minute);
    TwoDigitsOf(s, 17, d.second);
  }

  /** Reading back the database form of a date-time with a four-digit year gives that date-time. */
  lemma ParseForDBRoundTrip(d: DateTime)
    requires Valid(d) && 1000 <= d.year < 10000
    ensures ParseForDB(FormatForDB(d)) == Some(d)
  {
    ForDBIsCharacters(d);
    ParseForDBCharacters(d);
  }

  /** The text addOneMinute produces for a non-empty input reads back as the next minute. */
  lemma AddOneMinuteTextReadsBack(d: DateTime, now: DateTime)
    requires Valid(d) && Valid(now) && 1000 <= d.year && AddOneMinute(d).year < 10000
    ensures ParseForDB(AddOneMinuteText(Some(d), now)) == Some(AddOneMinute(d))
  {
    AddOneMinuteIsNextMinute(d);
    ParseForDBRoundTrip(AddOneMinute(d));
  }
}
