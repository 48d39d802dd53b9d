/**
 * The planner's local date helpers over an abstract proleptic Gregorian
 * calendar: a date is a civil year, month (1..12) and day, plus the
 * milliseconds since local midnight. Days are counted from 1970-01-01, a
 * Thursday, so the weekday numbering is JavaScript's `getDay` (0 = Sunday).
 */
module Calendar {
  import opened Wrappers
  import opened Text

  datatype Civil = Civil(year: int, month: int, day: int)

  predicate IsLeapYear(y: int) {
    y % 4 == 0 && (y % 100 != 0 || y % 400 == 0)
  }

  function DaysInYear(y: int): int {
    if IsLeapYear(y) then 366 else 365
  }

  function DaysInMonth(y: int, m: int): (r: int)
    requires 1 <= m <= 12
    ensures 28 <= r <= 31
  {
    if m == 2 then (if IsLeapYear(y) then 29 else 28)
    else if m == 4 || m == 6 || m == 9 || m == 11 then 30
    else 31
  }

  predicate ValidCivil(c: Civil) {
    1 <= c.month <= 12 && 1 <= c.day <= DaysInMonth(c.year, c.month)
  }

  /** A day that exists in the calendar. */
  type Date = c: Civil | ValidCivil(c) witness Civil(1970, 1, 1)

  /** A JavaScript `Date` read in local time: a calendar day and the time within it. */
  datatype Moment = Moment(date: Date, msOfDay: int)

  /** Days in the months of year `y` before month `m`. */
  function DaysBeforeMonth(y: int, m: int): int
    requires 1 <= m <= 12
  {
    [0, 31, 59, 90, 120, 151, 181, 212, 243, 273, 304, 334][m - 1] + (if m > 2 && IsLeapYear(y) then 1 else 0)
  }

  /** Each month starts where the previous one ends, and December ends with the year. */
  lemma DaysBeforeMonthStep(y: int, m: int)
    requires 1 <= m <= 12
    ensures m < 12 ==> DaysBeforeMonth(y, m + 1) == DaysBeforeMonth(y, m) + DaysInMonth(y, m)
    ensures m == 12 ==> DaysBeforeMonth(y, m) + DaysInMonth(y, 12) == DaysInYear(y)
  {
  }

  /** The day number of 1 January of year `y`, counted from 1970-01-01. */
  function YearStart(y: int): int
    decreases if y >= 1970 then y - 1970 else 1970 - y
  {
    if y == 1970 then 0
    else if y > 1970 then YearStart(y - 1) + DaysInYear(y - 1)
    else YearStart(y + 1) - DaysInYear(y)
  }

  /** Consecutive years are a year's length apart, on either side of 1970. */
  lemma YearStartStep(y: int)
    ensures YearStart(y + 1) == YearStart(y) + DaysInYear(y)
  {
  }

  /** Days since 1970-01-01 (negative before it). */
  function DayNumber(c: Date): int {
    YearStart(c.year) + DaysBeforeMonth(c.year, c.month) + c.day - 1
  }

  /** `getDay()`: 0 for Sunday through 6 for Saturday. */
  function Weekday(c: Date): (r: int)
    ensures 0 <= r < 7
  {
    (DayNumber(c) + 4) % 7
  }

  /** The following calendar day. */
  function NextDay(c: Date): Date {
    if c.day < DaysInMonth(c.year, c.month) then c.(day := c.day + 1)
    else if c.month < 12 then Civil(c.year, c.month + 1, 1)
    else Civil(c.year + 1, 1, 1)
  }

  /** The preceding calendar day. */
  function PrevDay(c: Date): Date {
    if c.day > 1 then c.(day := c.day - 1)
    else if c.month > 1 then Civil(c.year, c.month - 1, DaysInMonth(c.year, c.month - 1))
    else Civil(c.year - 1, 12, 31)
  }

  /** The next day is one day later; going forward then back, or back then forward, returns to the same day. */
  lemma NextDayNumber(c: Date)
    ensures DayNumber(NextDay(c)) == DayNumber(c) + 1
    ensures PrevDay(NextDay(c)) == c && NextDay(PrevDay(c)) == c
  {
    DaysBeforeMonthStep(c.year, c.month);
    if c.day == DaysInMonth(c.year, c.month) && c.month == 12 {
      YearStartStep(c.year);
    }
  }

  lemma PrevDayNumber(c: Date)
    ensures DayNumber(PrevDay(c)) == DayNumber(c) - 1
  {
    NextDayNumber(PrevDay(c));
    NextDayNumber(c);
  }

  /** The day `n` days after `c` (before it when `n` is negative), stepping one day at a time. */
  function ShiftDays(c: Date, n: int): Date
    decreases if n >= 0 then n else -n
  {
    if n == 0 then c
    else if n > 0 then ShiftDays(NextDay(c), n - 1)
    else ShiftDays(PrevDay(c), n + 1)
  }

  lemma {:induction false} ShiftDaysNumber(c: Date, n: int)
    ensures DayNumber(ShiftDays(c, n)) == DayNumber(c) + n
    decreases if n >= 0 then n else -n
  {
    if n > 0 {
      assert ShiftDays(c, n) == ShiftDays(NextDay(c), n - 1);
      NextDayNumber(c);
      ShiftDaysNumber(NextDay(c), n - 1);
    } else if n < 0 {
      assert ShiftDays(c, n) == ShiftDays(PrevDay(c), n + 1);
      PrevDayNumber(c);
      ShiftDaysNumber(PrevDay(c), n + 1);
    }
  }

  /** Shifting forward within the month only advances the day of the month. */
  lemma {:induction false} ShiftWithinMonth(c: Date, k: nat)
    requires c.day + k <= DaysInMonth(c.year, c.month)
    ensures ShiftDays(c, k) == c.(day := c.day + k)
    decreases k
  {
    if k > 0 {
      ShiftWithinMonth(NextDay(c), k - 1);
    }
  }

  /**
   * `setDate(n)`: day `n` of the current month, where values outside the
   * month roll over into the neighbouring months; the time of day is kept.
   */
  function SetDate(m: Moment, n: int): (r: Moment)
    ensures DayNumber(r.date) == DayNumber(m.date) - m.date.day + n
    ensures r.msOfDay == m.msOfDay
  {
    var first := m.date.(day := 1);
    ShiftDaysNumber(first, n - 1);
    m.(date := ShiftDays(first, n - 1))
  }

  /** `setDate` with the current day of the month changes nothing. */
  lemma SetDateToday(m: Moment)
    ensures SetDate(m, m.date.day) == m
  {
    ShiftWithinMonth(m.date.(day := 1), m.date.day - 1);
  }

  /** Moving `k` days moves the weekday by `k`, modulo seven. */
  lemma WeekdayOfShift(a: Date, b: Date, k: int)
    requires DayNumber(b) == DayNumber(a) + k
    ensures Weekday(b) == (Weekday(a) + k) % 7
  {
    ModSevenShift(DayNumber(a) + 4, k);
  }

  lemma ModSevenShift(x: int, k: int)
    ensures (x + k) % 7 == (x % 7 + k) % 7
  {
    var q := x / 7;
    assert x == 7 * q + x % 7;
    assert (x + k) == 7 * q + (x % 7 + k);
  }

  /**
   * The offset `getMonday` applies: `1 - day`, or `-6` on a Sunday, always
   * lands on a Monday between zero and six days back.
   */
  lemma MondayOffset(day: int)
    requires 0 <= day < 7
    ensures var back := day - (if day == 0 then -6 else 1);
            0 <= back <= 6 && back == (day + 6) % 7 && (day - back) % 7 == 1
  {
  }

  /**
   * `getMonday`: the Monday of the week (Monday to Sunday) containing `d`, at
   * midnight. A Sunday belongs to the week that began six days earlier.
   */
  method GetMonday(d: Moment) returns (date: Moment)
    ensures Weekday(date.date) == 1
    ensures date.msOfDay == 0
    ensures 0 <= DayNumber(d.date) - DayNumber(date.date) <= 6
    ensures DayNumber(d.date) - DayNumber(date.date) == (Weekday(d.date) + 6) % 7
  {
    date := d;
    var day := Weekday(date.date);
    var diff := date.date.day - day + (if day == 0 then -6 else 1);
    date := SetDate(date, diff);
    date := date.(msOfDay := 0);
    MondayOffset(day);
    WeekdayOfShift(d.date, date.date, diff - d.date.day);
  }

  /** `addDays`: the same time of day, `days` calendar days later (earlier when negative). */
  method AddDays(d: Moment, days: int) returns (result: Moment)
    ensures DayNumber(result.date) == DayNumber(d.date) + days
    ensures result.msOfDay == d.msOfDay
    ensures days == 0 ==> result == d
  {
    result := d;
    result := SetDate(result, result.date.day + days);
    if days == 0 {
      SetDateToday(d);
    }
  }

  /** `formatDateKey`: `YYYY-MM-DD` in local time, month and day padded to two digits. */
  function FormatDateKey(c: Date): (r: string)
    ensures |r| >= 7
  {
    TwoDigits(c.month);
    TwoDigits(c.day);
    JoinKey(IntToString(c.year), PadStart2(NatToString(c.month)), PadStart2(NatToString(c.day)))
  }

  /** The template `${year}-${month}-${day}`. */
  function JoinKey(y: string, m: string, d: string): string {
    y + "-" + m + "-" + d
  }

  /** With two-character month and day parts, the three parts sit at fixed distances from the end. */
  lemma JoinKeyParts(y: string, m: string, d: string)
    requires |m| == 2 && |d| == 2
    ensures |JoinKey(y, m, d)| == |y| + 6
    ensures JoinKey(y, m, d)[..|y|] == y
    ensures JoinKey(y, m, d)[|y| + 1..|y| + 3] == m
    ensures JoinKey(y, m, d)[|y| + 4..] == d
    ensures JoinKey(y, m, d)[|y|] == '-' && JoinKey(y, m, d)[|y| + 3] == '-'
  {
  }

  /** Numbers below 100 pad to exactly two digits, which read back as the number. */
  lemma TwoDigits(n: nat)
    requires n < 100
    ensures |PadStart2(NatToString(n))| == 2
    ensures AllDigits(PadStart2(NatToString(n)))
    ensures DigitsValue(PadStart2(NatToString(n))) == n
  {
    NatToStringRoundTrip(n);
    var s := NatToString(n);
    if n < 10 {
      var p := PadStart2(s);
      assert p == "0" + s;
      assert p[..1] == "0";
    } else {
      assert |NatToString(n / 10)| == 1;
    }
  }

  /** Reads a `YYYY-MM-DD` key back into its year, month and day. */
  function ParseDateKey(s: string): Option<Civil> {
    if |s| >= 7 && s[|s| - 3] == '-' && s[|s| - 6] == '-'
       && AllDigits(s[|s| - 5..|s| - 3]) && AllDigits(s[|s| - 2..])
    then
      match ParseInteger(s[..|s| - 6])
      case Some(y) => Some(Civil(y, DigitsValue(s[|s| - 5..|s| - 3]), DigitsValue(s[|s| - 2..])))
      case None => None
    else None
  }

  /** Every key reads back as the day it was made from. */
  lemma DateKeyRoundTrip(c: Date)
    ensures ParseDateKey(FormatDateKey(c)) == Some(c)
  {
    TwoDigits(c.month);
    TwoDigits(c.day);
    IntToStringRoundTrip(c.year);
    ParseJoinedKey(IntToString(c.year), PadStart2(NatToString(c.month)), PadStart2(NatToString(c.day)), c.year);
  }

  /** A key joined from a year and two two-digit parts splits back into them. */
  lemma ParseJoinedKey(y: string, m: string, d: string, year: int)
    requires |m| == 2 && |d| == 2 && AllDigits(m) && AllDigits(d)
    requires ParseInteger(y) == Some(year)
    ensures ParseDateKey(JoinKey(y, m, d)) == Some(Civil(year, DigitsValue(m), DigitsValue(d)))
  {
    JoinKeyParts(y, m, d);
    var r := JoinKey(y, m, d);
    assert |y| > 0;
    assert r[..|r| - 6] == y && r[|r| - 5..|r| - 3] == m && r[|r| - 2..] == d;
  }

  /** Different days have different keys, so a key names exactly one day. */
  lemma DateKeyInjective(a: Date, b: Date)
    ensures FormatDateKey(a) == FormatDateKey(b) <==> a == b
  {
    DateKeyRoundTrip(a);
    DateKeyRoundTrip(b);
  }

  /** `isSameDay`: same year, month and day, whatever the time. */
  predicate IsSameDay(d1: Moment, d2: Moment) {
    d1.date.year == d2.date.year && d1.date.month == d2.date.month && d1.date.day == d2.date.day
  }

  /** Same day exactly when the keys agree; as an equivalence it is reflexive and symmetric. */
  lemma IsSameDaySpec(d1: Moment, d2: Moment)
    ensures IsSameDay(d1, d2) <==> FormatDateKey(d1.date) == FormatDateKey(d2.date)
    ensures IsSameDay(d1, d1)
    ensures IsSameDay(d1, d2) ==> IsSameDay(d2, d1)
  {
    DateKeyInjective(d1.date, d2.date);
  }
}
