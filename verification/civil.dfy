/**
 * Calendar arithmetic the booking calendar obtains from the browser's `Date`:
 * the proleptic Gregorian calendar, month lengths, and the weekday `getDay()`
 * reports (0 = Sunday ... 6 = Saturday).
 */
module Civil {

  /** A calendar date as the booking script builds it with
      `new Date(year, month, day)`: `month` counts from 0 (January) as
      `getMonth()` does, `day` from 1. */
  datatype Date = Date(year: nat, month: nat, day: nat)

  predicate IsLeapYear(y: nat) {
    y % 4 == 0 && (y % 100 != 0 || y % 400 == 0)
  }

  function DaysInMonth(y: nat, m: nat): (n: nat)
    requires m < 12
    ensures 28 <= n <= 31
  {
    if m == 1 then (if IsLeapYear(y) then 29 else 28)
    else if m == 3 || m == 5 || m == 8 || m == 10 then 30
    else 31
  }

  predicate Valid(d: Date) {
    d.month < 12 && 1 <= d.day <= DaysInMonth(d.year, d.month)
  }

  /** `new Date(year, month, 0).getDate()`: the length of the month before
      `month`, December when `month` is January. */
  function PrevMonthDays(y: nat, m: nat): (n: nat)
    requires m < 12
    ensures 28 <= n <= 31
  {
    if m == 0 then 31 else DaysInMonth(y, m - 1)
  }

  /** Strictly earlier calendar day; the time of day plays no part. */
  predicate Before(a: Date, b: Date) {
    || a.year < b.year
    || (a.year == b.year && a.month < b.month)
    || (a.year == b.year && a.month == b.month && a.day < b.day)
  }

  /** Days from 1 January of year 0 to 1 January of year `y`: 365 per year
      plus one per leap year in `0 .. y - 1`. */
  function DaysBeforeYear(y: nat): nat {
    365 * y + (y + 3) / 4 - (y + 99) / 100 + (y + 399) / 400
  }

  /** Days from 1 January of year `y` to the first of month `m`. */
  function DaysBeforeMonth(y: nat, m: nat): nat
    requires m <= 12
  {
    if m == 0 then 0 else DaysBeforeMonth(y, m - 1) + DaysInMonth(y, m - 1)
  }

  /** Days since 1 January of year 0; day 0 of a month is the last day of the
      month before, as with `Date`. */
  function DayNumber(d: Date): int
    requires d.month < 12
  {
    DaysBeforeYear(d.year) + DaysBeforeMonth(d.year, d.month) + d.day - 1
  }

  /** `getDay()`: 1 January of year 0 (proleptic Gregorian) was a Saturday. */
  function Weekday(d: Date): (w: nat)
    requires d.month < 12
    ensures w < 7
  {
    (DayNumber(d) + 6) % 7
  }

  /** A whole year has 366 days in a leap year and 365 otherwise, and its
      months add up to exactly that. */
  lemma YearLength(y: nat)
    ensures DaysBeforeYear(y + 1) - DaysBeforeYear(y) == DaysBeforeMonth(y, 12)
    ensures DaysBeforeMonth(y, 12) == if IsLeapYear(y) then 366 else 365
  {
    MonthsOfYear(y);
    LeapDay(y);
  }

  lemma MonthsOfYear(y: nat)
    ensures DaysBeforeMonth(y, 12) == 337 + DaysInMonth(y, 1)
  {
    var feb := DaysInMonth(y, 1);
    assert DaysBeforeMonth(y, 1) == 31;
    assert DaysBeforeMonth(y, 2) == 31 + feb;
    assert DaysBeforeMonth(y, 3) == 62 + feb;
    assert DaysBeforeMonth(y, 4) == 92 + feb;
    assert DaysBeforeMonth(y, 5) == 123 + feb;
    assert DaysBeforeMonth(y, 6) == 153 + feb;
    assert DaysBeforeMonth(y, 7) == 184 + feb;
    assert DaysBeforeMonth(y, 8) == 215 + feb;
    assert DaysBeforeMonth(y, 9) == 245 + feb;
    assert DaysBeforeMonth(y, 10) == 276 + feb;
    assert DaysBeforeMonth(y, 11) == 306 + feb;
  }

  /** The year count grows by 366 after a leap year and by 365 otherwise. */
  lemma LeapDay(y: nat)
    ensures DaysBeforeYear(y + 1) - DaysBeforeYear(y) == if IsLeapYear(y) then 366 else 365
  {
    MultipleStep4(y);
    MultipleStep100(y);
    MultipleStep400(y);
    if y % 100 == 0 {
      CenturyIsLeapCandidate(y);
    }
    if y % 400 == 0 {
      QuadricentennialIsCentury(y);
    }
  }

  lemma CenturyIsLeapCandidate(y: nat)
    requires y % 100 == 0
    ensures y % 4 == 0
  {
    var t := 25 * (y / 100);
    assert y == 4 * t;
    assert y / 4 == t;
  }

  lemma QuadricentennialIsCentury(y: nat)
    requires y % 400 == 0
    ensures y % 100 == 0
  {
    var t := 4 * (y / 400);
    assert y == 100 * t;
    assert y / 100 == t;
  }

  lemma MultipleStep4(y: nat)
    ensures (y + 4) / 4 - (y + 3) / 4 == if y % 4 == 0 then 1 else 0
  {
  }

  lemma MultipleStep100(y: nat)
    ensures (y + 100) / 100 - (y + 99) / 100 == if y % 100 == 0 then 1 else 0
  {
  }

  lemma MultipleStep400(y: nat)
    ensures (y + 400) / 400 - (y + 399) / 400 == if y % 400 == 0 then 1 else 0
  {
  }

  /** The first of a month follows the last day of the month before, also
      across a year boundary: day numbers run on without gaps. */
  lemma {:induction false} NextDayAfterMonthEnd(d: Date)
    requires Valid(d) && d.day == DaysInMonth(d.year, d.month)
    ensures d.month < 11 ==> DayNumber(Date(d.year, d.month + 1, 1)) == DayNumber(d) + 1
    ensures d.month == 11 ==> DayNumber(Date(d.year + 1, 0, 1)) == DayNumber(d) + 1
  {
    if d.month == 11 {
      YearLength(d.year);
      assert DaysBeforeMonth(d.year, 12) == DaysBeforeMonth(d.year, 11) + 31;
    }
  }

  /** `new Date(year, month, 0)` is the last day of the month before: that is
      the day `PrevMonthDays` counts up to in the calendar's leading cells. */
  lemma {:induction false} DayZeroIsPreviousMonthEnd(y: nat, m: nat)
    requires m < 12 && (m == 0 ==> y >= 1)
    ensures m > 0 ==> DayNumber(Date(y, m, 0)) == DayNumber(Date(y, m - 1, PrevMonthDays(y, m)))
    ensures m == 0 ==> DayNumber(Date(y, 0, 0)) == DayNumber(Date(y - 1, 11, PrevMonthDays(y, m)))
  {
    if m == 0 {
      YearLength(y - 1);
      assert DaysBeforeMonth(y - 1, 12) == DaysBeforeMonth(y - 1, 11) + 31;
    }
  }

  /** Day `day` of a month falls `day - 1` weekdays after the first of that
      month, so a month grid that starts in the first day's column puts every
      day under its own weekday. */
  lemma {:induction false} WeekdayOfDay(y: nat, m: nat, day: nat)
    requires m < 12 && 1 <= day
    ensures Weekday(Date(y, m, day)) == (Weekday(Date(y, m, 1)) + day - 1) % 7
  {
    var x := DayNumber(Date(y, m, 1)) + 6;
    assert DayNumber(Date(y, m, day)) + 6 == x + (day - 1);
    ModSevenShift(x, day - 1);
  }

  lemma ModSevenShift(x: int, k: int)
    ensures (x + k) % 7 == (x % 7 + k) % 7
  {
    var q := x / 7;
    assert x == 7 * q + x % 7;
    assert x + k == 7 * q + (x % 7 + k);
  }

  /** Two fixed points that tie the day count to the weekdays `Date` reports. */
  lemma WeekdayAnchors()
    ensures Weekday(Date(1970, 0, 1)) == 4
    ensures Weekday(Date(2025, 5, 14)) == 6
    ensures Weekday(Date(2025, 5, 15)) == 0
  {
    assert DaysBeforeYear(1970) == 719528;
    assert DaysBeforeYear(2025) == 739617;
    assert DaysBeforeMonth(2025, 5) == 151 by {
      assert DaysBeforeMonth(2025, 2) == 59;
    }
  }
}
