/**
 * The clock as the handlers read it: `datetime.utcnow()` as calendar
 * fields, the integer `int(t.strftime("%Y%m%d%H%M%S"))` that tokens carry as
 * their expiry, and `t + timedelta(seconds=3600)`.
 */
module Clock {
  import opened Wrappers

  const MinYear := 1
  const MaxYear := 9999

  datatype DateTime = DateTime(year: int, month: int, day: int, hour: int, minute: int, second: int)

  predicate IsLeapYear(y: int)
  {
    y % 4 == 0 && (y % 100 != 0 || y % 400 == 0)
  }

  function DaysInMonth(y: int, m: int): (n: int)
    requires 1 <= m <= 12
    ensures 28 <= n <= 31
  {
    if m == 2 then (if IsLeapYear(y) then 29 else 28)
    else if m == 4 || m == 6 || m == 9 || m == 11 then 30
    else 31
  }

  /** The fields of a `datetime` value: years 1..9999 of the proleptic Gregorian calendar. */
  predicate Valid(t: DateTime)
  {
    && MinYear <= t.year <= MaxYear
    && 1 <= t.month <= 12
    && 1 <= t.day <= DaysInMonth(t.year, t.month)
    && 0 <= t.hour < 24
    && 0 <= t.minute < 60
    && 0 <= t.second < 60
  }

  type Moment = t: DateTime | Valid(t) witness DateTime(1, 1, 1, 0, 0, 0)

  /** Appends a two-digit field to the digits read so far. */
  function Push(acc: int, field: int): int
  {
    acc * 100 + field
  }

  /**
   * `int(t.strftime("%Y%m%d%H%M%S"))`: every field after the year is written
   * with two digits, so the integer is the fields in base 100.
   */
  function Stamp(t: Moment): int
  {
    Push(Push(Push(Push(Push(t.year, t.month), t.day), t.hour), t.minute), t.second)
  }

  /** `a` comes strictly before `b` in calendar order. */
  predicate Earlier(a: DateTime, b: DateTime)
  {
    || a.year < b.year
    || (a.year == b.year && a.month < b.month)
    || (a.year == b.year && a.month == b.month && a.day < b.day)
    || (a.year == b.year && a.month == b.month && a.day == b.day && a.hour < b.hour)
    || (a.year == b.year && a.month == b.month && a.day == b.day && a.hour == b.hour && a.minute < b.minute)
    || (a.year == b.year && a.month == b.month && a.day == b.day && a.hour == b.hour && a.minute == b.minute
        && a.second < b.second)
  }

  lemma PushOrder(a: int, x: int, b: int, y: int)
    requires 0 <= x < 100 && 0 <= y < 100
    ensures Push(a, x) < Push(b, y) <==> a < b || (a == b && x < y)
    ensures Push(a, x) == Push(b, y) <==> a == b && x == y
  {
    if a < b {
      assert a * 100 + 100 <= b * 100;
    } else if b < a {
      assert b * 100 + 100 <= a * 100;
    }
  }

  /** Comparing stamps is comparing moments in calendar order (line 139 relies on it). */
  lemma StampOrder(a: Moment, b: Moment)
    ensures Stamp(a) < Stamp(b) <==> Earlier(a, b)
    ensures Stamp(a) == Stamp(b) <==> a == b
  {
    var a1, b1 := Push(a.year, a.month), Push(b.year, b.month);
    var a2, b2 := Push(a1, a.day), Push(b1, b.day);
    var a3, b3 := Push(a2, a.hour), Push(b2, b.hour);
    var a4, b4 := Push(a3, a.minute), Push(b3, b.minute);
    PushOrder(a.year, a.month, b.year, b.month);
    PushOrder(a1, a.day, b1, b.day);
    PushOrder(a2, a.hour, b2, b.hour);
    PushOrder(a3, a.minute, b3, b.minute);
    PushOrder(a4, a.second, b4, b.second);
  }

  /** Days from 0001-01-01 to January 1 of year `y`. */
  function DaysBeforeYear(y: int): (n: int)
    requires y >= MinYear
    decreases y
  {
    if y == MinYear then 0 else DaysBeforeYear(y - 1) + DaysInYear(y - 1)
  }

  function DaysInYear(y: int): int
  {
    if IsLeapYear(y) then 366 else 365
  }

  /** Days from January 1 to the first of month `m` in year `y`. */
  function DaysBeforeMonth(y: int, m: int): int
    requires 1 <= m <= 12
  {
    [0, 31, 59, 90, 120, 151, 181, 212, 243, 273, 304, 334][m - 1]
      + (if m > 2 && IsLeapYear(y) then 1 else 0)
  }

  /** Seconds elapsed since 0001-01-01 00:00:00, the reference scale for `timedelta`. */
  function Seconds(t: Moment): int
  {
    (DaysBeforeYear(t.year) + DaysBeforeMonth(t.year, t.month) + t.day - 1) * 86400
      + t.hour * 3600 + t.minute * 60 + t.second
  }

  /** The moment one hour later; None where `datetime` raises OverflowError (past year 9999). */
  function AddHour(t: Moment): (r: Option<Moment>)
    ensures r.Some? ==> r.value.minute == t.minute && r.value.second == t.second
  {
    if t.hour < 23 then
      Some(t.(hour := t.hour + 1))
    else if t.day < DaysInMonth(t.year, t.month) then
      Some(t.(day := t.day + 1, hour := 0))
    else if t.month < 12 then
      Some(t.(month := t.month + 1, day := 1, hour := 0))
    else if t.year < MaxYear then
      Some(DateTime(t.year + 1, 1, 1, 0, t.minute, t.second))
    else
      None
  }

  lemma MonthStep(y: int, m: int)
    requires 1 <= m < 12
    ensures DaysBeforeMonth(y, m + 1) == DaysBeforeMonth(y, m) + DaysInMonth(y, m)
  {
  }

  lemma YearStep(y: int)
    requires y >= MinYear
    ensures DaysBeforeYear(y + 1) == DaysBeforeYear(y) + DaysBeforeMonth(y, 12) + DaysInMonth(y, 12)
  {
  }

  /** Adding the hour is exactly 3600 seconds later on the calendar's own scale. */
  lemma AddHourExact(t: Moment)
    ensures AddHour(t).Some? ==> Seconds(AddHour(t).value) == Seconds(t) + 3600
  {
    if t.hour == 23 && t.day == DaysInMonth(t.year, t.month) {
      if t.month < 12 {
        MonthStep(t.year, t.month);
      } else if t.year < MaxYear {
        YearStep(t.year);
      }
    }
  }

  /** The only moments with no hour after them are those of 9999-12-31 23:xx:xx. */
  lemma AddHourOverflow(t: Moment)
    ensures AddHour(t).None? <==> t.year == MaxYear && t.month == 12 && t.day == 31 && t.hour == 23
  {
  }

  /** The hour added is strictly later, in calendar order and as a stamp. */
  lemma AddHourLater(t: Moment)
    requires AddHour(t).Some?
    ensures Earlier(t, AddHour(t).value) && Stamp(t) < Stamp(AddHour(t).value)
  {
    StampOrder(t, AddHour(t).value);
  }
}
