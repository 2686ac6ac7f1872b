/**
 * Dates and times of day in the proleptic Gregorian calendar, as Python's
 * datetime and SQLite's date functions handle them. The clock itself is
 * not modelled: every "now" is a parameter of type DateTime.
 */
module Calendar {
  import opened Text

  /** A wall-clock instant at second resolution. */
  datatype DateTime = DateTime(year: int, month: int, day: int, hour: int, minute: int, second: int)

  predicate IsLeapYear(y: int) {
    y % 4 == 0 && (y % 100 != 0 || y % 400 == 0)
  }

  function DaysInMonth(y: int, m: int): int
    requires 1 <= m <= 12
  {
    if m == 2 then (if IsLeapYear(y) then 29 else 28)
    else if m == 4 || m == 6 || m == 9 || m == 11 then 30
    else 31
  }

  /** A date datetime.date accepts: years 1 to 9999 and the true length of each month, leap years included. */
  predicate ValidDate(y: int, m: int, d: int) {
    1 <= y <= 9999 && 1 <= m <= 12 && 1 <= d <= DaysInMonth(y, m)
  }

  predicate Valid(t: DateTime) {
    ValidDate(t.year, t.month, t.day) && 0 <= t.hour < 24 && 0 <= t.minute < 60 && 0 <= t.second < 60
  }

  /** Chronological order, field by field. */
  predicate Le(a: DateTime, b: DateTime) {
    if a.year != b.year then a.year < b.year
    else if a.month != b.month then a.month < b.month
    else if a.day != b.day then a.day < b.day
    else if a.hour != b.hour then a.hour < b.hour
    else if a.minute != b.minute then a.minute < b.minute
    else a.second <= b.second
  }

  lemma LeTotal(a: DateTime, b: DateTime)
    ensures Le(a, b) || Le(b, a)
  {
  }

  lemma LeTransitive(a: DateTime, b: DateTime, c: DateTime)
    requires Le(a, b) && Le(b, c)
    ensures Le(a, c)
  {
  }

  /** The instant strftime("%Y-%m-%d %H:%M") keeps: the seconds dropped. */
  function AtMinute(t: DateTime): DateTime {
    t.(second := 0)
  }

  function DaysInYear(y: int): int {
    if IsLeapYear(y) then 366 else 365
  }

  function DaysBeforeYear(y: int): nat
    decreases y
  {
    if y <= 1 then 0 else DaysBeforeYear(y - 1) + DaysInYear(y - 1)
  }

  function DaysBeforeMonth(y: int, m: int): nat
    requires 1 <= m <= 12
  {
    (if m == 1 then 0 else if m == 2 then 31 else if m == 3 then 59 else if m == 4 then 90
     else if m == 5 then 120 else if m == 6 then 151 else if m == 7 then 181 else if m == 8 then 212
     else if m == 9 then 243 else if m == 10 then 273 else if m == 11 then 304 else 334)
    + (if m > 2 && IsLeapYear(y) then 1 else 0)
  }

  /** Days since 0001-01-01, that is date.toordinal() - 1. */
  function DayNumber(y: int, m: int, d: int): int
    requires 1 <= m <= 12
  {
    DaysBeforeYear(y) + DaysBeforeMonth(y, m) + d - 1
  }

  /** Seconds since 0001-01-01 00:00:00; timedelta arithmetic is arithmetic on this number. */
  function Seconds(t: DateTime): int
    requires 1 <= t.month <= 12
  {
    ((DayNumber(t.year, t.month, t.day) * 24 + t.hour) * 60 + t.minute) * 60 + t.second
  }

  lemma MonthEndsBeforeNext(y: int, m: int, n: int)
    requires 1 <= m < n <= 12
    ensures DaysBeforeMonth(y, m) + DaysInMonth(y, m) <= DaysBeforeMonth(y, n)
  {
  }

  lemma MonthEndsWithinYear(y: int, m: int)
    requires 1 <= m <= 12
    ensures DaysBeforeMonth(y, m) + DaysInMonth(y, m) <= DaysInYear(y)
  {
  }

  lemma {:induction false} YearEndsBeforeNext(y: int, z: int)
    requires 1 <= y < z
    ensures DaysBeforeYear(y) + DaysInYear(y) <= DaysBeforeYear(z)
    decreases z - y
  {
    if y + 1 < z {
      YearEndsBeforeNext(y + 1, z);
      assert DaysBeforeYear(y + 1) == DaysBeforeYear(y) + DaysInYear(y);
    }
  }

  /** An earlier calendar day has a smaller day number. */
  lemma DayNumberIncreases(a: DateTime, b: DateTime)
    requires Valid(a) && Valid(b)
    requires (a.year, a.month, a.day) != (b.year, b.month, b.day) && Le(a, b)
    ensures DayNumber(a.year, a.month, a.day) < DayNumber(b.year, b.month, b.day)
  {
    if a.year < b.year {
      MonthEndsWithinYear(a.year, a.month);
      YearEndsBeforeNext(a.year, b.year);
    } else if a.month < b.month {
      MonthEndsBeforeNext(a.year, a.month, b.month);
    }
  }

  lemma SecondsIncrease(a: DateTime, b: DateTime)
    requires Valid(a) && Valid(b) && Le(a, b) && a != b
    ensures Seconds(a) < Seconds(b)
  {
    if (a.year, a.month, a.day) != (b.year, b.month, b.day) {
      DayNumberIncreases(a, b);
    }
  }

  /** On valid instants the field-by-field order and the order of Seconds agree. */
  lemma SecondsOrder(a: DateTime, b: DateTime)
    requires Valid(a) && Valid(b)
    ensures Le(a, b) <==> Seconds(a) <= Seconds(b)
  {
    if a != b {
      if Le(a, b) {
        SecondsIncrease(a, b);
      } else {
        SecondsIncrease(b, a);
      }
    }
  }

  /** date('now'): "YYYY-MM-DD". */
  function DateText(t: DateTime): string
    requires Valid(t)
  {
    Pad(t.year, 4) + "-" + Pad(t.month, 2) + "-" + Pad(t.day, 2)
  }

  /** time('now', 'localtime'): "HH:MM:SS". */
  function ClockText(t: DateTime): string
    requires Valid(t)
  {
    Pad(t.hour, 2) + ":" + Pad(t.minute, 2) + ":" + Pad(t.second, 2)
  }
}
