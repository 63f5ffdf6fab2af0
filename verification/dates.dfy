/** Calendar dates and date-times as Python's `datetime.date` and
    `datetime.datetime` hold them (no time zone, whole seconds), with the
    proleptic Gregorian month lengths of `calendar.monthrange`. */
module Dates {

  datatype Date = Date(year: int, month: int, day: int)

  datatype DateTime = DateTime(date: Date, hour: int, minute: int, second: int)

  /** Python's `datetime.time` at whole-second resolution.  Every such value
      is truthy (Python 3.5 and later), midnight included. */
  datatype TimeOfDay = TimeOfDay(hour: int, minute: int, second: int)

  const MinYear: int := 1
  const MaxYear: int := 9999

  /** The earliest date `Activity.tally` counts from by default */
  const Epoch: Date := Date(1970, 1, 1)

  predicate IsLeapYear(year: int) {
    year % 4 == 0 && (year % 100 != 0 || year % 400 == 0)
  }

  /** The number of days in a month, the second component of
      `calendar.monthrange(year, month)` */
  function DaysInMonth(year: int, month: int): (n: int)
    requires 1 <= month <= 12
    ensures 28 <= n <= 31
    ensures month == 2 ==> (n == 29 <==> IsLeapYear(year))
    ensures month != 2 ==> (n == 30 <==> month in {4, 6, 9, 11})
  {
    if month == 2 then (if IsLeapYear(year) then 29 else 28)
    else if month in {4, 6, 9, 11} then 30
    else 31
  }

  /** A date that `datetime.date` can represent */
  predicate ValidDate(d: Date) {
    && MinYear <= d.year <= MaxYear
    && 1 <= d.month <= 12
    && 1 <= d.day <= DaysInMonth(d.year, d.month)
  }

  predicate ValidDateTime(t: DateTime) {
    && ValidDate(t.date)
    && 0 <= t.hour < 24
    && 0 <= t.minute < 60
    && 0 <= t.second < 60
  }

  /** Chronological order on dates: `a <= b` in Python */
  predicate DateLe(a: Date, b: Date) {
    || a.year < b.year
    || (a.year == b.year && a.month < b.month)
    || (a.year == b.year && a.month == b.month && a.day <= b.day)
  }

  /** Chronological order on date-times: `a <= b` in Python */
  predicate Le(a: DateTime, b: DateTime) {
    || (DateLe(a.date, b.date) && a.date != b.date)
    || (a.date == b.date && a.hour < b.hour)
    || (a.date == b.date && a.hour == b.hour && a.minute < b.minute)
    || (a.date == b.date && a.hour == b.hour && a.minute == b.minute && a.second <= b.second)
  }

  /** `lo <= d <= hi`, the window test of `Activity.tally` */
  predicate InWindow(d: Date, lo: Date, hi: Date) {
    DateLe(lo, d) && DateLe(d, hi)
  }

  /** `Le` is a total order, which makes "the earliest start" well defined */
  lemma LeTotalOrder(a: DateTime, b: DateTime, c: DateTime)
    ensures Le(a, a)
    ensures Le(a, b) || Le(b, a)
    ensures Le(a, b) && Le(b, a) ==> a == b
    ensures Le(a, b) && Le(b, c) ==> Le(a, c)
  {
  }
}
