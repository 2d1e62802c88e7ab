/** Calendar dates as the ledger stores them: ISO `YYYY-MM-DD` days of the
    proleptic Gregorian calendar with four-digit years, and `YYYY-MM` months.
    A date is compared by its day number, the count of days since
    0001-01-01, which is what subtracting two JavaScript `Date` values parsed
    from such strings measures (in milliseconds). */
module Calendar {

  /** A year, month and day, not necessarily a real date. */
  datatype Ymd = Ymd(year: int, month: int, day: int)

  predicate IsLeapYear(y: int) {
    y % 4 == 0 && (y % 100 != 0 || y % 400 == 0)
  }

  function DaysInMonth(y: int, m: int): int {
    if m == 2 then (if IsLeapYear(y) then 29 else 28)
    else if m == 4 || m == 6 || m == 9 || m == 11 then 30
    else 31
  }

  predicate ValidDate(d: Ymd) {
    1 <= d.year <= 9999 && 1 <= d.month <= 12 && 1 <= d.day <= DaysInMonth(d.year, d.month)
  }

  /** A calendar day that an ISO `YYYY-MM-DD` string can name. */
  type Date = d: Ymd | ValidDate(d) witness Ymd(1970, 1, 1)

  /** A year and month, not necessarily a real month. */
  datatype Ym = Ym(year: int, month: int)

  /** A month that an ISO `YYYY-MM` string can name. */
  type Month = m: Ym | 1 <= m.year <= 9999 && 1 <= m.month <= 12 witness Ym(1970, 1)

  /** Days from 0001-01-01 to the first of January of year `y` (for `y >= 1`). */
  function DaysBeforeYear(y: int): int {
    var p := y - 1;
    365 * p + p / 4 - p / 100 + p / 400
  }

  /** Days from the first of January of year `y` to the first of month `m`
      (month 13 stands for the next first of January). */
  function DaysBeforeMonth(y: int, m: int): int {
    var leap := if IsLeapYear(y) && m > 2 then 1 else 0;
    var common :=
      if m <= 1 then 0 else if m == 2 then 31 else if m == 3 then 59
      else if m == 4 then 90 else if m == 5 then 120 else if m == 6 then 151
      else if m == 7 then 181 else if m == 8 then 212 else if m == 9 then 243
      else if m == 10 then 273 else if m == 11 then 304 else if m == 12 then 334
      else 365;
    common + leap
  }

  /** Days since 0001-01-01. */
  function DayNumber(d: Date): int {
    DaysBeforeYear(d.year) + DaysBeforeMonth(d.year, d.month) + d.day - 1
  }

  /** The order of ISO date strings: year, then month, then day. */
  predicate Before(a: Date, b: Date) {
    || a.year < b.year
    || (a.year == b.year && a.month < b.month)
    || (a.year == b.year && a.month == b.month && a.day < b.day)
  }

  /** The day `<month>-01`. */
  function MonthStart(m: Month): Date {
    Ymd(m.year, m.month, 1)
  }

  /** The ISO string of `d` starts with the ISO string of `m`. */
  predicate InMonth(d: Date, m: Month) {
    d.year == m.year && d.month == m.month
  }

  lemma MonthsAscend(y: int, m1: int, m2: int)
    requires 1 <= m1 < m2 <= 13
    ensures DaysBeforeMonth(y, m1) + DaysInMonth(y, m1) <= DaysBeforeMonth(y, m2)
  {
  }

  /** A year has 365 days, 366 in a leap year. */
  lemma YearLength(y: int)
    requires y >= 1
    ensures DaysBeforeYear(y + 1) == DaysBeforeYear(y) + DaysBeforeMonth(y, 13)
  {
    var p := y - 1;
    assert y / 4 - p / 4 == if y % 4 == 0 then 1 else 0;
    assert y / 100 - p / 100 == if y % 100 == 0 then 1 else 0;
    assert y / 400 - p / 400 == if y % 400 == 0 then 1 else 0;
  }

  lemma {:induction false} DaysBeforeYearAscend(a: int, b: int)
    requires 1 <= a <= b
    ensures DaysBeforeYear(a) <= DaysBeforeYear(b)
    decreases b - a
  {
    if a < b {
      YearLength(a);
      DaysBeforeYearAscend(a + 1, b);
    }
  }

  /** A date's day number lies within its year. */
  lemma DayNumberWithinYear(d: Date)
    ensures DaysBeforeYear(d.year) <= DayNumber(d) < DaysBeforeYear(d.year + 1)
  {
    YearLength(d.year);
    MonthsAscend(d.year, d.month, 13);
  }

  lemma BeforeMeansSmallerDayNumber(a: Date, b: Date)
    requires Before(a, b)
    ensures DayNumber(a) < DayNumber(b)
  {
    if a.year < b.year {
      DayNumberWithinYear(a);
      DayNumberWithinYear(b);
      DaysBeforeYearAscend(a.year + 1, b.year);
    } else if a.month < b.month {
      MonthsAscend(a.year, a.month, b.month);
    }
  }

  /** Comparing day numbers is comparing the dates' ISO strings: day numbers
      order dates as the calendar does, and distinct dates have distinct day
      numbers. */
  lemma DayNumberOrder(a: Date, b: Date)
    ensures Before(a, b) <==> DayNumber(a) < DayNumber(b)
    ensures a == b <==> DayNumber(a) == DayNumber(b)
  {
    if Before(a, b) {
      BeforeMeansSmallerDayNumber(a, b);
    } else if Before(b, a) {
      BeforeMeansSmallerDayNumber(b, a);
    } else {
      assert a == b;
    }
  }

  /** The first day of a month is not after any day of that month. */
  lemma MonthStartFirst(d: Date, m: Month)
    requires InMonth(d, m)
    ensures DayNumber(MonthStart(m)) <= DayNumber(d)
  {
  }
}
