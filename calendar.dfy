/**
  Proleptic Gregorian dates, as Python's `datetime.date` and
  `calendar.monthrange` see them, and the schedule's month stepping.
 */
module Calendar {
  import opened Money

  /** The year range of `datetime.date`; constructing a date outside it raises ValueError. */
  const MinYear := 1
  const MaxYear := 9999

  datatype Date = Date(year: int, month: int, day: int)

  /** The Gregorian leap-year rule used by `calendar.isleap`. */
  predicate IsLeapYear(year: int)
  {
    year % 4 == 0 && (year % 100 != 0 || year % 400 == 0)
  }

  /** The day count `calendar.monthrange(year, month)[1]`. */
  function DaysInMonth(year: int, month: int): (n: int)
    requires 1 <= month <= 12
    ensures 28 <= n <= 31
    ensures month == 2 ==> (n == 29 <==> IsLeapYear(year)) && n <= 29
    ensures month != 2 ==> n >= 30
  {
    if month == 2 then (if IsLeapYear(year) then 29 else 28)
    else if month == 4 || month == 6 || month == 9 || month == 11 then 30
    else 31
  }

  /** A value `datetime.date` accepts. */
  predicate ValidDate(d: Date)
  {
    && MinYear <= d.year <= MaxYear
    && 1 <= d.month <= 12
    && 1 <= d.day <= DaysInMonth(d.year, d.month)
  }

  /** The number of whole months from January of year 0 to the month of `d`. */
  function MonthNumber(d: Date): int
  {
    d.year * 12 + d.month - 1
  }

  /** Dates in calendar order. */
  predicate Before(d: Date, e: Date)
  {
    d.year < e.year
    || (d.year == e.year && d.month < e.month)
    || (d.year == e.year && d.month == e.month && d.day < e.day)
  }

  /**
    `add_months`: move `k` calendar months from `d`, carrying the month index
    into the year and clamping the day to the length of the target month.
   */
  function AddMonths(d: Date, k: int): (r: Date)
    requires 1 <= d.month <= 12
    ensures 1 <= r.month <= 12
    ensures MonthNumber(r) == MonthNumber(d) + k
    // the day is kept unless the target month is shorter, when it is that month's last day
    ensures r.day <= d.day && r.day <= DaysInMonth(r.year, r.month)
    ensures r.day == d.day || r.day == DaysInMonth(r.year, r.month)
  {
    var monthIndex := d.month - 1 + k;
    var year := d.year + monthIndex / 12;
    var month := monthIndex % 12 + 1;
    Date(year, month, Min(d.day, DaysInMonth(year, month)))
  }

  /** Year and month are determined by the month number. */
  lemma MonthNumberDetermines(d: Date, e: Date)
    requires 1 <= d.month <= 12 && 1 <= e.month <= 12
    requires MonthNumber(d) == MonthNumber(e)
    ensures d.year == e.year && d.month == e.month
  {
  }

  /** Moving zero months gives the same date back. */
  lemma AddZeroMonths(d: Date)
    requires ValidDate(d)
    ensures AddMonths(d, 0) == d
  {
    MonthNumberDetermines(AddMonths(d, 0), d);
  }

  /** The result is a real calendar date exactly when its year is in the range `datetime.date` accepts. */
  lemma AddMonthsValid(d: Date, k: int)
    requires ValidDate(d)
    ensures ValidDate(AddMonths(d, k)) <==> MinYear <= AddMonths(d, k).year <= MaxYear
  {
  }

  /** Later offsets from the same start never fall in an earlier year. */
  lemma AddMonthsYearMonotone(d: Date, i: int, j: int)
    requires 1 <= d.month <= 12
    requires i <= j
    ensures AddMonths(d, i).year <= AddMonths(d, j).year
  {
  }

  /** Stepping forward from the same start gives strictly later dates. */
  lemma AddMonthsIncreasing(d: Date, i: int, j: int)
    requires 1 <= d.month <= 12
    requires i < j
    ensures Before(AddMonths(d, i), AddMonths(d, j))
  {
    var a, b := AddMonths(d, i), AddMonths(d, j);
    AddMonthsYearMonotone(d, i, j);
    if a.year == b.year {
      assert a.month < b.month;
    }
  }

  /** Up to day 28 no clamping happens, so steps compose. */
  lemma AddMonthsCompose(d: Date, i: int, j: int)
    requires 1 <= d.month <= 12 && 1 <= d.day <= 28
    ensures AddMonths(d, i).day == d.day
    ensures AddMonths(AddMonths(d, i), j) == AddMonths(d, i + j)
  {
    var a := AddMonths(d, i);
    MonthNumberDetermines(AddMonths(a, j), AddMonths(d, i + j));
  }

  /** Jan 31 steps to the last day of February; Dec 15 steps to Jan 15 of the next year. */
  lemma AddMonthsExamples()
    ensures AddMonths(Date(2024, 1, 31), 1) == Date(2024, 2, 29)
    ensures AddMonths(Date(2023, 1, 31), 1) == Date(2023, 2, 28)
    ensures AddMonths(Date(2023, 12, 15), 1) == Date(2024, 1, 15)
    ensures AddMonths(Date(2024, 3, 31), -1) == Date(2024, 2, 29)
  {
  }
}
