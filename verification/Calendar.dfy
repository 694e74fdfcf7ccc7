/**
 * Day numbers of the proleptic Gregorian calendar, as section 21.4.1 of
 * ECMA-262 computes them: day 0 is 1970-01-01.
 */
module Calendar {

  predicate IsLeap(y: int) {
    y % 4 == 0 && (y % 100 != 0 || y % 400 == 0)
  }

  function DaysInYear(y: int): int {
    if IsLeap(y) then 366 else 365
  }

  function DaysInMonth(y: int, m: int): int
    requires 1 <= m <= 12
  {
    if m == 2 then (if IsLeap(y) then 29 else 28)
    else if m == 4 || m == 6 || m == 9 || m == 11 then 30
    else 31
  }

  /** The number of the first day of a year. */
  function DayFromYear(y: int): int {
    365 * (y - 1970) + (y - 1969) / 4 - (y - 1901) / 100 + (y - 1601) / 400
  }

  /** The days of a year ahead of its `m`-th month. */
  function DaysBefore(y: int, m: int): int
    requires 1 <= m <= 13
    decreases m
  {
    if m == 1 then 0 else DaysBefore(y, m - 1) + DaysInMonth(y, m - 1)
  }

  datatype Date = Date(year: int, month: int, day: int)

  predicate Real(d: Date) {
    1 <= d.month <= 12 && 1 <= d.day <= DaysInMonth(d.year, d.month)
  }

  function DayNumber(d: Date): int
    requires 1 <= d.month <= 12
  {
    DayFromYear(d.year) + DaysBefore(d.year, d.month) + d.day - 1
  }

  /** 0 on a Monday, 6 on a Sunday: `(getUTCDay() + 6) % 7`. */
  function SinceMonday(n: int): int {
    ((n + 4) % 7 + 6) % 7
  }

  /** The day of the Monday of `n`'s week. */
  function Monday(n: int): int {
    n - SinceMonday(n)
  }

  // ----------------------------------------------------------------- the year's length

  lemma FourthYears(y: int)
    ensures (y - 1968) / 4 - (y - 1969) / 4 == if y % 4 == 0 then 1 else 0
  {
  }

  lemma Centuries(y: int)
    ensures (y - 1900) / 100 - (y - 1901) / 100 == if y % 100 == 0 then 1 else 0
  {
  }

  lemma FourthCenturies(y: int)
    ensures (y - 1600) / 400 - (y - 1601) / 400 == if y % 400 == 0 then 1 else 0
  {
  }

  lemma HundredTimes(y: int, k: int)
    requires y == 100 * k
    ensures y % 100 == 0
  {
  }

  lemma FourTimes(y: int, k: int)
    requires y == 4 * k
    ensures y % 4 == 0
  {
  }

  lemma LeapYears(y: int)
    ensures y % 400 == 0 ==> y % 100 == 0
    ensures y % 100 == 0 ==> y % 4 == 0
  {
    if y % 400 == 0 {
      HundredTimes(y, 4 * (y / 400));
    }
    if y % 100 == 0 {
      FourTimes(y, 25 * (y / 100));
    }
  }

  lemma YearLength(y: int)
    ensures DayFromYear(y + 1) == DayFromYear(y) + DaysInYear(y) > DayFromYear(y)
  {
    FourthYears(y);
    Centuries(y);
    FourthCenturies(y);
    LeapYears(y);
  }

  lemma MonthsFillTheYear(y: int)
    ensures DaysBefore(y, 13) == DaysInYear(y)
  {
    assert DaysBefore(y, 5) == DaysBefore(y, 4) + 30;
    assert DaysBefore(y, 9) == DaysBefore(y, 8) + 31;
  }

  lemma {:induction false} YearsAscend(y: int, z: int)
    requires y <= z
    ensures DayFromYear(y) + (z - y) <= DayFromYear(z)
    decreases z - y
  {
    if y < z {
      YearLength(z - 1);
      YearsAscend(y, z - 1);
    }
  }

  lemma {:induction false} MonthsAscend(y: int, m: int, k: int)
    requires 1 <= m <= k <= 13
    ensures DaysBefore(y, m) + (k - m) <= DaysBefore(y, k)
    decreases k - m
  {
    if m < k {
      MonthsAscend(y, m, k - 1);
    }
  }

  // -------------------------------------------------------------- dates and their order

  predicate Before(a: Date, b: Date) {
    a.year < b.year
      || (a.year == b.year && (a.month < b.month || (a.month == b.month && a.day < b.day)))
  }

  lemma WithinItsMonthAndYear(d: Date)
    requires Real(d)
    ensures DayFromYear(d.year) + DaysBefore(d.year, d.month) <= DayNumber(d)
         < DayFromYear(d.year) + DaysBefore(d.year, d.month + 1)
    ensures DayFromYear(d.year) <= DayNumber(d) < DayFromYear(d.year + 1)
  {
    MonthsAscend(d.year, 1, d.month);
    MonthsAscend(d.year, d.month + 1, 13);
    MonthsFillTheYear(d.year);
    YearLength(d.year);
  }

  lemma EarlierHasSmallerNumber(a: Date, b: Date)
    requires Real(a) && Real(b) && Before(a, b)
    ensures DayNumber(a) < DayNumber(b)
  {
    hide DayFromYear, DaysInMonth;
    WithinItsMonthAndYear(a);
    WithinItsMonthAndYear(b);
    if a.year < b.year {
      YearsAscend(a.year + 1, b.year);
    } else if a.month < b.month {
      MonthsAscend(a.year, a.month + 1, b.month);
    }
  }

  /** Day numbers order dates as year, month and day do, and tell them apart. */
  lemma DayNumberOrders(a: Date, b: Date)
    requires Real(a) && Real(b)
    ensures DayNumber(a) < DayNumber(b) <==> Before(a, b)
    ensures DayNumber(a) == DayNumber(b) <==> a == b
  {
    if Before(a, b) {
      EarlierHasSmallerNumber(a, b);
    } else if Before(b, a) {
      EarlierHasSmallerNumber(b, a);
    }
  }

  // ---------------------------------------------------------------- from number to date

  /** The largest year, from `y` on, that begins no later than day `n`. */
  function YearFrom(n: int, y: int): (r: int)
    requires DayFromYear(y) <= n
    ensures y <= r && DayFromYear(r) <= n < DayFromYear(r + 1)
    decreases n - DayFromYear(y)
  {
    hide DayFromYear, DaysInYear;
    YearLength(y);
    if n < DayFromYear(y + 1) then y else YearFrom(n, y + 1)
  }

  /** The month, from `m` on, that holds the `k`-th day of the year. */
  function MonthFrom(y: int, k: int, m: int): (r: int)
    requires 1 <= m <= 12 && DaysBefore(y, m) <= k < DaysInYear(y)
    ensures m <= r <= 12 && DaysBefore(y, r) <= k < DaysBefore(y, r + 1)
    decreases 12 - m
  {
    MonthsFillTheYear(y);
    if k < DaysBefore(y, m + 1) then m else MonthFrom(y, k, m + 1)
  }

  /** The year 0 begins with this day. */
  const EPOCH_ZERO: int := -719_528

  /** The first day a JavaScript date can hold, section 21.4.1.1 of ECMA-262, and a year that begins ahead of it. */
  const FIRST_DAY: int := -100_000_000
  const FIRST_YEAR: int := -271_822

  /** The date of a day. */
  function DateOf(n: int): (d: Date)
    requires n >= FIRST_DAY
    ensures Real(d) && DayNumber(d) == n
    ensures n >= EPOCH_ZERO <==> d.year >= 0
  {
    var y := YearFrom(n, if n >= EPOCH_ZERO then 0 else FIRST_YEAR);
    YearLength(y);
    BeforeYearZero(n, y);
    var k := n - DayFromYear(y);
    var m := MonthFrom(y, k, 1);
    Date(y, m, k - DaysBefore(y, m) + 1)
  }

  lemma BeforeYearZero(n: int, y: int)
    requires DayFromYear(y) <= n < DayFromYear(y + 1)
    ensures n >= EPOCH_ZERO <==> y >= 0
  {
    if y >= 0 {
      YearsAscend(0, y);
    } else {
      YearsAscend(y + 1, 0);
    }
  }

  lemma DateOfDayNumber(d: Date)
    requires Real(d) && DayNumber(d) >= FIRST_DAY
    ensures DateOf(DayNumber(d)) == d
  {
    DayNumberOrders(d, DateOf(DayNumber(d)));
  }

  lemma FromYearZero(d: Date)
    requires Real(d) && d.year >= 0
    ensures DayNumber(d) >= EPOCH_ZERO
  {
    WithinItsMonthAndYear(d);
    YearsAscend(0, d.year);
  }

  // ----------------------------------------------------- day numbers without month lengths

  /** The table of section 21.4.1.12 of ECMA-262: the days of a common year ahead of each month. */
  const AHEAD: seq<int> := [0, 31, 59, 90, 120, 151, 181, 212, 243, 273, 304, 334]

  /** The days of a year ahead of a month are those of the table, and the leap day from March on. */
  lemma MonthTable(y: int, m: int)
    requires 1 <= m <= 12
    ensures DaysBefore(y, m)
         == AHEAD[m - 1] + if m > 2 && y % 4 == 0 && (y % 100 != 0 || y % 400 == 0) then 1 else 0
  {
    if m > 4 {
      FirstMonths(y);
      LaterMonths(y, m);
    } else {
      FirstMonths(y);
    }
  }

  lemma FirstMonths(y: int)
    ensures DaysBefore(y, 1) == 0 && DaysBefore(y, 2) == 31
    ensures DaysBefore(y, 3) == 59 + if IsLeap(y) then 1 else 0
    ensures DaysBefore(y, 4) == DaysBefore(y, 3) + 31
  {
    hide IsLeap;
    assert DaysBefore(y, 2) == DaysBefore(y, 1) + DaysInMonth(y, 1);
    assert DaysBefore(y, 3) == DaysBefore(y, 2) + DaysInMonth(y, 2);
  }

  lemma {:induction false} LaterMonths(y: int, m: int)
    requires 4 <= m <= 12
    ensures DaysBefore(y, m) == DaysBefore(y, 4) + AHEAD[m - 1] - 90
  {
    hide IsLeap;
    if m > 4 {
      LaterMonths(y, m - 1);
    }
  }

  /**
   * The day number of every date by a formula that knows no month's length: years
   * counted from March, whose months begin on every 153rd fifth of a day.
   */
  lemma DayNumberFromMarch(d: Date)
    requires Real(d)
    ensures var y := if d.month <= 2 then d.year - 1 else d.year;
      DayNumber(d)
        == 365 * y + y / 4 - y / 100 + y / 400 + (153 * ((d.month + 9) % 12) + 2) / 5 + d.day - 719_469
  {
    MonthTable(d.year, d.month);
    MarchMonths(d.month);
    hide DaysBefore, Real;
    FromMarch(d.year);
  }

  lemma MarchMonths(m: int)
    requires 1 <= m <= 12
    ensures (153 * ((m + 9) % 12) + 2) / 5 == if m <= 2 then AHEAD[m - 1] + 306 else AHEAD[m - 1] - 59
  {
  }

  lemma FromMarch(y: int)
    ensures DayFromYear(y) == 365 * y + (y - 1) / 4 - (y - 1) / 100 + (y - 1) / 400 - 719_527
    ensures y / 4 - y / 100 + y / 400
         == (y - 1) / 4 - (y - 1) / 100 + (y - 1) / 400
          + if y % 4 == 0 && (y % 100 != 0 || y % 400 == 0) then 1 else 0
  {
    FourthYears(y);
    Centuries(y);
    FourthCenturies(y);
    LeapYears(y);
    Cycles(y);
    Cycles(y - 1);
  }

  lemma Cycles(y: int)
    ensures y / 4 == (y - 1968) / 4 + 492 && y / 100 == (y - 1900) / 100 + 19 && y / 400 == (y - 1600) / 400 + 4
  {
  }

  /** Day 0 is a Thursday, and the 29th of April 2024, which is a Monday, comes 19842 days later. */
  lemma KnownDays()
    ensures DayNumber(Date(1970, 1, 1)) == 0 && SinceMonday(0) == 3
    ensures DayNumber(Date(2024, 4, 29)) == 19_842 && SinceMonday(19_842) == 0
    ensures DayNumber(Date(2024, 5, 5)) == 19_842 + 6
  {
    hide DayNumber;
    DayNumberFromMarch(Date(1970, 1, 1));
    DayNumberFromMarch(Date(2024, 4, 29));
    DayNumberFromMarch(Date(2024, 5, 5));
  }

  /** Weeks are seven days long. */
  lemma WeekdaysRepeat(n: int)
    ensures SinceMonday(n) == (n + 3) % 7
  {
  }

  /** A month's length as the number of its days, and its first day as the last one's successor. */
  lemma MonthSpan(y: int, m: int)
    requires 1 <= m <= 12
    ensures var next := if m == 12 then Date(y + 1, 1, 1) else Date(y, m + 1, 1);
      DayNumber(next) == DayNumber(Date(y, m, 1)) + DaysInMonth(y, m)
  {
    YearLength(y);
    MonthsFillTheYear(y);
  }
}
