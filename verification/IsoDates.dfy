/**
 * Dates as `YYYY-MM-DD` text (section 4.1.2 of ISO 8601:2004), read and written
 * the way `new Date(...)` and `toISOString().slice(0, 10)` do.
 */
module IsoDates {
  import opened Digits
  import opened Calendar

  /** The first day of the year 10000, which four digits cannot write. */
  const END: int := 2_932_897

  /** The last day a JavaScript date can hold, section 21.4.1.1 of ECMA-262. */
  const LAST_DAY: int := 100_000_000

  lemma Ends()
    ensures DayFromYear(10_000) == END
  {
  }

  predicate FourDigitDay(n: int) {
    EPOCH_ZERO <= n < END
  }

  function Iso(d: Date): (s: string)
    requires d.year >= 0 && d.month >= 0 && d.day >= 0
    ensures |s| == 10
  {
    Pad(d.year, 4) + ("-" + (Pad(d.month, 2) + ("-" + Pad(d.day, 2))))
  }

  /** The first ten characters of `toISOString()`. A year of other than four digits is written with a sign and six. */
  function Stamp(n: int): (s: string)
    requires FIRST_DAY <= n <= LAST_DAY
    ensures |s| == 10
  {
    var d := DateOf(n);
    if 0 <= d.year <= 9999 then Iso(d)
    else if d.year > 9999 then "+" + Pad(d.year, 6) + "-" + Pad(d.month, 2)
    else "-" + Pad(-d.year, 6) + "-" + Pad(d.month, 2)
  }

  predicate HasDateShape(s: string) {
    |s| == 10 && AllDigits(s[..4]) && s[4] == '-' && AllDigits(s[5..7]) && s[7] == '-' && AllDigits(s[8..])
  }

  function Fields(s: string): Date
    requires HasDateShape(s)
  {
    Date(Num(s[..4]), Num(s[5..7]), Num(s[8..]))
  }

  /** A real calendar date in the four-digit form. */
  predicate IsDate(s: string) {
    HasDateShape(s) && Real(Fields(s))
  }

  function DayOf(s: string): (n: int)
    requires IsDate(s)
    ensures FourDigitDay(n)
  {
    var d := Fields(s);
    PadOfNum(s[..4]);
    FromYearZero(d);
    WithinItsMonthAndYear(d);
    YearsAscend(d.year + 1, 10_000);
    Ends();
    DayNumber(d)
  }

  lemma FourDigitYears(n: int)
    requires n >= EPOCH_ZERO
    ensures FourDigitDay(n) <==> DateOf(n).year <= 9999
  {
    hide DayNumber, DayFromYear;
    Ends();
    var d := DateOf(n);
    WithinItsMonthAndYear(d);
    if d.year <= 9999 {
      YearsAscend(d.year + 1, 10_000);
    } else {
      YearsAscend(10_000, d.year);
    }
  }

  lemma Widths()
    ensures Pow10(2) == 100 && Pow10(4) == 10_000
  {
  }

  lemma IsoFields(d: Date)
    requires Real(d) && 0 <= d.year <= 9999
    ensures IsDate(Iso(d)) && Fields(Iso(d)) == d
  {
    hide Pow10, Num, Pad, DaysInMonth;
    Widths();
    assert DaysInMonth(d.year, d.month) <= 31 by { MonthLengths(d.year, d.month); }
    var s := Iso(d);
    assert s[..4] == Pad(d.year, 4) && s[5..7] == Pad(d.month, 2) && s[8..] == Pad(d.day, 2);
    NumOfPad(d.year, 4);
    NumOfPad(d.month, 2);
    NumOfPad(d.day, 2);
  }

  /** Writing a four-digit day gives a date that reads back as that day. */
  lemma StampReadsBack(n: int)
    requires FourDigitDay(n)
    ensures IsDate(Stamp(n)) && DayOf(Stamp(n)) == n
  {
    FourDigitYears(n);
    IsoFields(DateOf(n));
  }

  /** Reading a date and writing it back gives the same text. */
  lemma DayOfWritesBack(s: string)
    requires IsDate(s)
    ensures Stamp(DayOf(s)) == s
  {
    hide Num, Pad, Pow10, DayNumber, DaysInMonth, DateOf, DayFromYear;
    var d := Fields(s);
    PadOfNum(s[..4]);
    PadOfNum(s[5..7]);
    PadOfNum(s[8..]);
    FromYearZero(d);
    FourDigitYears(DayOf(s));
    DateOfDayNumber(d);
    assert s == s[..4] + ("-" + (s[5..7] + ("-" + s[8..])));
  }

  lemma MonthLengths(y: int, m: int)
    requires 1 <= m <= 12
    ensures 28 <= DaysInMonth(y, m) <= 31
  {
  }

  lemma IsoOrders(a: Date, b: Date)
    requires Real(a) && Real(b) && 0 <= a.year <= 9999 && 0 <= b.year <= 9999
    ensures Less(Iso(a), Iso(b)) <==> Before(a, b)
  {
    hide Less, Pow10, Pad, DaysInMonth;
    Widths();
    MonthLengths(a.year, a.month);
    MonthLengths(b.year, b.month);
    LessOfPad(a.year, b.year, 4);
    LessOfPad(a.month, b.month, 2);
    LessOfPad(a.day, b.day, 2);
    var ad, bd := Pad(a.day, 2), Pad(b.day, 2);
    var am, bm := Pad(a.month, 2), Pad(b.month, 2);
    LessConcat(Pad(a.year, 4), "-" + (am + ("-" + ad)), Pad(b.year, 4), "-" + (bm + ("-" + bd)));
    LessDash(am + ("-" + ad), bm + ("-" + bd));
    LessConcat(am, "-" + ad, bm, "-" + bd);
    LessDash(ad, bd);
  }

  lemma LessDash(s: string, t: string)
    ensures Less("-" + s, "-" + t) <==> Less(s, t)
  {
    assert ("-" + s)[1..] == s && ("-" + t)[1..] == t;
  }

  /** Dates compare as text the way they follow each other in the calendar. */
  lemma TextOrderIsCalendarOrder(m: int, n: int)
    requires FourDigitDay(m) && FourDigitDay(n)
    ensures Less(Stamp(m), Stamp(n)) <==> m < n
    ensures Stamp(m) == Stamp(n) <==> m == n
  {
    hide Less, DateOf, DayNumber, Real, Iso;
    FourDigitYears(m);
    FourDigitYears(n);
    IsoOrders(DateOf(m), DateOf(n));
    DayNumberOrders(DateOf(m), DateOf(n));
    StampReadsBack(m);
    StampReadsBack(n);
  }

  /** The same, of dates as they are given. */
  lemma DatesCompareAsText(s: string, t: string)
    requires IsDate(s) && IsDate(t)
    ensures Less(s, t) <==> DayOf(s) < DayOf(t)
    ensures s == t <==> DayOf(s) == DayOf(t)
  {
    DayOfWritesBack(s);
    DayOfWritesBack(t);
    TextOrderIsCalendarOrder(DayOf(s), DayOf(t));
  }

  /** A day after the year 9999 is written so that it sorts before every four-digit date. */
  lemma LaterYearsSortFirst(m: int, n: int)
    requires FourDigitDay(m) && END <= n <= LAST_DAY
    ensures Less(Stamp(n), Stamp(m)) && !Less(Stamp(m), Stamp(n))
  {
    FourDigitYears(m);
    FourDigitYears(n);
    StampReadsBack(m);
    assert IsDigit(Stamp(m)[..4][0]);
    assert Stamp(n)[0] == '+' && Stamp(m)[0] == Stamp(m)[..4][0];
  }

  // -------------------------------------------------------------------- the operations

  /** `addDays` */
  function AddDays(date: string, days: int): string
    requires IsDate(date) && FIRST_DAY <= DayOf(date) + days <= LAST_DAY
  {
    Stamp(DayOf(date) + days)
  }

  /** `mondayOf`: the date, less the days since Monday. */
  function MondayOf(date: string): string
    requires IsDate(date)
  {
    AddDays(date, -SinceMonday(DayOf(date)))
  }

  /** Every day of `from..end`, written out. */
  function Days(from: int, end: int): (dates: seq<string>)
    requires EPOCH_ZERO <= from && end <= LAST_DAY + 1
    ensures |dates| == if from <= end then end - from else 0
    decreases end - from
  {
    if end <= from then [] else Days(from, end - 1) + [Stamp(end - 1)]
  }

  lemma {:induction false} DaysConcat(from: int, mid: int, end: int)
    requires EPOCH_ZERO <= from <= mid <= end <= LAST_DAY + 1
    ensures Days(from, mid) + Days(mid, end) == Days(from, end)
    decreases end - mid
  {
    hide Stamp;
    if mid < end {
      DaysConcat(from, mid, end - 1);
    }
  }
}
