/** The periods a report is cut into: weeks of a month, weeks of a span, the period before. */
module Periods {
  import opened Options
  import opened Ints
  import opened Digits
  import opened Calendar
  import opened IsoDates

  lemma MondayStartsTheWeek(n: int)
    ensures Monday(n) <= n < Monday(n) + 7
    ensures SinceMonday(Monday(n)) == 0
    ensures SinceMonday(n) == 0 ==> Monday(n + 7) == n + 7
  {
  }

  // ------------------------------------------------------------------- weeks of a month

  datatype Week = Week(index: nat, dates: seq<string>)

  /** `YYYY-MM` */
  predicate IsMonth(month: string) {
    |month| == 7 && IsDate(month + "-01")
  }

  function FirstDay(month: string): (n: int)
    requires IsMonth(month)
    ensures FourDigitDay(n)
  {
    DayOf(month + "-01")
  }

  /**
   * The first week starts in the year 0 or later: any month but 0000-01. Just
   * then does the loop over the weeks of the month end, see `MonthLoopEnds`.
   */
  predicate CutsInTime(month: string) {
    IsMonth(month) && EPOCH_ZERO <= Monday(FirstDay(month))
  }

  /** The same day a month later: `setUTCMonth(getUTCMonth() + 1)`. */
  function MonthLater(d: Date): Date {
    if d.month == 12 then Date(d.year + 1, 1, d.day) else Date(d.year, d.month + 1, d.day)
  }

  /** The first day of the month after. */
  function EndDay(month: string): int
    requires IsMonth(month)
  {
    DayNumber(MonthLater(Fields(month + "-01")))
  }

  lemma FirstOfTheMonth(month: string)
    requires IsMonth(month)
    ensures Fields(month + "-01").day == 1
  {
    hide DayOf, Real;
    var s := month + "-01";
    assert s[8..] == "01";
    assert Num("01") == 1;
  }

  /** A month has 28 to 31 days, and ends before the last of 9999 or is that one. */
  lemma EndOfMonth(month: string)
    requires IsMonth(month)
    ensures FirstDay(month) + 28 <= EndDay(month) <= FirstDay(month) + 31
    ensures EndDay(month) == END || EndDay(month) <= END - 31
  {
    hide DayFromYear, DaysBefore, DaysInMonth;
    var first, last := Fields(month + "-01"), Date(9999, 12, 1);
    FirstOfTheMonth(month);
    PadOfNum((month + "-01")[..4]);
    Widths();
    MonthSpan(first.year, first.month);
    MonthLengths(first.year, first.month);
    MonthLengths(9999, 12);
    DecemberEnds();
    if first != last {
      MonthLengths(MonthLater(first).year, MonthLater(first).month);
      DayNumberOrders(MonthLater(first), last);
    }
  }

  /** A day lies between a month's bounds if and only if its date is of that year and month. */
  lemma MonthHolds(month: string, n: int)
    requires IsMonth(month) && FourDigitDay(n)
    ensures FirstDay(month) <= n < EndDay(month)
       <==> DateOf(n).year == Fields(month + "-01").year && DateOf(n).month == Fields(month + "-01").month
  {
    hide DayNumber, DateOf, DaysInMonth;
    var first := Fields(month + "-01");
    var next, d := MonthLater(first), DateOf(n);
    FirstOfTheMonth(month);
    MonthLengths(next.year, next.month);
    DayNumberOrders(d, first);
    DayNumberOrders(d, next);
  }

  lemma DecemberEnds()
    ensures DayNumber(Date(9999, 12, 1)) == END - 31
    ensures DayNumber(Date(10_000, 1, 1)) == END
  {
    Ends();
    MonthSpan(9999, 12);
  }

  /** The month after's first day, written out. */
  function NextMonth(month: string): string
    requires IsMonth(month)
  {
    EndOfMonth(month);
    Stamp(EndDay(month))
  }

  predicate Keeps(date: string, first: string, next: string) {
    !Less(date, first) && Less(date, next)
  }

  function Clip(dates: seq<string>, first: string, next: string): seq<string> {
    if dates == [] then []
    else
      var n := |dates| - 1;
      Clip(dates[..n], first, next) + if Keeps(dates[n], first, next) then [dates[n]] else []
  }

  /** Clipping a run of days as text keeps the days of the month. */
  lemma {:induction false} ClipIsIntersection(from: int, end: int, first: int, next: int)
    requires FourDigitDay(from) && from <= end <= END && FourDigitDay(first) && FourDigitDay(next)
    ensures Clip(Days(from, end), Stamp(first), Stamp(next)) == Days(Max(from, first), Min(end, next))
    decreases end - from
  {
    hide Stamp, Keeps;
    if from < end {
      ClipIsIntersection(from, end - 1, first, next);
      ClipNext(Days(from, end - 1), Stamp(end - 1), Stamp(first), Stamp(next));
      KeepsTheMonth(end - 1, first, next);
    }
  }

  lemma KeepsTheMonth(n: int, first: int, next: int)
    requires FourDigitDay(n) && FourDigitDay(first) && FourDigitDay(next)
    ensures Keeps(Stamp(n), Stamp(first), Stamp(next)) <==> first <= n < next
  {
    hide Stamp, Less;
    TextOrderIsCalendarOrder(n, first);
    TextOrderIsCalendarOrder(n, next);
  }

  lemma ClipNext(dates: seq<string>, date: string, first: string, next: string)
    ensures Clip(dates + [date], first, next)
         == Clip(dates, first, next) + if Keeps(date, first, next) then [date] else []
  {
    assert (dates + [date])[..|dates|] == dates;
  }

  function Flatten(weeks: seq<Week>): seq<string> {
    if weeks == [] then [] else Flatten(weeks[..|weeks| - 1]) + weeks[|weeks| - 1].dates
  }

  /** The days of `first..next` that fall in the week starting on day `c`. */
  function Bucket(first: int, next: int, c: int): seq<string>
    requires FourDigitDay(first) && next <= END
  {
    Days(Max(c, first), Min(c + 7, next))
  }

  /** Buckets numbered from one, none empty, each the days of one Monday week. */
  predicate Numbered(first: int, next: int, weeks: seq<Week>)
    requires FourDigitDay(first) && next <= END
  {
    forall k :: 0 <= k < |weeks| ==>
      && weeks[k].index == k + 1
      && weeks[k].dates != []
      && weeks[k].dates == Bucket(first, next, Monday(first) + 7 * k)
  }

  /** Laid end to end, the buckets are all the days up to the end of the last. */
  predicate CutInWeeks(first: int, next: int, weeks: seq<Week>)
    requires FourDigitDay(first) && next <= END
  {
    && Numbered(first, next, weeks)
    && Flatten(weeks) == Days(first, Min(Max(first, Monday(first) + 7 * |weeks|), next))
  }

  lemma NextWeek(first: int, next: int, weeks: seq<Week>, week: Week)
    requires FourDigitDay(first) && first < next <= END && CutInWeeks(first, next, weeks)
    requires Monday(first) + 7 * |weeks| < next
    requires week == Week(|weeks| + 1, Bucket(first, next, Monday(first) + 7 * |weeks|))
    ensures week.dates != [] && CutInWeeks(first, next, weeks + [week])
  {
    hide Stamp, SinceMonday, Numbered, Days;
    MondayStartsTheWeek(first);
    var c := Monday(first) + 7 * |weeks|;
    NumberedNext(first, next, weeks, week);
    assert (weeks + [week])[..|weeks|] == weeks;
    DaysConcat(first, Max(first, c), Min(c + 7, next));
    assert first > c ==> Days(first, first) == [] by { DaysConcat(first, first, first); }
  }

  lemma NumberedNext(first: int, next: int, weeks: seq<Week>, week: Week)
    requires FourDigitDay(first) && first < next <= END && Numbered(first, next, weeks)
    requires Monday(first) + 7 * |weeks| < next
    requires week == Week(|weeks| + 1, Bucket(first, next, Monday(first) + 7 * |weeks|))
    ensures week.dates != [] && Numbered(first, next, weeks + [week])
  {
    hide SinceMonday, Stamp;
    MondayStartsTheWeek(first);
    assert |week.dates| > 0;
  }

  /** Seven days from the first of a week: `Array.from({ length: 7 }, ...)` over `mondayOf`. */
  function WeekOf(date: string): seq<string>
    requires IsDate(date) && EPOCH_ZERO <= Monday(DayOf(date))
  {
    Days(Monday(DayOf(date)), Monday(DayOf(date)) + 7)
  }

  /**
   * `weeksOfMonth`. The buckets cut the month in Monday weeks, and there are four
   * to six of them. There are two exceptions: 9999-12 gets none at all, for the
   * month after it is written with a sign and so sorts before every date, and
   * for 0000-01 the loop never ends.
   */
  method WeeksOfMonth(month: string) returns (weeks: seq<Week>)
    requires CutsInTime(month)
    ensures EndDay(month) <= END
    ensures EndDay(month) == END ==> weeks == []
    ensures EndDay(month) < END ==>
      && CutInWeeks(FirstDay(month), EndDay(month), weeks)
      && Flatten(weeks) == Days(FirstDay(month), EndDay(month))
      && 4 <= |weeks| <= 6
  {
    hide Stamp, Less, DayOf, DayNumber, EndDay, FirstDay, Cutting, CutInWeeks, Clip, SinceMonday;
    ghost var f, e := MonthBounds(month);
    var first := month + "-01";
    var nextMonth := NextMonth(month);
    var cursor := MondayOf(first);
    weeks := [];
    ghost var c := Monday(f);
    FirstCursor(f, e, first, nextMonth);
    while Less(cursor, nextMonth)
      invariant Cutting(f, e, c, cursor, nextMonth, weeks)
      decreases e - c
    {
      CutOneWeek(f, e, c, cursor, first, nextMonth, weeks);
      var dates := Clip(WeekOf(cursor), first, nextMonth);
      if |dates| > 0 {
        weeks := weeks + [Week(|weeks| + 1, dates)];
      }
      cursor := AddDays(cursor, 7);
      c := c + 7;
    }
    WholeMonth(f, e, c, cursor, nextMonth, weeks);
  }

  lemma MonthBounds(month: string) returns (f: int, e: int)
    requires CutsInTime(month)
    ensures f == FirstDay(month) == DayOf(month + "-01") && FourDigitDay(f) && EPOCH_ZERO <= Monday(f)
    ensures e == EndDay(month) == DayNumber(MonthLater(Fields(month + "-01")))
    ensures f + 28 <= e <= f + 31 && (e == END || e <= END - 31)
    ensures Stamp(f) == month + "-01"
  {
    hide DayNumber, Real, Fields, Stamp;
    f, e := FirstDay(month), EndDay(month);
    EndOfMonth(month);
    DayOfWritesBack(month + "-01");
  }

  /** The loop stands at the week of day `c`: either it has cut all the weeks before, or it never starts. */
  ghost predicate Cutting(f: int, e: int, c: int, cursor: string, nextMonth: string, weeks: seq<Week>) {
    && FourDigitDay(f) && EPOCH_ZERO <= Monday(f) && f + 28 <= e <= f + 31 && e <= END
    && if e == END then weeks == [] && !Less(cursor, nextMonth)
       else
         && e <= END - 31
         && c == Monday(f) + 7 * |weeks| && c < e + 7
         && cursor == Stamp(c) && nextMonth == Stamp(e)
         && CutInWeeks(f, e, weeks)
  }

  lemma FirstCursor(f: int, e: int, first: string, nextMonth: string)
    requires FourDigitDay(f) && EPOCH_ZERO <= Monday(f) && f + 28 <= e <= f + 31 && (e == END || e <= END - 31)
    requires first == Stamp(f) && nextMonth == Stamp(e)
    ensures IsDate(first) && DayOf(first) == f
    ensures Cutting(f, e, Monday(f), MondayOf(first), nextMonth, [])
  {
    hide Stamp, Less, DayOf, IsDate, SinceMonday;
    StampReadsBack(f);
    MondayStartsTheWeek(f);
    if e == END {
      LaterYearsSortFirst(Monday(f), e);
    }
  }

  lemma CutOneWeek(f: int, e: int, c: int, cursor: string, first: string, nextMonth: string, weeks: seq<Week>)
    requires Cutting(f, e, c, cursor, nextMonth, weeks) && Less(cursor, nextMonth) && first == Stamp(f)
    ensures c < e && IsDate(cursor) && DayOf(cursor) == Monday(c) == c && EPOCH_ZERO <= c && c + 7 <= END
    ensures var dates := Clip(WeekOf(cursor), first, nextMonth);
      && |dates| > 0
      && Cutting(f, e, c + 7, AddDays(cursor, 7), nextMonth, weeks + [Week(|weeks| + 1, dates)])
  {
    hide Stamp, Less, DayOf, IsDate, SinceMonday, CutInWeeks;
    TextOrderIsCalendarOrder(c, e);
    StampReadsBack(c);
    MondaysApart(f, |weeks|);
    ClipIsIntersection(c, c + 7, f, e);
    NextWeek(f, e, weeks, Week(|weeks| + 1, Clip(WeekOf(cursor), first, nextMonth)));
  }

  lemma MondaysApart(n: int, k: nat)
    ensures Monday(Monday(n) + 7 * k) == Monday(n) + 7 * k
    ensures Monday(n) <= n < Monday(n) + 7
  {
  }

  lemma WholeMonth(f: int, e: int, c: int, cursor: string, nextMonth: string, weeks: seq<Week>)
    requires Cutting(f, e, c, cursor, nextMonth, weeks) && !Less(cursor, nextMonth)
    ensures e < END ==> CutInWeeks(f, e, weeks) && Flatten(weeks) == Days(f, e) && 4 <= |weeks| <= 6
    ensures e == END ==> weeks == []
  {
    hide Stamp, Less, SinceMonday;
    MondayStartsTheWeek(f);
    if e < END {
      TextOrderIsCalendarOrder(c, e);
    }
  }

  // -------------------------------------------------------------------- weeks of a span

  datatype TrackerWeek = TrackerWeek(index: nat, from: string, end: string, isCurrent: bool)

  predicate WeekAt(w: TrackerWeek, k: nat, m: int, today: string)
    requires EPOCH_ZERO <= m && m + 7 * k + 6 <= LAST_DAY
  {
    && w.index == k + 1
    && w.from == Stamp(m + 7 * k)
    && w.end == Stamp(m + 7 * k + 6)
    && w.isCurrent == (!Less(today, w.from) && !Less(w.end, today))
  }

  /** Consecutive Monday weeks from day `m` on. */
  predicate WeeksFrom(m: int, weeks: seq<TrackerWeek>, today: string) {
    && EPOCH_ZERO <= m && m + 7 * |weeks| <= END
    && forall k :: 0 <= k < |weeks| ==> WeekAt(weeks[k], k, m, today)
  }

  lemma WeeksFromNext(m: int, weeks: seq<TrackerWeek>, today: string, week: TrackerWeek)
    requires WeeksFrom(m, weeks, today) && m + 7 * |weeks| + 7 <= END
    requires WeekAt(week, |weeks|, m, today)
    ensures WeeksFrom(m, weeks + [week], today)
  {
    hide WeekAt;
  }

  /** The span's last week is followed by another in the year 9999 or earlier. */
  predicate EndsInTime(to: string) {
    IsDate(to) && Monday(DayOf(to)) + 7 < END
  }

  /** Just for these spans does the loop over the weeks end, see `SpanLoopEnds`. */
  predicate WalksInTime(from: string, to: string) {
    IsDate(from) && EPOCH_ZERO <= Monday(DayOf(from)) && EndsInTime(to)
  }

  /** `weeksBetween`: consecutive Monday weeks from the first date's to the last date's. */
  method WeeksBetween(from: string, to: string, today: string) returns (weeks: seq<TrackerWeek>)
    requires WalksInTime(from, to) && IsDate(today)
    ensures var m := Monday(DayOf(from));
      && m + 7 * |weeks| > DayOf(to)
      && (|weeks| > 0 ==> m + 7 * (|weeks| - 1) <= DayOf(to))
      && WeeksFrom(m, weeks, today)
  {
    hide Stamp, Less, DayOf, IsDate, SinceMonday, WeeksFrom, Walking;
    ghost var m, t := Monday(DayOf(from)), DayOf(to);
    StartWalk(from, today);
    weeks := [];
    var cursor := MondayOf(from);
    var index := 1;
    WalkGoesOn(m, to, cursor, [], today);
    while !Less(to, cursor)
      invariant Walking(m, to, cursor, weeks, today) && index == |weeks| + 1
      invariant !Less(to, cursor) <==> m + 7 * |weeks| <= t
      decreases t - m - 7 * |weeks|
    {
      WalkOneWeek(m, to, cursor, weeks, today);
      var end := AddDays(cursor, 6);
      weeks := weeks + [TrackerWeek(index, cursor, end, !Less(today, cursor) && !Less(end, today))];
      cursor := AddDays(cursor, 7);
      index := index + 1;
      WalkGoesOn(m, to, cursor, weeks, today);
    }
    WalkEnds(m, to, cursor, weeks, today);
  }

  /** The cursor stands at the Monday after the weeks so far, none of which begins after `to`. */
  ghost predicate Walking(m: int, to: string, cursor: string, weeks: seq<TrackerWeek>, today: string)
    requires IsDate(to)
  {
    var c := m + 7 * |weeks|;
    && SinceMonday(m) == 0
    && WeeksFrom(m, weeks, today)
    && c < END && cursor == Stamp(c)
    && (|weeks| > 0 ==> c - 7 <= DayOf(to))
  }

  lemma StartWalk(from: string, today: string)
    requires IsDate(from) && EPOCH_ZERO <= Monday(DayOf(from))
    ensures var m := Monday(DayOf(from));
      && m < END && SinceMonday(m) == 0 && WeeksFrom(m, [], today)
      && MondayOf(from) == Stamp(m)
  {
    hide Stamp;
    MondayStartsTheWeek(DayOf(from));
  }

  lemma WalkGoesOn(m: int, to: string, cursor: string, weeks: seq<TrackerWeek>, today: string)
    requires EndsInTime(to) && EPOCH_ZERO <= m && m + 7 * |weeks| < END && cursor == Stamp(m + 7 * |weeks|)
    requires SinceMonday(m) == 0 && WeeksFrom(m, weeks, today)
    requires |weeks| > 0 ==> m + 7 * |weeks| - 7 <= DayOf(to)
    ensures Walking(m, to, cursor, weeks, today)
    ensures !Less(to, cursor) <==> m + 7 * |weeks| <= DayOf(to)
  {
    hide Stamp, Less;
    DayOfWritesBack(to);
    TextOrderIsCalendarOrder(DayOf(to), m + 7 * |weeks|);
  }

  lemma WalkOneWeek(m: int, to: string, cursor: string, weeks: seq<TrackerWeek>, today: string)
    requires EndsInTime(to) && Walking(m, to, cursor, weeks, today) && m + 7 * |weeks| <= DayOf(to)
    ensures EPOCH_ZERO <= m && m + 7 * |weeks| + 7 < END
    ensures IsDate(cursor) && DayOf(cursor) == m + 7 * |weeks|
    ensures var end := AddDays(cursor, 6);
      var week := TrackerWeek(|weeks| + 1, cursor, end, !Less(today, cursor) && !Less(end, today));
      WeeksFrom(m, weeks + [week], today)
  {
    hide Stamp, Less, DayOf, IsDate, SinceMonday;
    var c := m + 7 * |weeks|;
    StampReadsBack(c);
    SameWeekBound(m, |weeks|, DayOf(to));
    var end := AddDays(cursor, 6);
    WeeksFromNext(m, weeks, today,
      TrackerWeek(|weeks| + 1, cursor, end, !Less(today, cursor) && !Less(end, today)));
  }

  lemma WalkEnds(m: int, to: string, cursor: string, weeks: seq<TrackerWeek>, today: string)
    requires EndsInTime(to) && Walking(m, to, cursor, weeks, today)
    ensures WeeksFrom(m, weeks, today) && (|weeks| > 0 ==> m + 7 * (|weeks| - 1) <= DayOf(to))
  {
  }

  /** A Monday no later than `t` is no later than the Monday of `t`'s week. */
  lemma SameWeekBound(m: int, k: nat, t: int)
    requires SinceMonday(m) == 0 && m + 7 * k <= t
    ensures m + 7 * k <= Monday(t)
  {
    assert SinceMonday(m + 7 * k) == 0;
  }

  /** Every date from the first Monday on lies in exactly one of the weeks, as dates compare. */
  lemma EachDateHasItsWeek(m: int, weeks: seq<TrackerWeek>, today: string, date: string, k: nat)
    requires WeeksFrom(m, weeks, today) && k < |weeks|
    requires IsDate(date) && m <= DayOf(date) < m + 7 * |weeks|
    ensures !Less(date, weeks[k].from) && !Less(weeks[k].end, date) <==> k == (DayOf(date) - m) / 7
  {
    hide Stamp, Less, DayOf, IsDate;
    assert WeekAt(weeks[k], k, m, today);
    DayOfWritesBack(date);
    TextOrderIsCalendarOrder(DayOf(date), m + 7 * k);
    TextOrderIsCalendarOrder(m + 7 * k + 6, DayOf(date));
  }

  /** The week marked current is the one that today falls in. */
  lemma CurrentWeek(m: int, weeks: seq<TrackerWeek>, today: string, k: nat)
    requires WeeksFrom(m, weeks, today) && k < |weeks| && IsDate(today)
    ensures weeks[k].isCurrent <==> m + 7 * k <= DayOf(today) < m + 7 * k + 7
  {
    hide Stamp, Less, DayOf, IsDate;
    assert WeekAt(weeks[k], k, m, today);
    DayOfWritesBack(today);
    TextOrderIsCalendarOrder(DayOf(today), m + 7 * k);
    TextOrderIsCalendarOrder(m + 7 * k + 6, DayOf(today));
  }

  /** The week that begins on the 29th of April 2024, a Monday, ends on the 5th of May. */
  lemma AWeekInTwoMonths(from: string)
    requires from == "2024-04-29"
    ensures IsDate(from) && MondayOf(from) == from && AddDays(from, 6) == "2024-05-05"
  {
    hide Num, Pad, DayNumber, Digit, DateOf;
    var a, b := Date(2024, 4, 29), Date(2024, 5, 5);
    IsoFields(a);
    PadOfFour(2024);
    PadOfFour(4);
    PadOfFour(29);
    PadOfFour(5);
    SomeDigits();
    assert Iso(a) == from && Iso(b) == "2024-05-05";
    KnownDays();
    DateOfDayNumber(a);
    DateOfDayNumber(b);
  }

  // ----------------------------------------------------------- where the week loops end

  /** What is left of a date of other than four year digits once it is cut to ten characters: `±YYYYYY-MM`. */
  predicate IsExpanded(s: string) {
    && |s| == 10 && (s[0] == '+' || s[0] == '-') && AllDigits(s[1..7]) && s[7] == '-' && AllDigits(s[8..])
    && 1 <= Num(s[8..]) <= 12
    && (s[0] == '-' ==> Num(s[1..7]) > 0)
  }

  /** Read back, it is the first of its month. */
  function ExpandedDay(s: string): int
    requires IsExpanded(s)
  {
    var year: int := Num(s[1..7]);
    DayNumber(Date(if s[0] == '+' then year else -year, Num(s[8..]), 1))
  }

  /** The day that a cursor reads as, if any. */
  function ReadDay(cursor: string): Option<int> {
    if IsDate(cursor) then Some(DayOf(cursor))
    else if IsExpanded(cursor) then Some(ExpandedDay(cursor))
    else None
  }

  /** `addDays(cursor, 7)`; an unreadable date or one out of range throws. */
  function WeekLater(cursor: string): Option<string> {
    var day := ReadDay(cursor);
    if day.Some? && FIRST_DAY <= day.value + 7 <= LAST_DAY then Some(Stamp(day.value + 7)) else None
  }

  /** The cursor of a week loop after `k` turns. */
  function CursorAt(start: string, k: nat): Option<string> {
    if k == 0 then Some(start)
    else
      var before := CursorAt(start, k - 1);
      if before.Some? then WeekLater(before.value) else None
  }

  /**
   * A cursor that leaves the year 9999 never moves again, and no date is before
   * it.
   */
  lemma CursorSticks(n: int, to: string)
    requires END <= n <= LAST_DAY && IsDate(to)
    ensures IsExpanded(Stamp(n)) && ExpandedDay(Stamp(n)) >= END
    ensures ExpandedDay(Stamp(n)) + 7 <= LAST_DAY ==> WeekLater(Stamp(n)) == Some(Stamp(n))
    ensures !Less(to, Stamp(n))
  {
    hide DayOf, Less, IsExpanded, Stamp, DayNumber, DaysInMonth, IsDate, DateOf, Num, AllDigits;
    var d := DateOf(n);
    FourDigitYears(n);
    ExpandedFields(n);
    EarlyInTheMonth(d.year, d.month);
    var first := DayNumber(Date(d.year, d.month, 1));
    SignIsNoDigit(Stamp(n));
    if first + 7 <= LAST_DAY {
      SameMonthSameStamp(n, first + 7);
    }
    NothingSortsBefore(n, to);
  }

  lemma SignIsNoDigit(s: string)
    requires IsExpanded(s)
    ensures !IsDate(s)
  {
    hide Num, Real;
    assert s[..4][0] == s[0];
  }

  lemma NothingSortsBefore(n: int, to: string)
    requires END <= n <= LAST_DAY && IsDate(to)
    ensures !Less(to, Stamp(n))
  {
    hide DayOf, Less, Stamp, IsDate;
    DayOfWritesBack(to);
    LaterYearsSortFirst(DayOf(to), n);
  }

  lemma SameMonthSameStamp(m: int, n: int)
    requires END <= m <= LAST_DAY && END <= n <= LAST_DAY
    requires DateOf(m).year == DateOf(n).year && DateOf(m).month == DateOf(n).month
    ensures Stamp(m) == Stamp(n)
  {
    FourDigitYears(m);
    FourDigitYears(n);
  }

  lemma ExpandedFields(n: int)
    requires END <= n <= LAST_DAY
    ensures var d, s := DateOf(n), Stamp(n);
      IsExpanded(s) && s[0] == '+' && Num(s[1..7]) == d.year && Num(s[8..]) == d.month
  {
    hide DayNumber, Num, Pad, Pow10, DaysInMonth;
    var d, s := DateOf(n), Stamp(n);
    FourDigitYears(n);
    SixDigitYears(n);
    Widths();
    assert s[1..7] == Pad(d.year, 6) && s[8..] == Pad(d.month, 2);
    NumOfPad(d.year, 6);
    NumOfPad(d.month, 2);
  }

  lemma EarlyInTheMonth(y: int, m: int)
    requires y > 9999 && 1 <= m <= 12
    ensures var first, later := DayNumber(Date(y, m, 1)), DayNumber(Date(y, m, 8));
      END <= first && later == first + 7 && DateOf(later) == Date(y, m, 8)
  {
    MonthLengths(y, m);
    YearsAscend(10_000, y);
    Ends();
    MonthsAscend(y, 1, m);
    DateOfDayNumber(Date(y, m, 8));
  }

  lemma SixDigitYears(n: int)
    requires EPOCH_ZERO <= n <= LAST_DAY
    ensures DateOf(n).year < Pow10(6)
  {
    hide DayNumber;
    var d := DateOf(n);
    WithinItsMonthAndYear(d);
    Millions();
    if d.year >= 275_761 {
      YearsAscend(275_761, d.year);
      assert false;
    }
  }

  lemma Millions()
    ensures Pow10(6) == 1_000_000
    ensures DayFromYear(275_761) > LAST_DAY
  {
  }

  /** From year zero on the cursor moves a week at a time as long as four digits can write it. */
  lemma {:induction false} CursorMoves(m: int, k: nat)
    requires EPOCH_ZERO <= m && m + 7 * k - 7 < END && m < END
    ensures CursorAt(Stamp(m), k) == Some(Stamp(m + 7 * k))
    decreases k
  {
    hide Stamp, IsDate, IsExpanded, DayOf;
    if k == 0 {
    } else {
      CursorMoves(m, k - 1);
      StampReadsBack(m + 7 * k - 7);
    }
  }

  /** A cursor that writes itself again stays where it is. */
  lemma {:induction false} CursorStays(start: string, k: nat, n: nat)
    requires CursorAt(start, k).Some? && WeekLater(CursorAt(start, k).value) == CursorAt(start, k)
    ensures CursorAt(start, k + n) == CursorAt(start, k)
  {
    hide WeekLater;
    if n == 0 {
    } else {
      CursorStays(start, k, n - 1);
    }
  }

  /** The turn at which the cursor of a walk from day `m` leaves the year 9999. */
  function LastTurn(m: int): (k: nat)
    requires m < END
    ensures END <= m + 7 * k < END + 7
  {
    (END - m + 6) / 7
  }

  /** Where the cursor stands after `k` turns of a walk from the year 0 or later. */
  lemma CursorOfYears(m: int, k: nat, date: string)
    requires EPOCH_ZERO <= m < END && IsDate(date)
    ensures CursorAt(Stamp(m), k).Some?
    ensures Less(date, CursorAt(Stamp(m), k).value) <==> DayOf(date) < m + 7 * k < END
    ensures Less(CursorAt(Stamp(m), k).value, date) <==> m + 7 * k < DayOf(date) || m + 7 * k >= END
  {
    hide Stamp, IsDate, IsExpanded, DayOf, Less, WeekLater, CursorAt;
    var last := LastTurn(m);
    if k < last {
      CursorMoves(m, k);
      DayOfWritesBack(date);
      TextOrderIsCalendarOrder(DayOf(date), m + 7 * k);
      TextOrderIsCalendarOrder(m + 7 * k, DayOf(date));
    } else {
      CursorMoves(m, last);
      CursorSticks(m + 7 * last, date);
      EarlyTenThousand(m + 7 * last);
      CursorStays(Stamp(m), last, k - last);
      DayOfWritesBack(date);
      LaterYearsSortFirst(DayOf(date), m + 7 * last);
    }
  }

  lemma EarlyTenThousand(n: int)
    requires END <= n < END + 7
    ensures IsExpanded(Stamp(n)) && ExpandedDay(Stamp(n)) + 7 <= LAST_DAY
  {
    hide IsExpanded, DayNumber, Num, DateOf, Stamp, DaysInMonth, DayFromYear;
    var d := DateOf(n);
    ExpandedFields(n);
    WithinItsMonthAndYear(d);
    Ends();
    if d.year > 10_000 {
      YearsAscend(10_001, d.year);
      TenThousandIsLong();
      assert false;
    }
    FourDigitYears(n);
    assert ExpandedDay(Stamp(n)) == DayNumber(Date(10_000, d.month, 1)) by { assert Stamp(n)[0] == '+'; }
    FirstIsEarlier(d);
  }

  lemma TenThousandIsLong()
    ensures DayFromYear(10_001) > END + 7
  {
  }

  lemma FirstIsEarlier(d: Date)
    requires Real(d)
    ensures DayNumber(Date(d.year, d.month, 1)) <= DayNumber(d)
  {
  }

  /** A week that begins before the year 0 is written as the December of the year -1, and so is the next. */
  lemma BeforeTheYearZero(m: int, date: string)
    requires EPOCH_ZERO - 7 < m < EPOCH_ZERO && IsDate(date)
    ensures Stamp(m) == "-000001-12" && WeekLater(Stamp(m)) == Some(Stamp(m))
    ensures Less(Stamp(m), date) && !Less(date, Stamp(m))
  {
    hide Less, IsDate, Stamp, WeekLater;
    DecemberOfMinusOne(m);
    DecemberStays("-000001-12");
    SortsFirst("-000001-12", date);
  }

  lemma DecemberStays(text: string)
    requires text == "-000001-12"
    ensures WeekLater(text) == Some(text)
  {
    hide DayOf, IsDate, Stamp, IsExpanded, ExpandedDay;
    DecemberOfMinusOne(EPOCH_ZERO - 24);
    ReadsDecember();
    SignIsNoDigit(text);
  }

  lemma DecemberOfMinusOne(n: int)
    requires EPOCH_ZERO - 31 <= n < EPOCH_ZERO
    ensures Stamp(n) == "-000001-12"
  {
    hide Num, Pad, DateOf, DayNumber;
    var d := Date(-1, 12, n - EPOCH_ZERO + 32);
    LastMonthBeforeZero(d.day);
    DateOfDayNumber(d);
    PadsOfDecember();
  }

  lemma LastMonthBeforeZero(day: int)
    ensures DayNumber(Date(-1, 12, day)) == EPOCH_ZERO - 32 + day
  {
    MonthSpan(-1, 12);
  }

  lemma PadsOfDecember()
    ensures Pad(1, 6) == "000001" && Pad(12, 2) == "12"
  {
    hide Pad;
    PadOfFour(0);
    PadOfFour(12);
    PadNext(0, 5);
    PadNext(1, 6);
  }

  lemma ReadsDecember()
    ensures IsExpanded("-000001-12") && ExpandedDay("-000001-12") == EPOCH_ZERO - 31
  {
    var text := "-000001-12";
    PadsOfDecember();
    LastMonthBeforeZero(1);
    Widths();
    assert text[1..7] == "000001" && text[8..] == "12";
    NumOfPad(1, 6);
    NumOfPad(12, 2);
  }

  lemma SortsFirst(text: string, date: string)
    requires text != "" && text[0] == '-' && IsDate(date)
    ensures Less(text, date) && !Less(date, text)
  {
    hide Num, Real;
    assert IsDigit(date[..4][0]) && date[..4][0] == date[0];
  }

  // ------------------------------------------------------------------ when they end

  /** After `k` turns the cursor is past the last date: the loop of `weeksBetween` is over. */
  predicate IsPast(start: string, k: nat, to: string) {
    var cursor := CursorAt(start, k);
    cursor.Some? && Less(to, cursor.value)
  }

  /**
   * The loop of `weeksBetween` never throws, and it ends if and only if the first
   * week starts in the year 0 or later and the last is followed by another in the
   * year 9999 or earlier.
   */
  lemma SpanLoopEnds(from: string, to: string)
    requires IsDate(from) && IsDate(to)
    ensures forall k: nat :: CursorAt(MondayOf(from), k).Some?
    ensures (exists k: nat :: IsPast(MondayOf(from), k, to)) <==> WalksInTime(from, to)
  {
    hide Stamp, IsDate, DayOf, Less, CursorAt, SinceMonday, WeekLater;
    var m, t := Monday(DayOf(from)), DayOf(to);
    MondayStartsTheWeek(DayOf(from));
    assert MondayOf(from) == Stamp(m);
    if m < EPOCH_ZERO {
      BeforeTheYearZero(m, to);
      forall k: nat ensures CursorAt(Stamp(m), k) == Some(Stamp(m)) {
        StaysFromTheStart(Stamp(m), k);
      }
    } else {
      forall k: nat ensures CursorAt(Stamp(m), k).Some? && (IsPast(Stamp(m), k, to) ==> EndsInTime(to)) {
        CursorOfYears(m, k, to);
        if t < m + 7 * k {
          MondaysApartBy(t, m, k);
        }
      }
      if EndsInTime(to) {
        WeekAfter(m, t);
        CursorOfYears(m, TurnsPast(m, t), to);
        assert IsPast(Stamp(m), TurnsPast(m, t), to);
      }
    }
  }

  lemma StaysFromTheStart(start: string, k: nat)
    requires WeekLater(start) == Some(start)
    ensures CursorAt(start, k) == Some(start)
  {
    hide WeekLater;
    CursorStays(start, 0, k);
  }

  /** The turns it takes from Monday `m` to get past day `t`. */
  function TurnsPast(m: int, t: int): nat {
    if t < m then 0 else (t - m) / 7 + 1
  }

  lemma WeekAfter(m: int, t: int)
    requires SinceMonday(m) == 0
    ensures t < m + 7 * TurnsPast(m, t)
    ensures m < END && Monday(t) + 7 < END ==> m + 7 * TurnsPast(m, t) < END
  {
    MondayStartsTheWeek(t);
    if t >= m {
      SameWeekBound(m, TurnsPast(m, t) - 1, t);
    }
  }

  /** A Monday after day `t` is a week or more after the Monday of its week. */
  lemma MondaysApartBy(t: int, m: int, k: nat)
    requires SinceMonday(m) == 0 && t < m + 7 * k
    ensures Monday(t) + 7 <= m + 7 * k
  {
    assert SinceMonday(m + 7 * k) == 0;
  }

  /** After `k` turns the cursor is not before the next month: the loop of `weeksOfMonth` is over. */
  predicate IsThrough(start: string, k: nat, nextMonth: string) {
    var cursor := CursorAt(start, k);
    cursor.Some? && !Less(cursor.value, nextMonth)
  }

  /** The loop of `weeksOfMonth` ends for every month but 0000-01. */
  lemma MonthLoopEnds(month: string, first: string, nextMonth: string)
    requires IsMonth(month) && first == month + "-01" && nextMonth == NextMonth(month)
    ensures (exists k: nat :: IsThrough(MondayOf(first), k, nextMonth)) <==> CutsInTime(month)
    ensures CutsInTime(month) <==> month != "0000-01"
  {
    hide Stamp, IsDate, DayOf, Less, CursorAt, SinceMonday, WeekLater, DayNumber;
    var f, e := FirstDay(month), EndDay(month);
    var m := Monday(f);
    EndOfMonth(month);
    MondayStartsTheWeek(f);
    FirstMonth(month);
    assert MondayOf(first) == Stamp(m);
    if m < EPOCH_ZERO {
      StampReadsBack(e);
      BeforeTheYearZero(m, nextMonth);
      forall k: nat ensures !IsThrough(Stamp(m), k, nextMonth) {
        StaysFromTheStart(Stamp(m), k);
      }
    } else if e == END {
      LaterYearsSortFirst(m, e);
      assert CursorAt(Stamp(m), 0) == Some(Stamp(m)) by { NoTurn(Stamp(m)); }
      assert IsThrough(Stamp(m), 0, nextMonth);
    } else {
      StampReadsBack(e);
      var k := TurnsPast(m, e);
      CursorOfYears(m, k, nextMonth);
      WeekAfter(m, e);
      MondayStartsTheWeek(e);
      assert IsThrough(Stamp(m), k, nextMonth);
    }
  }

  lemma NoTurn(start: string)
    ensures CursorAt(start, 0) == Some(start)
  {
  }

  /** 0000-01 is the one month whose first week starts before the year 0. */
  lemma FirstMonth(month: string)
    requires IsMonth(month)
    ensures Monday(FirstDay(month)) < EPOCH_ZERO <==> month == "0000-01"
  {
    hide Stamp, DayOf, IsDate;
    ZeroIsSaturday();
    if month == "0000-01" {
      assert month + "-01" == "0000-01-01";
    } else {
      assert (month + "-01")[..7] == month && "0000-01-01"[..7] == "0000-01";
      DatesCompareAsText(month + "-01", "0000-01-01");
      SecondMonth(month);
      MondayStartsTheWeek(FirstDay(month));
    }
  }

  lemma ZeroIsSaturday()
    ensures IsDate("0000-01-01") && DayOf("0000-01-01") == EPOCH_ZERO && SinceMonday(EPOCH_ZERO) == 5
  {
    hide Num, Pad;
    IsoFields(Date(0, 1, 1));
    PadsOfZero();
    assert Iso(Date(0, 1, 1)) == "0000-01-01";
  }

  lemma PadsOfZero()
    ensures Pad(0, 4) == "0000" && Pad(1, 2) == "01"
  {
    hide Pad, Digit;
    PadOfFour(0);
    PadOfFour(1);
    SomeDigits();
  }

  lemma SecondMonth(month: string)
    requires IsMonth(month) && FirstDay(month) != EPOCH_ZERO
    ensures FirstDay(month) >= EPOCH_ZERO + 31
  {
    hide Num, AllDigits, DaysBefore;
    FirstOfTheMonth(month);
    var d, second := Fields(month + "-01"), Date(0, 2, 1);
    MonthSpan(0, 1);
    MonthLengths(0, 2);
    DayNumberOrders(d, second);
    ZeroDay();
    assert d != Date(0, 1, 1);
  }

  lemma ZeroDay()
    ensures DayNumber(Date(0, 1, 1)) == EPOCH_ZERO
  {
  }

  // ---------------------------------------------------------------------- where they hang

  /** The last week of 9999 is not followed by one that four digits can write. */
  lemma TheLastWeekHangs(from: string)
    requires IsDate(from)
    ensures IsDate("9999-12-31") && !EndsInTime("9999-12-31")
    ensures !exists k: nat :: IsPast(MondayOf(from), k, "9999-12-31")
  {
    hide Stamp, DayOf, IsPast, MondayOf, SinceMonday;
    LastOfAll();
    SpanLoopEnds(from, "9999-12-31");
  }

  lemma LastOfAll()
    ensures IsDate("9999-12-31") && DayOf("9999-12-31") == END - 1 && Monday(END - 1) + 7 >= END
  {
    hide Num, Pad;
    IsoFields(Date(9999, 12, 31));
    PadsOfTheEnd();
    assert Iso(Date(9999, 12, 31)) == "9999-12-31";
    DecemberEnds();
  }

  lemma PadsOfTheEnd()
    ensures Pad(9999, 4) == "9999" && Pad(12, 2) == "12" && Pad(31, 2) == "31"
  {
    hide Pad, Digit;
    PadOfFour(9999);
    PadOfFour(12);
    PadOfFour(31);
    SomeDigits();
  }

  lemma SomeDigits()
    ensures Digit(0) == '0' && Digit(1) == '1' && Digit(2) == '2' && Digit(3) == '3' && Digit(4) == '4'
    ensures Digit(5) == '5' && Digit(6) == '6' && Digit(7) == '7' && Digit(8) == '8' && Digit(9) == '9'
  {
  }

  /** So does a span that starts on the first day of the year 0, whatever it ends with. */
  lemma TheFirstWeekHangs(to: string)
    requires IsDate(to)
    ensures IsDate("0000-01-01") && !exists k: nat :: IsPast(MondayOf("0000-01-01"), k, to)
  {
    hide Stamp, DayOf, IsPast, MondayOf, IsDate;
    ZeroIsSaturday();
    SpanLoopEnds("0000-01-01", to);
  }

  /** The weeks of the first month of the year 0 are never cut; those of the last of 9999 are none. */
  lemma TheFirstMonthHangs()
    ensures IsMonth("0000-01") && "0000-01" + "-01" == "0000-01-01"
    ensures IsDate("0000-01-01") && !exists k: nat :: IsThrough(MondayOf("0000-01-01"), k, NextMonth("0000-01"))
    ensures IsMonth("9999-12") && EndDay("9999-12") == END
  {
    hide Stamp, DayOf, IsThrough, MondayOf, IsDate, NextMonth;
    ZeroIsSaturday();
    assert "0000-01" + "-01" == "0000-01-01";
    MonthLoopEnds("0000-01", "0000-01-01", NextMonth("0000-01"));
    LastMonth();
  }

  lemma LastMonth()
    ensures IsMonth("9999-12") && EndDay("9999-12") == END
  {
    hide Num, Pad, DayNumber;
    var d := Date(9999, 12, 1);
    IsoFields(d);
    PadsOfTheEnd();
    PadsOfZero();
    assert Iso(d) == "9999-12-01" == "9999-12" + "-01";
    DecemberEnds();
  }

  // ------------------------------------------------------------ dates one at a time

  const MOST_DATES: nat := 1000

  /**
   * The day `Date.UTC` makes of a date's numbers: it takes the years 0 to 99 as
   * 1900 to 1999 (section 21.4.3.4 of ECMA-262), and a 29 February that the
   * later year does not have as the day after its last.
   */
  function UtcDay(date: string): (n: int)
    requires IsDate(date)
    ensures DayFromYear(100) <= n < END
    ensures Fields(date).year >= 100 ==> n == DayOf(date)
  {
    var d := Fields(date);
    UtcYears(d);
    if d.year < 100 then DayNumber(d.(year := 1900 + d.year)) else DayOf(date)
  }

  lemma UtcYears(d: Date)
    requires Real(d) && 0 <= d.year
    ensures d.year >= 100 ==> DayFromYear(100) <= DayNumber(d)
    ensures d.year < 100 ==> DayFromYear(100) <= DayNumber(d.(year := 1900 + d.year)) < END
  {
    hide DayFromYear, DaysBefore;
    if d.year >= 100 {
      YearsAscend(100, d.year);
      WithinItsMonthAndYear(d);
    } else {
      var year := 1900 + d.year;
      MonthLengths(year, d.month);
      MonthLengths(d.year, d.month);
      YearsAscend(100, year);
      YearsAscend(year + 2, 10_000);
      WithinItsMonthAndYear(Date(year, d.month, 28));
      YearLength(year + 1);
      Ends();
    }
  }

  /** How many days `eachDate` lists: all from the first to the last, but no more than a thousand. */
  function Listed(from: string, to: string): (n: nat)
    requires IsDate(from) && IsDate(to)
  {
    Max(0, Min(UtcDay(to) - UtcDay(from) + 1, MOST_DATES))
  }

  /** `workDateFor(cursor, "UTC")`: the formatter writes a year without leading zeros. */
  function WorkDate(n: int): string
    requires EPOCH_ZERO <= n < END
  {
    var d := DateOf(n);
    if d.year < 1000 then Dec(d.year) + ("-" + (Pad(d.month, 2) + ("-" + Pad(d.day, 2)))) else Stamp(n)
  }

  function WorkDates(from: int, n: nat): seq<string>
    requires EPOCH_ZERO <= from && from + n <= END
  {
    if n == 0 then [] else WorkDates(from, n - 1) + [WorkDate(from + n - 1)]
  }

  /** A date is written as it is stored if and only if it is of the year 1000 or later. */
  lemma WorkDateIsStored(n: int)
    requires EPOCH_ZERO <= n < END
    ensures WorkDate(n) == Stamp(n) <==> DayFromYear(1000) <= n
  {
    hide Stamp, DateOf, Dec, DayNumber, DayFromYear;
    var d := DateOf(n);
    WithinItsMonthAndYear(d);
    if d.year < 1000 {
      YearsAscend(d.year + 1, 1000);
      ShortYear(d.year);
    } else {
      YearsAscend(1000, d.year);
    }
  }

  lemma ShortYear(y: nat)
    requires y < 1000
    ensures |Dec(y)| <= 3
  {
    assert y >= 10 ==> |Dec(y)| == |Dec(y / 10)| + 1;
    assert y >= 100 ==> |Dec(y / 10)| == |Dec(y / 10 / 10)| + 1;
  }

  /** From the year 1000 on these are the dates as they are stored. */
  lemma {:induction false} WorkDatesAreDates(from: int, n: nat)
    requires DayFromYear(1000) <= from && from + n <= END
    ensures EPOCH_ZERO <= from && WorkDates(from, n) == Days(from, from + n)
  {
    YearsAscend(0, 1000);
    if n == 0 {
    } else {
      WorkDatesAreDates(from, n - 1);
      ThousandYears(from + n - 1);
    }
  }

  lemma ThousandYears(n: int)
    requires DayFromYear(1000) <= n < END
    ensures EPOCH_ZERO <= n && DateOf(n).year >= 1000
  {
    YearsAscend(0, 1000);
    var d := DateOf(n);
    WithinItsMonthAndYear(d);
    if d.year < 1000 {
      YearsAscend(d.year + 1, 1000);
      assert false;
    }
  }

  method EachDate(from: string, to: string) returns (out: seq<string>)
    requires IsDate(from) && IsDate(to)
    ensures EPOCH_ZERO <= UtcDay(from) && UtcDay(from) + Listed(from, to) <= END
    ensures out == WorkDates(UtcDay(from), Listed(from, to))
    ensures |out| == Listed(from, to)
  {
    hide Stamp, IsDate, WorkDate, UtcDay;
    out := [];
    var cursor, end := UtcDay(from), UtcDay(to);
    ghost var first := cursor;
    YearsAscend(0, 100);
    while cursor <= end && |out| < MOST_DATES
      invariant EPOCH_ZERO <= first && cursor == first + |out| && |out| <= MOST_DATES
      invariant |out| > 0 ==> cursor <= end + 1
      invariant cursor <= END && out == WorkDates(first, |out|)
    {
      out := out + [WorkDate(cursor)];
      cursor := cursor + 1;
    }
  }

  // ------------------------------------------------------------- the period before

  function Shift(from: string, to: string): int
    requires IsDate(from) && IsDate(to)
  {
    if Listed(from, to) <= 7 then 7 else Listed(from, to)
  }

  /** `previousPeriod`: both ends moved back, a whole week for a week or less. */
  method PreviousPeriod(from: string, to: string) returns (prevFrom: string, prevTo: string)
    requires IsDate(from) && IsDate(to)
    ensures FIRST_DAY <= DayOf(from) - Shift(from, to) && FIRST_DAY <= DayOf(to) - Shift(from, to)
    ensures prevFrom == Stamp(DayOf(from) - Shift(from, to))
    ensures prevTo == Stamp(DayOf(to) - Shift(from, to))
  {
    hide Stamp, DayOf, IsDate, UtcDay, WorkDates;
    var dates := EachDate(from, to);
    var span := |dates|;
    var shift := if span <= 7 then 7 else span;
    prevFrom, prevTo := AddDays(from, -shift), AddDays(to, -shift);
  }

  /** January and February of the year 0, which has a 29 February where 1900 has none. */
  predicate IsEarly(d: Date) {
    d.year == 0 && d.month <= 2
  }

  /**
   * A period that `eachDate` does not count right: its first date is read as one
   * of the 1900s, and the last is not, or the first is read a day later than the
   * last.
   */
  predicate IsMiscounted(from: string, to: string)
    requires IsDate(from) && IsDate(to)
  {
    && Fields(from).year < 100
    && (Fields(to).year >= 100 || (IsEarly(Fields(from)) && !IsEarly(Fields(to))))
  }

  /** The longest period that the one before does not overlap. */
  function Reach(from: string, to: string): nat
    requires IsDate(from) && IsDate(to)
  {
    if IsMiscounted(from, to) then 7 else 1000
  }

  /**
   * The period before is as long as the period. It ends before the period begins
   * exactly when the period has at most a thousand days, where the list of dates
   * stops, or at most seven if the list miscounts it; it ends the day before from
   * seven days on, lies one week back and keeps the weekdays up to a week, and a
   * thousand days back beyond that many.
   */
  lemma PeriodBefore(from: string, to: string, prevFrom: int, prevTo: int)
    requires IsDate(from) && IsDate(to)
    requires DayOf(from) <= DayOf(to)
    requires prevFrom == DayOf(from) - Shift(from, to) && prevTo == DayOf(to) - Shift(from, to)
    ensures var n := DayOf(to) - DayOf(from) + 1;
      && prevTo - prevFrom == DayOf(to) - DayOf(from)
      && (prevTo < DayOf(from) <==> n <= Reach(from, to))
      && (prevTo == DayOf(from) - 1 <==> 7 <= n <= Reach(from, to))
      && (n <= 7 ==> prevFrom == DayOf(from) - 7 && SinceMonday(prevFrom) == SinceMonday(DayOf(from)))
      && (n > 1000 && !IsMiscounted(from, to) ==> prevFrom == DayOf(from) - 1000)
  {
    hide DayOf, Fields, UtcDay, SinceMonday, Real, IsMiscounted;
    UtcLength(from, to);
    SinceMondayRepeats(DayOf(from));
  }

  /** The length that `eachDate` sees against the true one. */
  lemma UtcLength(from: string, to: string)
    requires IsDate(from) && IsDate(to) && DayOf(from) <= DayOf(to)
    ensures var n, listed := DayOf(to) - DayOf(from) + 1, UtcDay(to) - UtcDay(from) + 1;
      if !IsMiscounted(from, to) then listed == n
      else listed <= 0 || listed == n - 1 || n > MOST_DATES
  {
    hide DayOf, UtcDay;
    LaterHasNoSmallerYear(from, to);
    UtcOffset(from);
    UtcOffset(to);
    EarlyComesFirst(from, to);
    if Fields(from).year < 100 <= Fields(to).year {
      CenturiesApart(from);
    }
  }

  /** Two-digit years are read as later ones by as many days, and one more up to 29 February of the year 0. */
  lemma UtcOffset(date: string)
    requires IsDate(date)
    ensures Fields(date).year < 100 ==> UtcDay(date) == DayOf(date) + 693_960 + if IsEarly(Fields(date)) then 1 else 0
  {
    var d := Fields(date);
    if d.year < 100 {
      hide Num, AllDigits, DayFromYear, DaysBefore, Real;
      DaysBeforeAgree(d.year, d.month);
      YearOffset(d.year);
    }
  }

  lemma YearOffset(y: int)
    requires 0 <= y < 100
    ensures DayFromYear(1900 + y) == DayFromYear(y) + 693_960 + if y == 0 then 1 else 0
  {
    assert (y - 69) / 4 == (y - 1969) / 4 + 475;
    CenturiesOff(y);
  }

  lemma CenturiesOff(y: int)
    requires 0 <= y < 100
    ensures (y - 1) / 100 == (y - 1901) / 100 + 19 == if y == 0 then -1 else 0
    ensures (y + 299) / 400 == 0 && (y - 1601) / 400 == if y == 0 then -5 else -4
  {
  }

  lemma {:induction false} DaysBeforeAgree(y: int, m: int)
    requires 0 <= y < 100 && 1 <= m <= 13
    ensures DaysBefore(y, m) == DaysBefore(1900 + y, m) + if y == 0 && m > 2 then 1 else 0
    decreases m
  {
    if m == 1 {
    } else {
      DaysBeforeAgree(y, m - 1);
    }
  }

  lemma EarlyComesFirst(from: string, to: string)
    requires IsDate(from) && IsDate(to) && DayOf(from) <= DayOf(to)
    ensures IsEarly(Fields(to)) ==> IsEarly(Fields(from))
  {
    hide DayNumber, Num;
    DayNumberOrders(Fields(to), Fields(from));
  }

  lemma CenturiesApart(from: string)
    requires IsDate(from) && Fields(from).year < 100
    ensures DayOf(from) + 1000 < DayFromYear(1900) <= UtcDay(from)
  {
    hide Num, AllDigits, DayFromYear, DaysInMonth;
    var d := Fields(from);
    WithinItsMonthAndYear(d);
    YearsAscend(d.year + 1, 100);
    YearsAscend(100, 1900);
    YearsAscend(1900, 1900 + d.year);
    MonthsAscend(1900 + d.year, 1, d.month);
  }

  lemma LaterHasNoSmallerYear(from: string, to: string)
    requires IsDate(from) && IsDate(to) && DayOf(from) <= DayOf(to)
    ensures Fields(from).year <= Fields(to).year
  {
    hide DayNumber;
    DayNumberOrders(Fields(to), Fields(from));
  }

  lemma SinceMondayRepeats(n: int)
    ensures SinceMonday(n - 7) == SinceMonday(n)
  {
  }

  /** Eight days across the year 100: none is listed, and the period before ends on the day the period begins. */
  lemma AcrossTheYear100Overlaps(from: string, to: string)
    requires from == "0099-12-30" && to == "0100-01-06"
    ensures IsDate(from) && IsDate(to) && DayOf(to) - DayOf(from) + 1 == 8 && IsMiscounted(from, to)
    ensures Listed(from, to) == 0 && DayOf(to) - Shift(from, to) == DayOf(from)
  {
    hide Num, Pad, DayNumber, Digit;
    var a, b := Date(99, 12, 30), Date(100, 1, 6);
    IsoFields(a);
    IsoFields(b);
    PadOfFour(99);
    PadOfFour(12);
    PadOfFour(30);
    PadOfFour(100);
    PadOfFour(1);
    PadOfFour(6);
    SomeDigits();
    assert Iso(a) == from && Iso(b) == to;
    NewYear100();
    UtcOffset(from);
  }

  lemma NewYear100()
    ensures DayNumber(Date(100, 1, 6)) == DayNumber(Date(99, 12, 30)) + 7
  {
    MonthSpan(99, 12);
  }

  /** Eight days across 29 February of the year 0: seven are listed. */
  lemma AcrossTheFirstLeapDayOverlaps(from: string, to: string)
    requires from == "0000-02-28" && to == "0000-03-06"
    ensures IsDate(from) && IsDate(to) && DayOf(to) - DayOf(from) + 1 == 8 && IsMiscounted(from, to)
    ensures Listed(from, to) == 7 && DayOf(to) - Shift(from, to) == DayOf(from)
  {
    hide Num, Pad, DayNumber, Digit;
    var a, b := Date(0, 2, 28), Date(0, 3, 6);
    IsoFields(a);
    IsoFields(b);
    PadOfFour(0);
    PadOfFour(2);
    PadOfFour(28);
    PadOfFour(3);
    PadOfFour(6);
    SomeDigits();
    assert Iso(a) == from && Iso(b) == to;
    FirstLeapDay();
    UtcOffset(from);
    UtcOffset(to);
  }

  lemma FirstLeapDay()
    ensures DayNumber(Date(0, 3, 6)) == DayNumber(Date(0, 2, 28)) + 7
  {
    MonthSpan(0, 2);
  }

  /** The 1001 days from 2000-01-01 to 2002-09-27: the period before ends on the day the period begins. */
  lemma ALongPeriodOverlaps(from: string, to: string)
    requires from == "2000-01-01" && to == "2002-09-27"
    ensures IsDate(from) && IsDate(to) && DayOf(to) - DayOf(from) + 1 == 1001
    ensures DayOf(to) - Shift(from, to) == DayOf(from)
  {
    hide Num, Pad, DayNumber, Digit;
    var a, b := Date(2000, 1, 1), Date(2002, 9, 27);
    IsoFields(a);
    IsoFields(b);
    PadOfFour(2000);
    PadOfFour(1);
    PadOfFour(2002);
    PadOfFour(9);
    PadOfFour(27);
    SomeDigits();
    assert Iso(a) == from && Iso(b) == to;
    ThousandDays();
  }

  lemma ThousandDays()
    ensures DayNumber(Date(2002, 9, 27)) == DayNumber(Date(2000, 1, 1)) + 1000
  {
    assert DayNumber(Date(2002, 9, 27)) == DayNumber(Date(2002, 9, 1)) + 26;
    assert DayNumber(Date(2002, 1, 1)) == DayNumber(Date(2000, 1, 1)) + 731;
    hide DayNumber;
    MonthSpan(2002, 1);
    MonthSpan(2002, 2);
    MonthSpan(2002, 3);
    MonthSpan(2002, 4);
    MonthSpan(2002, 5);
    MonthSpan(2002, 6);
    MonthSpan(2002, 7);
    MonthSpan(2002, 8);
  }
}
