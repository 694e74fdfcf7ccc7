/** The per-day loop of the analytics engine for one instructor. */
module DayAccounting {
  import opened Hours
  import opened Ints
  import opened Options

  datatype Reason = Leave | NotAWorkingDay | Holiday | NotEmployed

  /** What the engine knows about one date before the loop reaches it. */
  datatype DayInput = DayInput(
    date: int,
    closed: Option<Reason>,       // NotAWorkingDay or Holiday; None on a working day
    onLeave: bool,
    employed: bool,
    windowMinutes: nat,           // length of the working window, in whole minutes
    logs: seq<nat>)               // minutes of each worklog row of that date

  datatype DayBreakdown = DayBreakdown(
    date: int,
    isWorkingDay: bool,
    nonWorkingReason: Option<Reason>,
    capacityHours: real,
    productiveHours: real,
    unutilizedHours: Option<real>,
    hasData: bool)

  /** The engine's running totals for one instructor, before they are rounded. */
  datatype Totals = Totals(capacity: real, productive: real, unutilized: real, missing: real, expectedDays: nat)

  function Total(logs: seq<nat>): nat {
    if logs == [] then 0 else Total(logs[..|logs| - 1]) + logs[|logs| - 1]
  }

  /** The day counts toward capacity: open, not on leave, not after the last day. */
  predicate Expected(d: DayInput) {
    d.closed.None? && !d.onLeave && d.employed
  }

  function CapacityMinutes(d: DayInput, breakMin: nat): nat {
    if Expected(d) && d.windowMinutes > breakMin then d.windowMinutes - breakMin else 0
  }

  function SumOver(days: seq<DayInput>, f: DayInput -> real): real {
    if days == [] then 0.0 else SumOver(days[..|days| - 1], f) + f(days[|days| - 1])
  }

  method SumLogs(logs: seq<nat>) returns (n: nat)
    ensures n == Total(logs)
  {
    n := 0;
    for i := 0 to |logs|
      invariant n == Total(logs[..i])
    {
      assert logs[..i + 1][..i] == logs[..i];
      n := n + logs[i];
    }
    assert logs[..|logs|] == logs;
  }

  /** One day's row, in exact minutes before anything is rounded. */
  ghost predicate Accounts(row: DayBreakdown, d: DayInput, breakMin: nat) {
    var cap, done := CapacityMinutes(d, breakMin), Total(d.logs);
    && row.date == d.date
    && row.isWorkingDay == Expected(d)
    && row.hasData == (d.logs != [])
    && row.capacityHours == Round2(ToHours(cap))
    && row.productiveHours == Round2(ToHours(done))
    && row.unutilizedHours
         == (if row.isWorkingDay && !row.hasData then None else Some(Round2(ToHours(cap - Min(cap, done)))))
    && row.nonWorkingReason
         == (if d.onLeave then Some(Leave) else if d.closed.Some? then d.closed
             else if d.employed then None else Some(NotEmployed))
  }

  function CapacityOf(breakMin: nat): DayInput -> real { (d: DayInput) => ToHours(CapacityMinutes(d, breakMin)) }

  function ProductiveOf(): DayInput -> real { (d: DayInput) => ToHours(Total(d.logs)) }

  function UsedOf(breakMin: nat): DayInput -> real {
    (d: DayInput) => ToHours(Min(CapacityMinutes(d, breakMin), Total(d.logs)))
  }

  function MissingOf(breakMin: nat): DayInput -> real {
    (d: DayInput) => if Expected(d) && d.logs == [] then ToHours(CapacityMinutes(d, breakMin)) else 0.0
  }

  function ExpectedCount(days: seq<DayInput>): nat {
    if days == [] then 0
    else ExpectedCount(days[..|days| - 1]) + if Expected(days[|days| - 1]) then 1 else 0
  }

  /** The body of the loop for one date: its row, and what it adds to the totals. */
  method OneDay(d: DayInput, breakMin: nat) returns (row: DayBreakdown, part: Totals)
    ensures Accounts(row, d, breakMin)
    ensures part.capacity == CapacityOf(breakMin)(d) && part.productive == ProductiveOf()(d)
    ensures part.capacity == part.missing + part.unutilized + UsedOf(breakMin)(d)
    ensures part.missing == MissingOf(breakMin)(d)
    ensures part.expectedDays == if Expected(d) then 1 else 0
  {
    var minutes := SumLogs(d.logs);
    var dayProductive := ToHours(minutes);
    if d.closed.Some? || d.onLeave {
      row := DayBreakdown(d.date, false, if d.onLeave then Some(Leave) else d.closed,
                          0.0, Round2(dayProductive), Some(0.0), |d.logs| > 0);
      part := Totals(0.0, dayProductive, 0.0, 0.0, 0);
    } else if !d.employed {
      row := DayBreakdown(d.date, false, Some(NotEmployed),
                          0.0, Round2(dayProductive), Some(0.0), |d.logs| > 0);
      part := Totals(0.0, dayProductive, 0.0, 0.0, 0);
    } else {
      var left := ToHours(d.windowMinutes - breakMin);
      var dayCapacity := if left > 0.0 then left else 0.0;
      var hasData := |d.logs| > 0;
      var unused := if dayCapacity - dayProductive > 0.0 then dayCapacity - dayProductive else 0.0;
      row := DayBreakdown(d.date, true, None, Round2(dayCapacity), Round2(dayProductive),
                          if hasData then Some(Round2(unused)) else None, hasData);
      part := if hasData then Totals(dayCapacity, dayProductive, unused, 0.0, 1)
              else Totals(dayCapacity, dayProductive, 0.0, dayCapacity, 1);
    }
  }

  /**
   * The loop over an instructor's dates. Its rows account for every date, and
   * the running totals split capacity exactly: what was missing, what was left
   * unused, and what the recorded work used up, day by day.
   */
  method Account(days: seq<DayInput>, breakMin: nat) returns (rows: seq<DayBreakdown>, t: Totals)
    ensures |rows| == |days|
    ensures forall k :: 0 <= k < |days| ==> Accounts(rows[k], days[k], breakMin)
    ensures t.capacity == SumOver(days, CapacityOf(breakMin))
    ensures t.productive == SumOver(days, ProductiveOf())
    ensures t.capacity == t.missing + t.unutilized + SumOver(days, UsedOf(breakMin))
    ensures t.missing == SumOver(days, MissingOf(breakMin))
    ensures t.expectedDays == ExpectedCount(days)
  {
    hide Accounts, CapacityOf, ProductiveOf, UsedOf, MissingOf, Expected;
    rows := [];
    t := Totals(0.0, 0.0, 0.0, 0.0, 0);
    for i := 0 to |days|
      invariant |rows| == i
      invariant forall k :: 0 <= k < i ==> Accounts(rows[k], days[k], breakMin)
      invariant t.capacity == SumOver(days[..i], CapacityOf(breakMin))
      invariant t.productive == SumOver(days[..i], ProductiveOf())
      invariant t.capacity == t.missing + t.unutilized + SumOver(days[..i], UsedOf(breakMin))
      invariant t.missing == SumOver(days[..i], MissingOf(breakMin))
      invariant t.expectedDays == ExpectedCount(days[..i])
    {
      assert days[..i + 1][..i] == days[..i];
      var row, part := OneDay(days[i], breakMin);
      rows := rows + [row];
      t := Totals(t.capacity + part.capacity, t.productive + part.productive, t.unutilized + part.unutilized,
                  t.missing + part.missing, t.expectedDays + part.expectedDays);
    }
    assert days[..|days|] == days;
  }

  // ---------------------------------------------------------------- published totals

  /** Every minute recorded on the days. */
  function Recorded(days: seq<DayInput>): nat {
    if days == [] then 0 else Recorded(days[..|days| - 1]) + Total(days[|days| - 1].logs)
  }

  lemma {:induction false} ProductiveIsRecorded(days: seq<DayInput>)
    ensures SumOver(days, ProductiveOf()) == ToHours(Recorded(days))
  {
    if days == [] {
    } else {
      ProductiveIsRecorded(days[..|days| - 1]);
    }
  }

  function RecordedByAll(instructors: seq<seq<DayInput>>): nat {
    if instructors == [] then 0
    else RecordedByAll(instructors[..|instructors| - 1]) + Recorded(instructors[|instructors| - 1])
  }

  /** Each instructor's productive hours, before rounding. */
  function ProductiveHours(instructors: seq<seq<DayInput>>): (hours: seq<real>)
    ensures |hours| == |instructors|
  {
    if instructors == [] then []
    else ProductiveHours(instructors[..|instructors| - 1]) + [SumOver(instructors[|instructors| - 1], ProductiveOf())]
  }

  lemma {:induction false} HoursAddUp(instructors: seq<seq<DayInput>>)
    ensures Sum(ProductiveHours(instructors)) == ToHours(RecordedByAll(instructors))
  {
    hide SumOver, Recorded;
    if instructors == [] {
    } else {
      var n := |instructors| - 1;
      HoursAddUp(instructors[..n]);
      ProductiveIsRecorded(instructors[n]);
      assert ProductiveHours(instructors)[..n] == ProductiveHours(instructors[..n]);
    }
  }

  /**
   * With `n` instructors, each total rounded before they are added and rounded
   * again, the published productive hours are within 0.005 (n + 1) of the minutes
   * everybody recorded.
   */
  lemma PublishedProductiveIsClose(instructors: seq<seq<DayInput>>)
    ensures var off := PublishedTotal(ProductiveHours(instructors)) - ToHours(RecordedByAll(instructors));
      -0.005 * (|instructors| + 1) as real <= off <= 0.005 * (|instructors| + 1) as real
  {
    hide PublishedTotal, ToHours;
    HoursAddUp(instructors);
    PublishedTotalIsClose(ProductiveHours(instructors));
  }

  // ----------------------------------------------------------------- the stored minutes

  /** What a daily metric row stores: minutes, and the recorded share of the capacity in percent. */
  datatype Stored = Stored(
    capacity: int, productive: int, unutilized: int, missing: int,
    isWorkingDay: bool, nonWorkingReason: Option<Reason>, recordedHoursPercent: Option<real>)

  function Store(row: DayBreakdown): Stored {
    Stored(
      ToMinutes(row.capacityHours),
      ToMinutes(row.productiveHours),
      if row.unutilizedHours.None? then 0 else ToMinutes(row.unutilizedHours.value),
      if row.isWorkingDay && !row.hasData then ToMinutes(row.capacityHours) else 0,
      row.isWorkingDay,
      row.nonWorkingReason,
      Percent(row.productiveHours, row.capacityHours))
  }

  /**
   * Two-decimal hours lose nothing on the way to the table: the stored
   * productive minutes are the recorded ones, the capacity of a day that counts is
   * its window less the break, and it is exactly what is missing, what is unused,
   * and what the work took up.
   */
  lemma StoredMinutesBalance(row: DayBreakdown, d: DayInput, breakMin: nat)
    requires Accounts(row, d, breakMin)
    ensures var s := Store(row);
      && s.productive == Total(d.logs)
      && s.isWorkingDay == (d.closed == None && !d.onLeave && d.employed)
      && (s.nonWorkingReason == None <==> s.isWorkingDay)
      && (d.onLeave ==> s.nonWorkingReason == Some(Leave))
      && (!d.onLeave && d.closed.Some? ==> s.nonWorkingReason == d.closed)
      && (!d.onLeave && d.closed.None? && !d.employed ==> s.nonWorkingReason == Some(NotEmployed))
      && (s.isWorkingDay && d.windowMinutes >= breakMin ==> s.capacity + breakMin == d.windowMinutes)
      && (!s.isWorkingDay || d.windowMinutes < breakMin ==> s.capacity == 0)
      && s.capacity == s.missing + s.unutilized + Min(s.productive, s.capacity)
      && s.missing == (if s.isWorkingDay && d.logs == [] then s.capacity else 0)
      && s.recordedHoursPercent == Percent(Round2(ToHours(s.productive)), Round2(ToHours(s.capacity)))
  {
    var cap, done := CapacityMinutes(d, breakMin), Total(d.logs);
    MinutesSurvive(cap);
    MinutesSurvive(done);
    MinutesSurvive(cap - Min(cap, done));
  }
}
