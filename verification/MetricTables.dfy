/**
 * The stored metrics: daily rows per instructor and per university, weekly rows
 * per instructor, written by upserts on their unique keys. Dates are day numbers.
 */
module MetricTables {
  import opened Options
  import opened Seqs
  import opened Hours
  import opened DayAccounting
  import opened Calendar

  /** An instructor and a day, or the Monday of a week. */
  type Key = (string, int)

  datatype DailyRow = DailyRow(university: string, minutes: Stored)

  /** One instructor's days as the engine returns them for a window. */
  datatype Instructor = Instructor(id: string, days: seq<DayBreakdown>)

  datatype Entry = Entry(key: Key, row: DailyRow)

  lemma WeeksAreSevenDays(day: int, monday: int)
    requires SinceMonday(monday) == 0
    ensures Monday(day) == monday <==> monday <= day < monday + 7
    ensures SinceMonday(Monday(day)) == 0
  {
  }

  // ------------------------------------------------------------ rows of one roll-up

  /** The instructor rows of a roll-up, in the order they are pushed. */
  function EntriesOf(u: string, id: string, days: seq<DayBreakdown>): seq<Entry> {
    if days == [] then []
    else
      var day := days[|days| - 1];
      EntriesOf(u, id, days[..|days| - 1]) + [Entry((id, day.date), DailyRow(u, Store(day)))]
  }

  function Entries(u: string, instructors: seq<Instructor>): seq<Entry> {
    if instructors == [] then []
    else
      var last := instructors[|instructors| - 1];
      Entries(u, instructors[..|instructors| - 1]) + EntriesOf(u, last.id, last.days)
  }

  /** A row is pushed for each day of each instructor, under their key and with that day's minutes, and no other. */
  lemma {:induction false} EntriesAreDays(u: string, instructors: seq<Instructor>, e: Entry)
    ensures e in Entries(u, instructors)
       <==> exists i :: 0 <= i < |instructors| && IsDayOf(e, u, instructors[i].id, instructors[i].days)
    decreases |instructors|
  {
    hide IsDayOf, EntriesOf;
    if instructors == [] {
    } else {
      var n := |instructors| - 1;
      EntriesAreDays(u, instructors[..n], e);
      DaysOfOne(u, instructors[n].id, instructors[n].days, e);
      assert forall i :: 0 <= i < n ==> instructors[..n][i] == instructors[i];
    }
  }

  predicate IsDayOf(e: Entry, u: string, id: string, days: seq<DayBreakdown>) {
    exists j :: 0 <= j < |days| && IsEntryOf(e, u, id, days[j])
  }

  predicate IsEntryOf(e: Entry, u: string, id: string, day: DayBreakdown) {
    e.key == (id, day.date) && e.row.university == u && e.row.minutes == Store(day)
  }

  lemma {:induction false} DaysOfOne(u: string, id: string, days: seq<DayBreakdown>, e: Entry)
    ensures e in EntriesOf(u, id, days) <==> IsDayOf(e, u, id, days)
    decreases |days|
  {
    hide Store;
    if days == [] {
    } else {
      var n := |days| - 1;
      DaysOfOne(u, id, days[..n], e);
      InOneMore(e, EntriesOf(u, id, days[..n]), Entry((id, days[n].date), DailyRow(u, Store(days[n]))));
      assert forall j :: 0 <= j < n ==> days[..n][j] == days[j];
    }
  }

  /** The sums over a date's rows. */
  datatype UniversityRow = UniversityRow(
    activeInstructors: nat, capacity: int, productive: int, unutilized: int, missing: int, workingDays: nat,
    activeMinutes: int, activeCount: nat)

  /** The university's row for a date, as it is stored. */
  datatype UniversityMetric = UniversityMetric(sums: UniversityRow, recordedHoursPercent: Option<real>)

  function Metric(sums: UniversityRow): UniversityMetric {
    UniversityMetric(sums, Percent(sums.productive as real, sums.capacity as real))
  }

  const NO_ROWS := UniversityRow(0, 0, 0, 0, 0, 0, 0, 0)

  function AddRow(b: UniversityRow, m: Stored): UniversityRow {
    UniversityRow(
      b.activeInstructors + 1, b.capacity + m.capacity, b.productive + m.productive,
      b.unutilized + m.unutilized, b.missing + m.missing, b.workingDays + if m.isWorkingDay then 1 else 0,
      b.activeMinutes + if m.productive > 0 then m.productive else 0,
      b.activeCount + if m.productive > 0 then 1 else 0)
  }

  /** The sum of the rows of one date. */
  function SumOn(entries: seq<Entry>, date: int): UniversityRow {
    if entries == [] then NO_ROWS
    else
      var n := |entries| - 1;
      if entries[n].key.1 == date then AddRow(SumOn(entries[..n], date), entries[n].row.minutes)
      else SumOn(entries[..n], date)
  }

  function Dates(entries: seq<Entry>): set<int> {
    if entries == [] then {} else Dates(entries[..|entries| - 1]) + {entries[|entries| - 1].key.1}
  }

  /** The sums of the rows, date by date. */
  function Tally(entries: seq<Entry>): map<int, UniversityRow> {
    map date | date in Dates(entries) :: SumOn(entries, date)
  }

  lemma TallyNext(entries: seq<Entry>, e: Entry)
    ensures var perDate := Tally(entries);
      var bucket := if e.key.1 in perDate then perDate[e.key.1] else NO_ROWS;
      Tally(entries + [e]) == perDate[e.key.1 := AddRow(bucket, e.row.minutes)]
  {
    assert (entries + [e])[..|entries|] == entries;
    NoDateNoSum(entries, e.key.1);
  }

  lemma {:induction false} NoDateNoSum(entries: seq<Entry>, date: int)
    ensures date !in Dates(entries) ==> SumOn(entries, date) == NO_ROWS
  {
    if entries == [] {
    } else {
      NoDateNoSum(entries[..|entries| - 1], date);
    }
  }

  method Summarise(u: string, instructors: seq<Instructor>)
    returns (entries: seq<Entry>, perDate: map<int, UniversityRow>)
    ensures entries == Entries(u, instructors)
    ensures perDate == Tally(entries)
  {
    hide Store, AddRow, SumOn, Dates, Tally;
    entries, perDate := [], map[];
    assert Tally([]) == map[] by { TallyNothing(); }
    for i := 0 to |instructors|
      invariant entries == Entries(u, instructors[..i])
      invariant perDate == Tally(entries)
    {
      var id, days := instructors[i].id, instructors[i].days;
      ghost var before := entries;
      for j := 0 to |days|
        invariant entries == before + EntriesOf(u, id, days[..j])
        invariant perDate == Tally(entries)
      {
        var day := days[j];
        assert days[..j + 1][..j] == days[..j];
        var e := Entry((id, day.date), DailyRow(u, Store(day)));
        var bucket := if day.date in perDate then perDate[day.date] else NO_ROWS;
        TallyNext(entries, e);
        assert before + (EntriesOf(u, id, days[..j]) + [e]) == entries + [e];
        entries := entries + [e];
        perDate := perDate[day.date := AddRow(bucket, e.row.minutes)];
      }
      assert days[..|days|] == days;
      assert instructors[..i + 1][..i] == instructors[..i];
    }
    assert instructors[..|instructors|] == instructors;
  }

  lemma TallyNothing()
    ensures Tally([]) == map[]
  {
  }

  // ---------------------------------------------------------- what each figure is a sum of

  datatype Column =
    | Instructors | Capacity | Productive | Unutilized | Missing | WorkingDays | ActiveMinutes | ActiveCount

  /** What one stored day adds to a figure. */
  function ValueIn(c: Column, m: Stored): int {
    match c
    case Instructors => 1
    case Capacity => m.capacity
    case Productive => m.productive
    case Unutilized => m.unutilized
    case Missing => m.missing
    case WorkingDays => if m.isWorkingDay then 1 else 0
    case ActiveMinutes => if m.productive > 0 then m.productive else 0
    case ActiveCount => if m.productive > 0 then 1 else 0
  }

  /** A figure of several stored days: an integer sum. */
  function TotalIn(c: Column, days: seq<Stored>): int {
    if days == [] then 0 else TotalIn(c, days[..|days| - 1]) + ValueIn(c, days[|days| - 1])
  }

  /** Every figure of a university's row is the sum of that figure of the instructors' days. */
  predicate AddsUp(row: UniversityRow, days: seq<Stored>) {
    && row.activeInstructors == |days|
    && row.capacity == TotalIn(Capacity, days)
    && row.productive == TotalIn(Productive, days)
    && row.unutilized == TotalIn(Unutilized, days)
    && row.missing == TotalIn(Missing, days)
    && row.workingDays == TotalIn(WorkingDays, days)
    && row.activeMinutes == TotalIn(ActiveMinutes, days)
    && row.activeCount == TotalIn(ActiveCount, days)
  }

  /** A date's rows among those pushed. */
  function DaysOn(entries: seq<Entry>, date: int): seq<Stored> {
    if entries == [] then []
    else
      var n := |entries| - 1;
      DaysOn(entries[..n], date) + if entries[n].key.1 == date then [entries[n].row.minutes] else []
  }

  lemma AddsUpNext(row: UniversityRow, days: seq<Stored>, m: Stored)
    requires AddsUp(row, days)
    ensures AddsUp(AddRow(row, m), days + [m])
  {
    assert (days + [m])[..|days|] == days;
  }


  lemma {:induction false} SumOnAddsUp(entries: seq<Entry>, date: int)
    ensures AddsUp(SumOn(entries, date), DaysOn(entries, date))
  {
    if entries == [] {
    } else {
      hide *;
      var n := |entries| - 1;
      SumOnAddsUp(entries[..n], date);
      OneMoreEntry(entries, date);
      AddsUpNext(SumOn(entries[..n], date), DaysOn(entries[..n], date), entries[n].row.minutes);
    }
  }

  lemma OneMoreEntry(entries: seq<Entry>, date: int)
    requires entries != []
    ensures var n := |entries| - 1;
      if entries[n].key.1 == date
      then
        && SumOn(entries, date) == AddRow(SumOn(entries[..n], date), entries[n].row.minutes)
        && DaysOn(entries, date) == DaysOn(entries[..n], date) + [entries[n].row.minutes]
      else SumOn(entries, date) == SumOn(entries[..n], date) && DaysOn(entries, date) == DaysOn(entries[..n], date)
  {
    hide AddRow;
  }

  // -------------------------------------------------------------------- weekly sums

  datatype Sums = Sums(capacity: int, productive: int, unutilized: int, missing: int, workingDays: nat)

  const NOTHING := Sums(0, 0, 0, 0, 0)

  function Plus(a: Sums, m: Stored): Sums {
    Sums(a.capacity + m.capacity, a.productive + m.productive, a.unutilized + m.unutilized,
         a.missing + m.missing, a.workingDays + if m.isWorkingDay then 1 else 0)
  }

  datatype WeeklyRow = WeeklyRow(
    university: string, periodEnd: int, sums: Sums, recordedHoursPercent: Option<real>)

  function Week(u: string, periodEnd: int, sums: Sums): WeeklyRow {
    WeeklyRow(u, periodEnd, sums, Percent(sums.productive as real, sums.capacity as real))
  }

  /** An instructor's stored days at a university from `start` on, `n` of them at most. */
  function DaysFrom(daily: map<Key, DailyRow>, u: string, id: string, start: int, n: nat): seq<Stored> {
    if n == 0 then []
    else
      var k := (id, start + n - 1);
      DaysFrom(daily, u, id, start, n - 1)
      + if k in daily && daily[k].university == u then [daily[k].minutes] else []
  }

  /** Every figure of a weekly row is the sum of that figure of the days, and it ends on the Sunday. */
  predicate SumsUp(row: WeeklyRow, u: string, start: int, days: seq<Stored>) {
    && row.university == u
    && row.periodEnd == start + 6
    && row.sums.capacity == TotalIn(Capacity, days)
    && row.sums.productive == TotalIn(Productive, days)
    && row.sums.unutilized == TotalIn(Unutilized, days)
    && row.sums.missing == TotalIn(Missing, days)
    && row.sums.workingDays == TotalIn(WorkingDays, days)
    && row.recordedHoursPercent
       == Percent(TotalIn(Productive, days) as real, TotalIn(Capacity, days) as real)
  }

  lemma SumsUpNext(u: string, start: int, sums: Sums, days: seq<Stored>, m: Stored)
    requires SumsUp(Week(u, start + 6, sums), u, start, days)
    ensures SumsUp(Week(u, start + 6, Plus(sums, m)), u, start, days + [m])
  {
    hide Percent;
    assert (days + [m])[..|days|] == days;
  }

  lemma NothingSumsUp(u: string, start: int)
    ensures SumsUp(Week(u, start + 6, NOTHING), u, start, [])
  {
    hide Percent;
  }

  lemma {:induction false} DaysSumUp(daily: map<Key, DailyRow>, u: string, id: string, start: int, n: nat)
    requires n <= 7
    ensures SumsUp(Week(u, start + 6, SumDays(daily, RowsIn(daily, u, start), id, start, n)), u, start,
                   DaysFrom(daily, u, id, start, n))
  {
    hide SumsUp, Plus, Week;
    if n == 0 {
      NothingSumsUp(u, start);
    } else {
      var k, days := (id, start + n - 1), DaysFrom(daily, u, id, start, n - 1);
      DaysSumUp(daily, u, id, start, n - 1);
      if k in daily && daily[k].university == u {
        SumsUpNext(u, start, SumDays(daily, RowsIn(daily, u, start), id, start, n - 1), days, daily[k].minutes);
      } else {
        assert days + [] == days;
      }
    }
  }

  /** A row is the week's as it is summed if and only if every figure of it adds up. */
  lemma WeekIsSummed(row: WeeklyRow, daily: map<Key, DailyRow>, u: string, id: string, start: int)
    ensures SumsUp(row, u, start, DaysFrom(daily, u, id, start, 7))
       <==> row == Week(u, start + 6, WeekSum(daily, u, id, start))
  {
    hide SumDays, DaysFrom, TotalIn, Percent, RowsIn;
    DaysSumUp(daily, u, id, start, 7);
  }

  /** The rows of `keys` that instructor `id` has on the `n` days from `start`, added up. */
  function SumDays(daily: map<Key, DailyRow>, keys: set<Key>, id: string, start: int, n: nat): Sums {
    if n == 0 then NOTHING
    else
      var k := (id, start + n - 1);
      if k in keys && k in daily then Plus(SumDays(daily, keys, id, start, n - 1), daily[k].minutes)
      else SumDays(daily, keys, id, start, n - 1)
  }

  function RowsIn(daily: map<Key, DailyRow>, u: string, start: int): set<Key> {
    set k | k in daily && daily[k].university == u && start <= k.1 < start + 7
  }

  function WeekSum(daily: map<Key, DailyRow>, u: string, id: string, start: int): Sums {
    SumDays(daily, RowsIn(daily, u, start), id, start, 7)
  }

  lemma {:induction false} OneMoreRow(daily: map<Key, DailyRow>, keys: set<Key>, k: Key, id: string, start: int, n: nat)
    requires k in daily && k !in keys
    ensures SumDays(daily, keys + {k}, id, start, n)
         == if k.0 == id && start <= k.1 < start + n
            then Plus(SumDays(daily, keys, id, start, n), daily[k].minutes)
            else SumDays(daily, keys, id, start, n)
  {
    if n == 0 {
    } else {
      OneMoreRow(daily, keys, k, id, start, n - 1);
    }
  }

  lemma {:induction false} NoRowsNoSum(daily: map<Key, DailyRow>, keys: set<Key>, id: string, start: int, n: nat)
    requires forall k :: k in keys ==> k.0 != id
    ensures SumDays(daily, keys, id, start, n) == NOTHING
  {
    if n == 0 {
    } else {
      NoRowsNoSum(daily, keys, id, start, n - 1);
    }
  }

  /** The week's rows added up, instructor by instructor. */
  function Grouped(daily: map<Key, DailyRow>, u: string, start: int): map<string, Sums> {
    map id | id in Ids(RowsIn(daily, u, start)) :: WeekSum(daily, u, id, start)
  }

  function Placed(sums: map<string, Sums>, u: string, start: int): map<Key, WeeklyRow> {
    map id | id in sums :: (id, start) := Week(u, start + 6, sums[id])
  }

  /** The weekly table after the week from `start` is rolled up for a university. */
  function WithWeek(daily: map<Key, DailyRow>, weekly: map<Key, WeeklyRow>, u: string, start: int)
    : map<Key, WeeklyRow>
  {
    weekly + Placed(Grouped(daily, u, start), u, start)
  }

  function Ids(keys: set<Key>): set<string> {
    set k | k in keys :: k.0
  }

  /** The Mondays of the weeks that a window touches, each once and in order. */
  function Weeks(from: int, n: nat): seq<int> {
    if n == 0 then []
    else
      var ws, w := Weeks(from, n - 1), Monday(from + n - 1);
      if w in ws then ws else ws + [w]
  }

  function WithWeeks(daily: map<Key, DailyRow>, weekly: map<Key, WeeklyRow>, u: string, weeks: seq<int>)
    : map<Key, WeeklyRow>
  {
    if weeks == [] then weekly
    else WithWeek(daily, WithWeeks(daily, weekly, u, weeks[..|weeks| - 1]), u, weeks[|weeks| - 1])
  }

  function Upserted(daily: map<Key, DailyRow>, entries: seq<Entry>): map<Key, DailyRow> {
    if entries == [] then daily
    else Upserted(daily, entries[..|entries| - 1])[entries[|entries| - 1].key := entries[|entries| - 1].row]
  }

  function WithDays(university: map<Key, UniversityMetric>, u: string, perDate: map<int, UniversityRow>)
    : map<Key, UniversityMetric>
  {
    university + map date | date in perDate :: (u, date) := Metric(perDate[date])
  }

  // ------------------------------------------------------------ what a roll-up does

  datatype State = State(
    daily: map<Key, DailyRow>, university: map<Key, UniversityMetric>, weekly: map<Key, WeeklyRow>)

  /** A completed roll-up: a university, a window, and what the engine returned for it. */
  datatype Call = Call(u: string, from: int, n: nat, instructors: seq<Instructor>)

  function Roll(s: State, c: Call): State {
    var entries := Entries(c.u, c.instructors);
    var daily := Upserted(s.daily, entries);
    State(daily, WithDays(s.university, c.u, Tally(entries)),
          WithWeeks(daily, s.weekly, c.u, Weeks(c.from, c.n)))
  }

  /** How many weekly rows a call writes: one for each instructor with rows in each week it touches. */
  function RowsWritten(daily: map<Key, DailyRow>, u: string, weeks: seq<int>): nat {
    if weeks == [] then 0
    else RowsWritten(daily, u, weeks[..|weeks| - 1]) + |Ids(RowsIn(daily, u, weeks[|weeks| - 1]))|
  }

  function RollAll(s: State, calls: seq<Call>): State {
    if calls == [] then s else Roll(RollAll(s, calls[..|calls| - 1]), calls[|calls| - 1])
  }

  /** `sums` holds the rows of `keys` added up, instructor by instructor. */
  predicate GroupedBy(daily: map<Key, DailyRow>, keys: set<Key>, start: int, sums: map<string, Sums>) {
    sums.Keys == Ids(keys) && forall id :: id in sums ==> sums[id] == SumDays(daily, keys, id, start, 7)
  }

  lemma GroupNothing(daily: map<Key, DailyRow>, start: int)
    ensures GroupedBy(daily, {}, start, map[])
  {
  }

  lemma GroupNext(daily: map<Key, DailyRow>, done: set<Key>, k: Key, start: int, sums: map<string, Sums>)
    requires k in daily && k !in done && start <= k.1 < start + 7 && GroupedBy(daily, done, start, sums)
    ensures var s := if k.0 in sums then sums[k.0] else NOTHING;
      GroupedBy(daily, done + {k}, start, sums[k.0 := Plus(s, daily[k].minutes)])
  {
    hide SumDays, Plus;
    if k.0 !in sums {
      forall j | j in done ensures j.0 != k.0 {
        assert j.0 in Ids(done);
      }
      NoRowsNoSum(daily, done, k.0, start, 7);
    }
    forall id {
      OneMoreRow(daily, done, k, id, start, 7);
    }
    assert Ids(done + {k}) == Ids(done) + {k.0};
  }

  lemma GroupAll(daily: map<Key, DailyRow>, u: string, start: int, sums: map<string, Sums>)
    requires GroupedBy(daily, RowsIn(daily, u, start), start, sums)
    ensures sums == Grouped(daily, u, start) && |sums| == |Ids(RowsIn(daily, u, start))|
  {
    hide SumDays, RowsIn, Ids;
    assert |sums| == |sums.Keys|;
  }

  // ---------------------------------------------------------------------- the tables

  const CHUNK: nat := 500

  class Tables {
    var daily: map<Key, DailyRow>
    var university: map<Key, UniversityMetric>
    var weekly: map<Key, WeeklyRow>

    constructor ()
      ensures daily == map[] && university == map[] && weekly == map[]
    {
      daily, university, weekly := map[], map[], map[];
    }

    ghost function Stored(): State
      reads this
    {
      State(daily, university, weekly)
    }

    /** Upserts the instructor rows, a chunk of 500 to a transaction. */
    method UpsertDaily(entries: seq<Entry>)
      modifies this`daily
      ensures daily == Upserted(old(daily), entries)
    {
      var i := 0;
      while i < |entries|
        invariant 0 <= i <= |entries|
        invariant daily == Upserted(old(daily), entries[..i])
      {
        var end := if i + CHUNK < |entries| then i + CHUNK else |entries|;
        for j := i to end
          invariant daily == Upserted(old(daily), entries[..j])
        {
          assert entries[..j + 1][..j] == entries[..j];
          daily := daily[entries[j].key := entries[j].row];
        }
        i := end;
      }
      assert entries[..|entries|] == entries;
    }

    /** One week of `rollupInstructorWeekly`: find the rows, group them, sum them, upsert. */
    method RollWeek(u: string, start: int) returns (rows: nat)
      modifies this`weekly
      ensures weekly == WithWeek(daily, old(weekly), u, start)
      ensures rows == |Ids(RowsIn(daily, u, start))|
    {
      hide GroupedBy, Ids, SumDays, Grouped, Placed, Plus;
      var found := RowsIn(daily, u, start);
      var pending: set<Key>, byInstructor: map<string, Sums> := found, map[];
      GroupNothing(daily, start);
      assert found - found == {};
      while pending != {}
        invariant weekly == old(weekly) && pending <= found
        invariant GroupedBy(daily, found - pending, start, byInstructor)
        decreases pending
      {
        var k :| k in pending;
        ghost var done := found - pending;
        var sums := if k.0 in byInstructor then byInstructor[k.0] else NOTHING;
        GroupNext(daily, done, k, start, byInstructor);
        assert found - (pending - {k}) == done + {k};
        byInstructor := byInstructor[k.0 := Plus(sums, daily[k].minutes)];
        pending := pending - {k};
      }
      assert found - {} == found;
      GroupAll(daily, u, start, byInstructor);
      rows := |byInstructor|;
      weekly := weekly + Placed(byInstructor, u, start);
    }

    method RollupInstructorWeekly(u: string, from: int, n: nat) returns (written: nat)
      modifies this`weekly
      ensures weekly == WithWeeks(daily, old(weekly), u, Weeks(from, n))
      ensures Rewritten(daily, old(weekly), weekly, u, Weeks(from, n))
      ensures written == RowsWritten(daily, u, Weeks(from, n))
    {
      hide WithWeek, Monday, Ids, RowsIn;
      var weeks: seq<int> := [];
      for i := 0 to n
        invariant weeks == Weeks(from, i)
      {
        var w := Monday(from + i);
        if w !in weeks {
          weeks := weeks + [w];
        }
      }
      written := 0;
      for i := 0 to |weeks|
        invariant weekly == WithWeeks(daily, old(weekly), u, weeks[..i])
        invariant written == RowsWritten(daily, u, weeks[..i])
      {
        assert weeks[..i + 1][..i] == weeks[..i];
        var rows := RollWeek(u, weeks[i]);
        written := written + rows;
      }
      assert weeks[..|weeks|] == weeks;
      AllRewritten(daily, old(weekly), u, weeks);
    }

    /**
     * `rollupUniversityDaily` over the window of `n` days from `from`, given
     * what the engine returns for it.
     */
    method RollupUniversityDaily(u: string, from: int, n: nat, instructors: seq<Instructor>)
      returns (instructorDays: nat, universityDays: nat, instructorWeeks: nat)
      modifies this
      ensures Stored() == Roll(old(Stored()), Call(u, from, n, instructors))
      ensures instructorDays == |Entries(u, instructors)|
      ensures universityDays == |Tally(Entries(u, instructors))|
      ensures instructorWeeks == RowsWritten(daily, u, Weeks(from, n))
    {
      hide Entries, Tally, Upserted, WithWeeks, Weeks, WithDays;
      var entries, perDate := Summarise(u, instructors);
      UpsertDaily(entries);
      university := WithDays(university, u, perDate);
      instructorWeeks := RollupInstructorWeekly(u, from, n);
      instructorDays, universityDays := |entries|, |perDate|;
    }
  }

  // ---------------------------------------------------------------------- whole runs

  /** Days of the window, and an instructor who belongs to the university. */
  predicate ProperDays(id: string, days: seq<DayBreakdown>, c: Call, home: map<string, string>) {
    forall j :: 0 <= j < |days| ==>
      && id in home && home[id] == c.u
      && c.from <= days[j].date < c.from + c.n
  }

  predicate Proper(c: Call, home: map<string, string>) {
    forall i :: 0 <= i < |c.instructors| ==> ProperDays(c.instructors[i].id, c.instructors[i].days, c, home)
  }

  predicate AtHome(s: State, home: map<string, string>) {
    forall k :: k in s.daily ==> k.0 in home && s.daily[k].university == home[k.0]
  }

  /** Every figure of every stored weekly row adds up over the instructor's days from its Monday to its Sunday. */
  predicate WeeksAddUp(s: State, home: map<string, string>) {
    forall k :: k in s.weekly ==>
      && k.0 in home && SinceMonday(k.1) == 0
      && SumsUp(s.weekly[k], home[k.0], k.1, DaysFrom(s.daily, home[k.0], k.0, k.1, 7))
  }

  /** Every stored day is in a stored week. */
  predicate DaysHaveWeeks(s: State) {
    forall k :: k in s.daily ==> (k.0, Monday(k.1)) in s.weekly
  }

  predicate Consistent(s: State, home: map<string, string>) {
    AtHome(s, home) && WeeksAddUp(s, home) && DaysHaveWeeks(s)
  }

  predicate Fits(e: Entry, c: Call, home: map<string, string>) {
    && e.row.university == c.u && e.key.0 in home && home[e.key.0] == c.u
    && c.from <= e.key.1 < c.from + c.n
  }

  predicate AllFit(entries: seq<Entry>, c: Call, home: map<string, string>) {
    forall k :: 0 <= k < |entries| ==> Fits(entries[k], c, home)
  }

  lemma {:induction false} EntriesFit(c: Call, home: map<string, string>, instructors: seq<Instructor>)
    requires forall i :: 0 <= i < |instructors| ==> ProperDays(instructors[i].id, instructors[i].days, c, home)
    ensures AllFit(Entries(c.u, instructors), c, home)
    decreases |instructors|
  {
    hide Store, Fits, ProperDays;
    if instructors == [] {
    } else {
      var n := |instructors| - 1;
      EntriesFit(c, home, instructors[..n]);
      DaysFit(c, home, instructors[n].id, instructors[n].days);
    }
  }

  lemma {:induction false} DaysFit(c: Call, home: map<string, string>, id: string, days: seq<DayBreakdown>)
    requires ProperDays(id, days, c, home)
    ensures AllFit(EntriesOf(c.u, id, days), c, home)
    decreases |days|
  {
    hide Store;
    if days == [] {
    } else {
      var n := |days| - 1;
      assert c.from <= days[n].date;
      assert forall j :: 0 <= j < n ==> days[..n][j] == days[j];
      DaysFit(c, home, id, days[..n]);
    }
  }

  /** The two tables hold the same under `k`, or both nothing. */
  predicate SameAt<T(==)>(a: map<Key, T>, b: map<Key, T>, k: Key) {
    if k in a then k in b && a[k] == b[k] else k !in b
  }

  /** A row after upserting is one of the entries, or it was there before. */
  lemma {:induction false} UpsertKeeps(daily: map<Key, DailyRow>, entries: seq<Entry>, k: Key)
    ensures var d := Upserted(daily, entries);
      || (k in d && exists i :: 0 <= i < |entries| && entries[i] == Entry(k, d[k]))
      || SameAt(d, daily, k)
  {
    if entries == [] {
    } else {
      var n := |entries| - 1;
      UpsertKeeps(daily, entries[..n], k);
      assert forall i :: 0 <= i < n ==> entries[..n][i] == entries[i];
      if entries[n].key == k {
        assert entries[n] == Entry(k, entries[n].row);
      }
    }
  }

  lemma {:induction false} WeeksTouched(from: int, n: nat, w: int)
    ensures w in Weeks(from, n) <==> exists d :: from <= d < from + n && Monday(d) == w
  {
    if n == 0 {
    } else {
      WeeksTouched(from, n - 1, w);
    }
  }

  lemma WeekWritten(daily: map<Key, DailyRow>, weekly: map<Key, WeeklyRow>, u: string, start: int, k: Key)
    ensures var after := WithWeek(daily, weekly, u, start);
      if k.1 == start && k.0 in Ids(RowsIn(daily, u, start))
      then k in after && after[k] == Week(u, start + 6, WeekSum(daily, u, k.0, start))
      else SameAt(after, weekly, k)
  {
    hide WeekSum, RowsIn, Ids, Week;
    var rows := Placed(Grouped(daily, u, start), u, start);
    assert k in rows <==> k.1 == start && k.0 in Grouped(daily, u, start);
  }

  lemma {:induction false} WeeksWritten(
      daily: map<Key, DailyRow>, weekly: map<Key, WeeklyRow>, u: string, weeks: seq<int>, k: Key)
    ensures var after := WithWeeks(daily, weekly, u, weeks);
      if k.1 in weeks && k.0 in Ids(RowsIn(daily, u, k.1))
      then k in after && after[k] == Week(u, k.1 + 6, WeekSum(daily, u, k.0, k.1))
      else SameAt(after, weekly, k)
  {
    hide WeekSum, RowsIn, Ids, WithWeek, Week;
    if weeks == [] {
    } else {
      var n := |weeks| - 1;
      WeeksWritten(daily, weekly, u, weeks[..n], k);
      WeekWritten(daily, WithWeeks(daily, weekly, u, weeks[..n]), u, weeks[n], k);
      assert weeks[..n] + [weeks[n]] == weeks;
    }
  }

  /** The weeks' rows of everybody who has days in them add up; the other rows are left alone. */
  ghost predicate Rewritten(
      daily: map<Key, DailyRow>, before: map<Key, WeeklyRow>, after: map<Key, WeeklyRow>, u: string, weeks: seq<int>)
  {
    forall k: Key :: RewrittenAt(daily, before, after, u, weeks, k)
  }

  predicate RewrittenAt(
      daily: map<Key, DailyRow>, before: map<Key, WeeklyRow>, after: map<Key, WeeklyRow>, u: string, weeks: seq<int>,
      k: Key)
  {
    var days := DaysFrom(daily, u, k.0, k.1, 7);
    if k.1 in weeks && days != [] then k in after && SumsUp(after[k], u, k.1, days) else SameAt(after, before, k)
  }

  lemma {:induction false} WhoHasDays(daily: map<Key, DailyRow>, u: string, id: string, start: int, n: nat)
    ensures DaysFrom(daily, u, id, start, n) != []
       <==> exists d :: start <= d < start + n && (id, d) in daily && daily[(id, d)].university == u
  {
    if n == 0 {
    } else {
      WhoHasDays(daily, u, id, start, n - 1);
    }
  }

  lemma HasDays(daily: map<Key, DailyRow>, u: string, id: string, start: int)
    ensures id in Ids(RowsIn(daily, u, start)) <==> DaysFrom(daily, u, id, start, 7) != []
  {
    hide DaysFrom;
    WhoHasDays(daily, u, id, start, 7);
    if id in Ids(RowsIn(daily, u, start)) {
      var k :| k in RowsIn(daily, u, start) && k.0 == id;
      assert (id, k.1) in daily;
    }
    if d :| start <= d < start + 7 && (id, d) in daily && daily[(id, d)].university == u {
      assert (id, d) in RowsIn(daily, u, start);
    }
  }

  lemma AllRewritten(daily: map<Key, DailyRow>, weekly: map<Key, WeeklyRow>, u: string, weeks: seq<int>)
    ensures Rewritten(daily, weekly, WithWeeks(daily, weekly, u, weeks), u, weeks)
  {
    hide WithWeeks, DaysFrom, SumsUp, WeekSum, RowsIn, Ids, Week;
    forall k: Key ensures RewrittenAt(daily, weekly, WithWeeks(daily, weekly, u, weeks), u, weeks, k) {
      WeeksWritten(daily, weekly, u, weeks, k);
      HasDays(daily, u, k.0, k.1);
      WeekIsSummed(Week(u, k.1 + 6, WeekSum(daily, u, k.0, k.1)), daily, u, k.0, k.1);
    }
  }

  lemma {:induction false} SameDaysSameSum(
      a: map<Key, DailyRow>, ka: set<Key>, b: map<Key, DailyRow>, kb: set<Key>, id: string, start: int, n: nat)
    requires forall d :: start <= d < start + n ==>
      ((id, d) in ka && (id, d) in a <==> (id, d) in kb && (id, d) in b)
      && ((id, d) in ka && (id, d) in a ==> a[(id, d)] == b[(id, d)])
    ensures SumDays(a, ka, id, start, n) == SumDays(b, kb, id, start, n)
  {
    if n == 0 {
    } else {
      assert start <= start + n - 1 < start + n;
      SameDaysSameSum(a, ka, b, kb, id, start, n - 1);
    }
  }

  /** What a proper call does to the daily rows: its own are new, the rest are as they were. */
  lemma RowsAfter(s: State, c: Call, home: map<string, string>, k: Key)
    requires Proper(c, home)
    ensures var d := Roll(s, c).daily;
      || SameAt(d, s.daily, k)
      || (k in d && d[k].university == c.u && k.0 in home && home[k.0] == c.u && c.from <= k.1 < c.from + c.n)
  {
    hide Entries;
    var entries := Entries(c.u, c.instructors);
    EntriesFit(c, home, c.instructors);
    UpsertKeeps(s.daily, entries, k);
    if i :| 0 <= i < |entries| && k in Roll(s, c).daily && entries[i] == Entry(k, Roll(s, c).daily[k]) {
      assert Fits(entries[i], c, home);
    }
  }

  /** A weekly row that a call does not write still adds up, because none of its days changed. */
  lemma UntouchedWeekAddsUp(s: State, c: Call, home: map<string, string>, k: Key)
    requires AtHome(s, home) && Proper(c, home) && k.0 in home && SinceMonday(k.1) == 0
    requires !(k.1 in Weeks(c.from, c.n) && k.0 in Ids(RowsIn(Roll(s, c).daily, c.u, k.1)))
    ensures WeekSum(Roll(s, c).daily, home[k.0], k.0, k.1) == WeekSum(s.daily, home[k.0], k.0, k.1)
  {
    hide Roll, SumDays, Monday, Weeks, SumsUp, DaysFrom;
    var a, u := Roll(s, c).daily, home[k.0];
    forall d | k.1 <= d < k.1 + 7 ensures SameAt(a, s.daily, (k.0, d)) {
      RowsAfter(s, c, home, (k.0, d));
      if !SameAt(a, s.daily, (k.0, d)) {
        assert (k.0, d) in RowsIn(a, c.u, k.1);
        WeeksAreSevenDays(d, k.1);
        WeeksTouched(c.from, c.n, k.1);
        assert false;
      }
    }
    SameDaysSameSum(a, RowsIn(a, u, k.1), s.daily, RowsIn(s.daily, u, k.1), k.0, k.1, 7);
  }

  /** One roll-up keeps every weekly row the sum of its stored days. */
  lemma RollKeepsConsistent(s: State, c: Call, home: map<string, string>)
    requires Consistent(s, home) && Proper(c, home)
    ensures Consistent(Roll(s, c), home)
  {
    hide Entries, SumDays, Monday, Weeks, WithWeeks, Upserted, RowsIn, Ids, SumsUp, DaysFrom;
    var a := Roll(s, c);
    forall k | k in a.daily
      ensures k.0 in home && a.daily[k].university == home[k.0] && (k.0, Monday(k.1)) in a.weekly
    {
      RowsAfter(s, c, home, k);
      DayGetsItsWeek(s, c, home, k);
    }
    forall k | k in a.weekly
      ensures k.0 in home && SinceMonday(k.1) == 0
      ensures SumsUp(a.weekly[k], home[k.0], k.1, DaysFrom(a.daily, home[k.0], k.0, k.1, 7))
    {
      WeekAddsUp(s, c, home, k);
    }
  }

  lemma DayGetsItsWeek(s: State, c: Call, home: map<string, string>, k: Key)
    requires Consistent(s, home) && Proper(c, home) && k in Roll(s, c).daily
    ensures (k.0, Monday(k.1)) in Roll(s, c).weekly
  {
    hide Entries, SumDays, Weeks, WithWeeks, Upserted, WeekSum, SumsUp, DaysFrom;
    var a, w := Roll(s, c), Monday(k.1);
    RowsAfter(s, c, home, k);
    WeeksWritten(a.daily, s.weekly, c.u, Weeks(c.from, c.n), (k.0, w));
    if !SameAt(a.daily, s.daily, k) {
      WeeksTouched(c.from, c.n, w);
      assert k in RowsIn(a.daily, c.u, w);
    }
  }

  lemma WrittenWeekFits(s: State, c: Call, home: map<string, string>, k: Key)
    requires AtHome(s, home) && Proper(c, home)
    requires k.1 in Weeks(c.from, c.n) && k.0 in Ids(RowsIn(Roll(s, c).daily, c.u, k.1))
    ensures k.0 in home && home[k.0] == c.u && SinceMonday(k.1) == 0
  {
    hide Roll, Monday, Weeks, Proper;
    var j :| j in RowsIn(Roll(s, c).daily, c.u, k.1) && j.0 == k.0;
    RowsAfter(s, c, home, j);
    WeeksTouched(c.from, c.n, k.1);
    var d :| c.from <= d < c.from + c.n && Monday(d) == k.1;
    WeeksAreSevenDays(d, 4);
  }

  lemma WeekAddsUp(s: State, c: Call, home: map<string, string>, k: Key)
    requires Consistent(s, home) && Proper(c, home) && k in Roll(s, c).weekly
    ensures k.0 in home && SinceMonday(k.1) == 0
    ensures SumsUp(Roll(s, c).weekly[k], home[k.0], k.1, DaysFrom(Roll(s, c).daily, home[k.0], k.0, k.1, 7))
  {
    hide Entries, SumDays, Weeks, WithWeeks, Upserted, WeekSum, SinceMonday, Week, RowsIn, Ids, SumsUp, DaysFrom;
    var a := Roll(s, c);
    WeeksWritten(a.daily, s.weekly, c.u, Weeks(c.from, c.n), k);
    if k.0 in home {
      WeekIsSummed(a.weekly[k], a.daily, home[k.0], k.0, k.1);
    }
    if k.1 in Weeks(c.from, c.n) && k.0 in Ids(RowsIn(a.daily, c.u, k.1)) {
      WrittenWeekFits(s, c, home, k);
    } else {
      WeekIsSummed(s.weekly[k], s.daily, home[k.0], k.0, k.1);
      UntouchedWeekAddsUp(s, c, home, k);
    }
  }

  /** Over any sequence of completed roll-ups, on any windows, the weeks add up. */
  lemma {:induction false} WeeksAlwaysAddUp(calls: seq<Call>, home: map<string, string>)
    requires forall i :: 0 <= i < |calls| ==> Proper(calls[i], home)
    ensures Consistent(RollAll(State(map[], map[], map[]), calls), home)
  {
    hide Roll, Proper;
    if calls == [] {
    } else {
      var n := |calls| - 1;
      WeeksAlwaysAddUp(calls[..n], home);
      RollKeepsConsistent(RollAll(State(map[], map[], map[]), calls[..n]), calls[n], home);
    }
  }

  lemma {:induction false} LastEntryWins(a: map<Key, DailyRow>, b: map<Key, DailyRow>, entries: seq<Entry>, k: Key)
    requires SameAt(a, b, k) || k in Written(entries)
    ensures SameAt(Upserted(a, entries), Upserted(b, entries), k)
    ensures k !in Written(entries) ==> SameAt(Upserted(a, entries), a, k)
  {
    if entries != [] && entries[|entries| - 1].key != k {
      LastEntryWins(a, b, entries[..|entries| - 1], k);
    } else if entries != [] && SameAt(a, b, k) {
      LastEntryWins(a, b, entries[..|entries| - 1], k);
    }
  }

  function Written(entries: seq<Entry>): set<Key> {
    if entries == [] then {} else Written(entries[..|entries| - 1]) + {entries[|entries| - 1].key}
  }

  lemma UpsertTwice(daily: map<Key, DailyRow>, entries: seq<Entry>)
    ensures Upserted(Upserted(daily, entries), entries) == Upserted(daily, entries)
  {
    hide Upserted, Written;
    var once := Upserted(daily, entries);
    forall k ensures SameAt(Upserted(once, entries), once, k) {
      if k in Written(entries) {
        LastEntryWins(once, daily, entries, k);
      } else {
        LastEntryWins(once, once, entries, k);
      }
    }
    SameEverywhere(Upserted(once, entries), once);
  }

  /** Rolling up the same window over an unchanged source changes nothing stored. */
  lemma RepeatingChangesNothing(s: State, c: Call)
    ensures Roll(Roll(s, c), c) == Roll(s, c)
  {
    hide SumDays, Monday, Weeks, WithWeeks, Upserted, Entries, RowsIn, Ids, WeekSum, Tally;
    var a := Roll(s, c);
    UpsertTwice(s.daily, Entries(c.u, c.instructors));
    var b := WithWeeks(a.daily, a.weekly, c.u, Weeks(c.from, c.n));
    forall k ensures SameAt(b, a.weekly, k) {
      WeeksWritten(a.daily, s.weekly, c.u, Weeks(c.from, c.n), k);
      WeeksWritten(a.daily, a.weekly, c.u, Weeks(c.from, c.n), k);
    }
    assert b == a.weekly by {
      SameEverywhere(b, a.weekly);
    }
  }

  lemma SameEverywhere<T>(a: map<Key, T>, b: map<Key, T>)
    requires forall k :: SameAt(a, b, k)
    ensures a == b
  {
    forall k | k in a ensures k in b && a[k] == b[k] {
      assert SameAt(a, b, k);
    }
    forall k | k in b ensures k in a {
      assert SameAt(a, b, k);
    }
  }
}
