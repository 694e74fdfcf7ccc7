/** The cells, rows and totals of the tracker grid: src/server/analytics/tracker.ts. */
module Tracker {
  import opened Options
  import opened Seqs
  import opened Text
  import opened Digits
  import opened Hours
  import opened Calendar
  import opened IsoDates
  import opened Periods

  datatype WorklogEntry = WorklogEntry(instructorId: string, date: string, workingMinutes: int, remarks: Option<string>)

  /** What the engine says of an instructor for one week. */
  datatype Breakdown = Breakdown(instructorId: string, isActive: bool, capacityHours: real)

  datatype Cell = Cell(daysLogged: nat, totalMinutes: int, remarks: seq<string>)

  datatype Row = Row(
    isActive: bool, cells: map<nat, Cell>, daysLogged: nat, totalMinutes: int, capacityHours: real)

  const BLANK := Cell(0, 0, [])

  predicate Within(date: string, from: string, end: string) {
    !Less(date, from) && !Less(end, date)
  }

  predicate Counts(e: WorklogEntry, id: string, from: string, end: string) {
    e.instructorId == id && Within(e.date, from, end)
  }

  // --------------------------------------------------------- what a cell and a row hold

  datatype Tally = Tally(days: nat, minutes: int)

  function Plus(a: Tally, b: Tally): Tally {
    Tally(a.days + b.days, a.minutes + b.minutes)
  }

  function OneEntry(e: WorklogEntry, counts: bool): Tally {
    if counts then Tally(1, e.workingMinutes) else Tally(0, 0)
  }

  /** The days and minutes an instructor recorded from one date to another. */
  function Recorded(entries: seq<WorklogEntry>, id: string, from: string, end: string): Tally {
    if entries == [] then Tally(0, 0)
    else
      var n := |entries| - 1;
      Plus(Recorded(entries[..n], id, from, end), OneEntry(entries[n], Counts(entries[n], id, from, end)))
  }

  function RemarkOf(e: WorklogEntry): string {
    if e.remarks.None? then "" else Trim(e.remarks.value)
  }

  /** Their remarks, trimmed, each once. */
  function Remarks(entries: seq<WorklogEntry>, id: string, from: string, end: string): seq<string> {
    if entries == [] then []
    else
      var n := |entries| - 1;
      var before, remark := Remarks(entries[..n], id, from, end), RemarkOf(entries[n]);
      if Counts(entries[n], id, from, end) && remark != "" && remark !in before then before + [remark] else before
  }

  function CellOf(entries: seq<WorklogEntry>, id: string, from: string, end: string): Cell {
    var t := Recorded(entries, id, from, end);
    Cell(t.days, t.minutes, Remarks(entries, id, from, end))
  }

  /** What one more entry does to a cell. */
  function AddTo(cell: Cell, e: WorklogEntry): Cell {
    var remark := RemarkOf(e);
    Cell(cell.daysLogged + 1, cell.totalMinutes + e.workingMinutes,
         if remark != "" && remark !in cell.remarks then cell.remarks + [remark] else cell.remarks)
  }

  lemma CellNext(entries: seq<WorklogEntry>, e: WorklogEntry, id: string, from: string, end: string)
    ensures CellOf(entries + [e], id, from, end)
         == if Counts(e, id, from, end) then AddTo(CellOf(entries, id, from, end), e)
            else CellOf(entries, id, from, end)
    ensures Recorded(entries + [e], id, from, end)
         == Plus(Recorded(entries, id, from, end), OneEntry(e, Counts(e, id, from, end)))
  {
    hide Counts, RemarkOf;
    assert (entries + [e])[..|entries|] == entries;
  }

  predicate SaysSo(entries: seq<WorklogEntry>, id: string, from: string, end: string, remark: string) {
    exists k :: 0 <= k < |entries| && Counts(entries[k], id, from, end) && Says(entries[k], remark)
  }

  predicate Says(e: WorklogEntry, remark: string) {
    e.remarks.Some? && Trim(e.remarks.value) == remark
  }

  lemma RemarkIsSaid(e: WorklogEntry, remark: string)
    requires remark != ""
    ensures RemarkOf(e) == remark <==> Says(e, remark)
  {
    hide Trim;
  }

  /** A cell prints each remark that says something once, in the order they first come up. */
  lemma {:induction false} RemarksOnce(
      entries: seq<WorklogEntry>, id: string, from: string, end: string, remark: string)
    ensures remark in Remarks(entries, id, from, end) <==> remark != "" && SaysSo(entries, id, from, end, remark)
    ensures Distinct(Remarks(entries, id, from, end))
    ensures forall n :: 0 <= n <= |entries| ==> Remarks(entries[..n], id, from, end) <= Remarks(entries, id, from, end)
  {
    hide Counts, RemarkOf, Says;
    forall n | 0 <= n <= |entries| ensures Remarks(entries[..n], id, from, end) <= Remarks(entries, id, from, end) {
      RemarksGoOn(entries, n, id, from, end);
    }
    if entries == [] {
    } else {
      var last := |entries| - 1;
      if remark != "" {
        RemarkIsSaid(entries[last], remark);
      }
      RemarksOnce(entries[..last], id, from, end, remark);
    }
  }

  lemma {:induction false} RemarksGoOn(entries: seq<WorklogEntry>, n: nat, id: string, from: string, end: string)
    requires n <= |entries|
    ensures Remarks(entries[..n], id, from, end) <= Remarks(entries, id, from, end)
  {
    hide Counts, RemarkOf;
    if n == |entries| {
      assert entries[..n] == entries;
    } else {
      var last := |entries| - 1;
      RemarksGoOn(entries[..last], n, id, from, end);
      assert entries[..last][..n] == entries[..n];
    }
  }

  // ---------------------------------------------------------------------- weeks and spans

  predicate Span(m: int, weeks: seq<TrackerWeek>, today: string) {
    WeeksFrom(m, weeks, today) && weeks != []
  }

  lemma WithinIsCalendar(from: string, end: string, date: string)
    requires IsDate(from) && IsDate(end) && IsDate(date)
    ensures Within(date, from, end) <==> DayOf(from) <= DayOf(date) <= DayOf(end)
  {
    hide Less, DayOf, IsDate;
    DatesCompareAsText(date, from);
    DatesCompareAsText(end, date);
  }

  /** An instructor's own entry, of a day from the first to the last. */
  predicate IsTheirs(e: WorklogEntry, id: string, first: int, last: int)
    requires IsDate(e.date)
  {
    e.instructorId == id && first <= DayOf(e.date) <= last
  }

  /** Their minutes, added up from the front. */
  function MinutesOf(entries: seq<WorklogEntry>, id: string, first: int, last: int): int
    requires forall i :: 0 <= i < |entries| ==> IsDate(entries[i].date)
  {
    if entries == [] then 0
    else
      (if IsTheirs(entries[0], id, first, last) then entries[0].workingMinutes else 0)
      + MinutesOf(entries[1..], id, first, last)
  }

  /** Where they stand. */
  function PlacesOf(entries: seq<WorklogEntry>, id: string, first: int, last: int): set<int>
    requires forall i :: 0 <= i < |entries| ==> IsDate(entries[i].date)
  {
    set i | 0 <= i < |entries| && IsTheirs(entries[i], id, first, last)
  }

  lemma {:induction false} MinutesOfLast(entries: seq<WorklogEntry>, e: WorklogEntry, id: string, first: int, last: int)
    requires IsDate(e.date) && forall i :: 0 <= i < |entries| ==> IsDate(entries[i].date)
    ensures forall i :: 0 <= i <= |entries| ==> IsDate((entries + [e])[i].date)
    ensures MinutesOf(entries + [e], id, first, last)
         == MinutesOf(entries, id, first, last) + if IsTheirs(e, id, first, last) then e.workingMinutes else 0
  {
    hide IsDate, DayOf, IsTheirs;
    if entries == [] {
      assert [] + [e] == [e] && [e][1..] == [];
    } else {
      assert (entries + [e])[1..] == entries[1..] + [e];
      MinutesOfLast(entries[1..], e, id, first, last);
    }
  }

  lemma PlacesOfLast(entries: seq<WorklogEntry>, e: WorklogEntry, id: string, first: int, last: int)
    requires IsDate(e.date) && forall i :: 0 <= i < |entries| ==> IsDate(entries[i].date)
    ensures forall i :: 0 <= i <= |entries| ==> IsDate((entries + [e])[i].date)
    ensures |PlacesOf(entries + [e], id, first, last)|
         == |PlacesOf(entries, id, first, last)| + if IsTheirs(e, id, first, last) then 1 else 0
  {
    hide IsDate, DayOf, IsTheirs;
    var n, all := |entries|, entries + [e];
    assert forall i :: 0 <= i < n ==> all[i] == entries[i];
    assert PlacesOf(all, id, first, last)
        == PlacesOf(entries, id, first, last) + if IsTheirs(e, id, first, last) then {n} else {};
  }

  /** What is recorded: as many days as the instructor has entries from the first day to the last, and their minutes. */
  lemma {:induction false} RecordedMeans(entries: seq<WorklogEntry>, id: string, from: string, end: string)
    requires IsDate(from) && IsDate(end) && forall i :: 0 <= i < |entries| ==> IsDate(entries[i].date)
    ensures Recorded(entries, id, from, end)
         == Tally(|PlacesOf(entries, id, DayOf(from), DayOf(end))|, MinutesOf(entries, id, DayOf(from), DayOf(end)))
  {
    if entries == [] {
      hide IsDate, DayOf;
      assert PlacesOf([], id, DayOf(from), DayOf(end)) == {};
    } else {
      hide *;
      var n := |entries| - 1;
      var e := entries[n];
      RecordedMeans(entries[..n], id, from, end);
      OneEntryMeans(e, id, from, end);
      CellNext(entries[..n], e, id, from, end);
      PlacesOfLast(entries[..n], e, id, DayOf(from), DayOf(end));
      MinutesOfLast(entries[..n], e, id, DayOf(from), DayOf(end));
      PlusOne(Recorded(entries[..n], id, from, end), e, Counts(e, id, from, end));
      assert entries[..n] + [e] == entries;
    }
  }

  lemma OneEntryMeans(e: WorklogEntry, id: string, from: string, end: string)
    requires IsDate(from) && IsDate(end) && IsDate(e.date)
    ensures Counts(e, id, from, end) <==> IsTheirs(e, id, DayOf(from), DayOf(end))
  {
    hide IsDate, DayOf, Within;
    WithinIsCalendar(from, end, e.date);
  }

  lemma PlusOne(t: Tally, e: WorklogEntry, counts: bool)
    ensures Plus(t, OneEntry(e, counts))
         == Tally(t.days + if counts then 1 else 0, t.minutes + if counts then e.workingMinutes else 0)
  {
  }

  /** A date falls in the span when it falls in a week of it, and then in only one. */
  lemma WeekOfDate(m: int, weeks: seq<TrackerWeek>, today: string, date: string, k: nat)
    requires Span(m, weeks, today) && IsDate(date) && k < |weeks|
    ensures Within(date, weeks[k].from, weeks[k].end) <==> m + 7 * k <= DayOf(date) < m + 7 * k + 7
    ensures Within(date, weeks[0].from, weeks[k].end) <==> m <= DayOf(date) < m + 7 * k + 7
    ensures weeks[k].index == k + 1
  {
    hide Stamp, DayOf, IsDate, Within;
    assert WeekAt(weeks[k], k, m, today) && WeekAt(weeks[0], 0, m, today);
    StampReadsBack(m);
    StampReadsBack(m + 7 * k);
    StampReadsBack(m + 7 * k + 6);
    WithinIsCalendar(weeks[k].from, weeks[k].end, date);
    WithinIsCalendar(weeks[0].from, weeks[k].end, date);
  }

  /** The cells of the first weeks, added up. */
  function SumOfWeeks(entries: seq<WorklogEntry>, id: string, weeks: seq<TrackerWeek>): Tally {
    if weeks == [] then Tally(0, 0)
    else
      var n := |weeks| - 1;
      Plus(SumOfWeeks(entries, id, weeks[..n]), Recorded(entries, id, weeks[n].from, weeks[n].end))
  }

  lemma OneEntryMore(e: WorklogEntry, id: string, m: int, weeks: seq<TrackerWeek>, today: string, k: nat)
    requires Span(m, weeks, today) && 0 < k < |weeks| && IsDate(e.date)
    ensures OneEntry(e, Counts(e, id, weeks[0].from, weeks[k].end))
         == Plus(OneEntry(e, Counts(e, id, weeks[0].from, weeks[k - 1].end)),
                 OneEntry(e, Counts(e, id, weeks[k].from, weeks[k].end)))
  {
    hide IsDate, DayOf, Within, Span;
    WeekOfDate(m, weeks, today, e.date, k - 1);
    WeekOfDate(m, weeks, today, e.date, k);
  }

  lemma {:induction false} OneWeekMore(
      entries: seq<WorklogEntry>, id: string, m: int, weeks: seq<TrackerWeek>, today: string, k: nat)
    requires Span(m, weeks, today) && 0 < k < |weeks|
    requires forall i :: 0 <= i < |entries| ==> IsDate(entries[i].date)
    ensures Recorded(entries, id, weeks[0].from, weeks[k].end)
         == Plus(Recorded(entries, id, weeks[0].from, weeks[k - 1].end),
                 Recorded(entries, id, weeks[k].from, weeks[k].end))
  {
    hide IsDate, Counts, Span, OneEntry;
    if entries == [] {
    } else {
      var n := |entries| - 1;
      OneWeekMore(entries[..n], id, m, weeks, today, k);
      OneEntryMore(entries[n], id, m, weeks, today, k);
    }
  }

  /** What is recorded in the span is what is recorded in its weeks. */
  lemma {:induction false} WeeksMakeTheSpan(
      entries: seq<WorklogEntry>, id: string, m: int, weeks: seq<TrackerWeek>, today: string, k: nat)
    requires Span(m, weeks, today) && k < |weeks|
    requires forall i :: 0 <= i < |entries| ==> IsDate(entries[i].date)
    ensures Recorded(entries, id, weeks[0].from, weeks[k].end) == SumOfWeeks(entries, id, weeks[..k + 1])
  {
    hide Recorded, Span, IsDate;
    assert weeks[..k + 1][..k] == weeks[..k];
    if k == 0 {
      assert SumOfWeeks(entries, id, weeks[..0]) == Tally(0, 0);
    } else {
      WeeksMakeTheSpan(entries, id, m, weeks, today, k - 1);
      OneWeekMore(entries, id, m, weeks, today, k);
    }
  }

  // ---------------------------------------------------------------------- seeding the rows

  /** A week, by number, in which the engine lists an instructor, and what it says of them. */
  datatype Listing = Listing(week: nat, breakdown: Breakdown)

  function ListingsIn(bs: seq<Breakdown>, id: string, week: nat): seq<Listing> {
    if bs == [] then []
    else
      var n := |bs| - 1;
      ListingsIn(bs[..n], id, week) + if bs[n].instructorId == id then [Listing(week, bs[n])] else []
  }

  /** Where the engine lists an instructor, in order. */
  function Listings(weekly: seq<seq<Breakdown>>, id: string): seq<Listing> {
    if weekly == [] then []
    else
      var n := |weekly| - 1;
      Listings(weekly[..n], id) + ListingsIn(weekly[n], id, n + 1)
  }

  function BlankCells(ls: seq<Listing>): (cells: map<nat, Cell>)
    ensures forall k :: k in cells <==> exists i :: 0 <= i < |ls| && ls[i].week == k
    ensures forall k :: k in cells ==> cells[k] == BLANK
  {
    if ls == [] then map[]
    else
      var n := |ls| - 1;
      assert forall i :: 0 <= i < n ==> ls[..n][i] == ls[i];
      BlankCells(ls[..n])[ls[n].week := BLANK]
  }

  function Capacities(ls: seq<Listing>): (hours: seq<real>)
    ensures |hours| == |ls| && forall k :: 0 <= k < |ls| ==> hours[k] == ls[k].breakdown.capacityHours
  {
    if ls == [] then [] else Capacities(ls[..|ls| - 1]) + [ls[|ls| - 1].breakdown.capacityHours]
  }

  /**
   * A row nothing was recorded in: active as first listed, with a blank cell for
   * each week listed, and the capacity of those weeks, rounded at each addition.
   */
  function SeedOf(ls: seq<Listing>): Row
    requires ls != []
  {
    Row(ls[0].breakdown.isActive, BlankCells(ls), 0, 0, Running(Capacities(ls)))
  }

  /** One row for each instructor the engine lists in any week. */
  ghost predicate Seeded(weekly: seq<seq<Breakdown>>, order: seq<string>, rows: map<string, Row>) {
    && Distinct(order)
    && (forall id :: id in order <==> Listings(weekly, id) != [])
    && (forall id :: id in rows <==> id in order)
    && forall id :: id in rows ==> rows[id] == SeedOf(Listings(weekly, id))
  }

  lemma NothingSeeded()
    ensures Seeded([], [], map[])
  {
  }

  lemma OpenWeek(weekly: seq<seq<Breakdown>>, order: seq<string>, rows: map<string, Row>)
    requires Seeded(weekly, order, rows)
    ensures Seeded(weekly + [[]], order, rows)
  {
    hide SeedOf;
    assert (weekly + [[]])[..|weekly|] == weekly;
    forall id ensures Listings(weekly + [[]], id) == Listings(weekly, id) {
      assert ListingsIn([], id, |weekly| + 1) == [];
    }
  }

  /** What listing one more instructor in the last week so far does to the rows. */
  lemma SeedOne(
      weekly: seq<seq<Breakdown>>, week: seq<Breakdown>, b: Breakdown, order: seq<string>, rows: map<string, Row>)
    requires Seeded(weekly + [week], order, rows)
    ensures var id, k := b.instructorId, |weekly| + 1;
      var row := if id in rows then rows[id] else Row(b.isActive, map[], 0, 0, 0.0);
      Seeded(weekly + [week + [b]], if id in rows then order else order + [id],
             rows[id := row.(cells := row.cells[k := if k in row.cells then row.cells[k] else BLANK],
                             capacityHours := Round2(row.capacityHours + b.capacityHours))])
  {
    hide SeedOf, Round2, Listings;
    forall id
      ensures Listings(weekly + [week + [b]], id)
           == Listings(weekly + [week], id) + if b.instructorId == id then [Listing(|weekly| + 1, b)] else []
    {
      OneMoreListing(weekly, week, b, id);
    }
    SeedNext(Listings(weekly + [week], b.instructorId), Listing(|weekly| + 1, b));
    forall id ensures id in order + [b.instructorId] <==> id in order || id == b.instructorId {
      InOneMore(id, order, b.instructorId);
    }
    var x := b.instructorId;
    var row := if x in rows then rows[x] else Row(b.isActive, map[], 0, 0, 0.0);
    assert row == if Listings(weekly + [week], x) == [] then Row(b.isActive, map[], 0, 0, 0.0)
                  else SeedOf(Listings(weekly + [week], x));
    assert Listings(weekly + [week], x) + [Listing(|weekly| + 1, b)] == Listings(weekly + [week + [b]], x);
    forall id | id in rows && id != x ensures rows[id] == SeedOf(Listings(weekly + [week + [b]], id)) {
      assert Listings(weekly + [week], id) + [] == Listings(weekly + [week], id);
    }
  }

  lemma OneMoreListing(weekly: seq<seq<Breakdown>>, week: seq<Breakdown>, b: Breakdown, id: string)
    ensures Listings(weekly + [week + [b]], id)
         == Listings(weekly + [week], id) + if b.instructorId == id then [Listing(|weekly| + 1, b)] else []
  {
    assert (weekly + [week + [b]])[..|weekly|] == weekly && (weekly + [week])[..|weekly|] == weekly;
    assert (week + [b])[..|week|] == week;
  }

  lemma SeedNext(ls: seq<Listing>, l: Listing)
    ensures var row := if ls == [] then Row(l.breakdown.isActive, map[], 0, 0, 0.0) else SeedOf(ls);
      SeedOf(ls + [l])
        == row.(cells := row.cells[l.week := if l.week in row.cells then row.cells[l.week] else BLANK],
                capacityHours := Round2(row.capacityHours + l.breakdown.capacityHours))
  {
    hide Round2, Running, BlankCells, Capacities;
    var all := ls + [l];
    assert all[..|ls|] == ls;
    assert Capacities(all) == Capacities(ls) + [l.breakdown.capacityHours];
    RunningNext(Capacities(ls), l.breakdown.capacityHours);
    BlankCellsNext(ls, l);
    if ls == [] {
      assert Capacities(ls) == [];
    } else {
      assert all[0] == ls[0];
    }
  }

  lemma BlankCellsNext(ls: seq<Listing>, l: Listing)
    ensures BlankCells(ls + [l]) == BlankCells(ls)[l.week := BLANK]
    ensures BlankCells([]) == map[]
  {
    assert (ls + [l])[..|ls|] == ls;
  }

  method Seed(weeks: seq<TrackerWeek>, weekly: seq<seq<Breakdown>>)
    returns (order: seq<string>, rows: map<string, Row>)
    requires |weekly| == |weeks| && forall k :: 0 <= k < |weeks| ==> weeks[k].index == k + 1
    ensures Seeded(weekly, order, rows)
  {
    hide Seeded, Round2;
    order, rows := [], map[];
    NothingSeeded();
    for i := 0 to |weeks|
      invariant Seeded(weekly[..i], order, rows)
    {
      OpenWeek(weekly[..i], order, rows);
      for j := 0 to |weekly[i]|
        invariant Seeded(weekly[..i] + [weekly[i][..j]], order, rows)
      {
        var b := weekly[i][j];
        SeedOne(weekly[..i], weekly[i][..j], b, order, rows);
        assert weekly[i][..j] + [b] == weekly[i][..j + 1];
        var row := if b.instructorId in rows then rows[b.instructorId] else Row(b.isActive, map[], 0, 0, 0.0);
        if b.instructorId !in rows {
          order := order + [b.instructorId];
        }
        var cell := if weeks[i].index in row.cells then row.cells[weeks[i].index] else BLANK;
        row := row.(cells := row.cells[weeks[i].index := cell]);
        row := row.(capacityHours := Round2(row.capacityHours + b.capacityHours));
        rows := rows[b.instructorId := row];
      }
      assert weekly[i][..|weekly[i]|] == weekly[i];
      assert weekly[..i] + [weekly[i]] == weekly[..i + 1];
    }
    assert weekly[..|weeks|] == weekly;
  }

  // ---------------------------------------------------------------------- filling the cells

  function CellAt(row: Row, index: nat): Cell {
    if index in row.cells then row.cells[index] else BLANK
  }

  ghost predicate CellHolds(row: Row, k: nat, id: string, weeks: seq<TrackerWeek>, entries: seq<WorklogEntry>)
    requires k < |weeks|
  {
    CellAt(row, k + 1) == CellOf(entries, id, weeks[k].from, weeks[k].end)
  }

  /** A row's totals hold the entries of the whole span, its cells those of their weeks. */
  ghost predicate Holds(row: Row, id: string, weeks: seq<TrackerWeek>, entries: seq<WorklogEntry>)
    requires weeks != []
  {
    && Tally(row.daysLogged, row.totalMinutes) == Recorded(entries, id, weeks[0].from, weeks[|weeks| - 1].end)
    && forall k :: 0 <= k < |weeks| ==> CellHolds(row, k, id, weeks, entries)
  }

  ghost predicate Filled(
      rows: map<string, Row>, seeds: map<string, Row>, weeks: seq<TrackerWeek>, entries: seq<WorklogEntry>)
    requires weeks != []
  {
    && rows.Keys == seeds.Keys
    && forall id :: id in rows ==>
      && rows[id].isActive == seeds[id].isActive && rows[id].capacityHours == seeds[id].capacityHours
      && Holds(rows[id], id, weeks, entries)
  }

  /** `weeks.find(...)`: the place of the first week the date is in, or past the end. */
  method FindWeek(weeks: seq<TrackerWeek>, date: string) returns (k: nat)
    ensures k <= |weeks|
    ensures k < |weeks| ==> Within(date, weeks[k].from, weeks[k].end)
    ensures forall i :: 0 <= i < k ==> !Within(date, weeks[i].from, weeks[i].end)
  {
    hide Less;
    k := 0;
    while k < |weeks| && !(!Less(date, weeks[k].from) && !Less(weeks[k].end, date))
      invariant k <= |weeks|
      invariant forall i :: 0 <= i < k ==> !Within(date, weeks[i].from, weeks[i].end)
    {
      k := k + 1;
    }
  }

  method Fill(ghost m: int, weeks: seq<TrackerWeek>, ghost today: string,
              seeds: map<string, Row>, entries: seq<WorklogEntry>)
    returns (rows: map<string, Row>)
    requires Span(m, weeks, today)
    requires forall i :: 0 <= i < |entries| ==> IsDate(entries[i].date)
    requires forall id :: id in seeds ==> IsBlank(seeds[id])
    ensures Filled(rows, seeds, weeks, entries)
  {
    hide IsDate, Within, WeeksFrom, Filled, RemarkOf, IsBlank;
    rows := seeds;
    NothingFilled(seeds, weeks);
    for i := 0 to |entries|
      invariant Filled(rows, seeds, weeks, entries[..i])
    {
      var e := entries[i];
      var k := FindWeek(weeks, e.date);
      assert entries[..i] + [e] == entries[..i + 1];
      FilledNext(m, weeks, today, rows, seeds, entries[..i], e, k);
      if k == |weeks| || e.instructorId !in rows { continue; }
      IndexOf(m, weeks, today, k);
      var row := rows[e.instructorId];
      var cell := if weeks[k].index in row.cells then row.cells[weeks[k].index] else BLANK;
      cell := cell.(daysLogged := cell.daysLogged + 1);
      row := row.(daysLogged := row.daysLogged + 1);
      cell := cell.(totalMinutes := cell.totalMinutes + e.workingMinutes);
      row := row.(totalMinutes := row.totalMinutes + e.workingMinutes);
      var remark := RemarkOf(e);
      if remark != "" && remark !in cell.remarks {
        cell := cell.(remarks := cell.remarks + [remark]);
      }
      row := row.(cells := row.cells[weeks[k].index := cell]);
      assert row == AfterEntry(rows[e.instructorId], e, k);
      rows := rows[e.instructorId := row];
    }
    assert entries[..|entries|] == entries;
  }

  lemma NothingFilled(seeds: map<string, Row>, weeks: seq<TrackerWeek>)
    requires weeks != [] && forall id :: id in seeds ==> IsBlank(seeds[id])
    ensures Filled(seeds, seeds, weeks, [])
  {
    hide IsBlank, Holds;
    forall id | id in seeds ensures Holds(seeds[id], id, weeks, []) {
      BlankHolds(seeds[id], id, weeks);
    }
  }

  /** One more entry: the row it belongs to changes if its date falls in a week, and no other. */
  lemma FilledNext(m: int, weeks: seq<TrackerWeek>, today: string, rows: map<string, Row>, seeds: map<string, Row>,
                   entries: seq<WorklogEntry>, e: WorklogEntry, k: nat)
    requires Span(m, weeks, today) && IsDate(e.date) && Filled(rows, seeds, weeks, entries)
    requires k <= |weeks| && (k < |weeks| ==> Within(e.date, weeks[k].from, weeks[k].end))
    requires forall i :: 0 <= i < k ==> !Within(e.date, weeks[i].from, weeks[i].end)
    ensures Filled(if k == |weeks| || e.instructorId !in rows then rows
                   else rows[e.instructorId := AfterEntry(rows[e.instructorId], e, k)],
                   seeds, weeks, entries + [e])
  {
    hide IsDate, Within, WeeksFrom, Holds, AddTo;
    forall id | id in rows
      ensures Holds(if k < |weeks| && e.instructorId == id then AfterEntry(rows[id], e, k) else rows[id],
                    id, weeks, entries + [e])
    {
      HoldsNext(m, weeks, today, entries, e, k, rows[id], id);
    }
  }

  predicate IsBlank(row: Row) {
    row.daysLogged == 0 && row.totalMinutes == 0 && forall k :: k in row.cells ==> row.cells[k] == BLANK
  }

  lemma BlankHolds(row: Row, id: string, weeks: seq<TrackerWeek>)
    requires weeks != [] && IsBlank(row)
    ensures Holds(row, id, weeks, [])
  {
  }

  lemma IndexOf(m: int, weeks: seq<TrackerWeek>, today: string, k: nat)
    requires Span(m, weeks, today) && k < |weeks|
    ensures weeks[k].index == k + 1
  {
    assert WeekAt(weeks[k], k, m, today);
  }

  /** What an entry that falls in the `k`-th week does to its row. */
  function AfterEntry(row: Row, e: WorklogEntry, k: nat): Row {
    row.(cells := row.cells[k + 1 := AddTo(CellAt(row, k + 1), e)],
         daysLogged := row.daysLogged + 1, totalMinutes := row.totalMinutes + e.workingMinutes)
  }

  /** The week found is the only one that holds the date, and there is one just when the span does. */
  lemma TheOneWeek(m: int, weeks: seq<TrackerWeek>, today: string, date: string, k: nat, j: nat)
    requires Span(m, weeks, today) && IsDate(date) && j < |weeks|
    requires k <= |weeks| && (k < |weeks| ==> Within(date, weeks[k].from, weeks[k].end))
    requires forall i :: 0 <= i < k ==> !Within(date, weeks[i].from, weeks[i].end)
    ensures Within(date, weeks[j].from, weeks[j].end) <==> j == k
    ensures Within(date, weeks[0].from, weeks[|weeks| - 1].end) <==> k < |weeks|
  {
    hide IsDate, DayOf, Within, WeeksFrom;
    WeekOfDate(m, weeks, today, date, j);
    WeekOfDate(m, weeks, today, date, |weeks| - 1);
    if k < |weeks| {
      WeekOfDate(m, weeks, today, date, k);
    } else {
      var at := (DayOf(date) - m) / 7;
      if 0 <= at < |weeks| {
        WeekOfDate(m, weeks, today, date, at);
      }
    }
  }

  lemma HoldsNext(m: int, weeks: seq<TrackerWeek>, today: string,
                  entries: seq<WorklogEntry>, e: WorklogEntry, k: nat, row: Row, id: string)
    requires Span(m, weeks, today) && IsDate(e.date) && Holds(row, id, weeks, entries)
    requires k <= |weeks| && (k < |weeks| ==> Within(e.date, weeks[k].from, weeks[k].end))
    requires forall i :: 0 <= i < k ==> !Within(e.date, weeks[i].from, weeks[i].end)
    ensures Holds(if k < |weeks| && e.instructorId == id then AfterEntry(row, e, k) else row, id, weeks, entries + [e])
  {
    hide IsDate, Within, WeeksFrom, CellOf, Recorded, AddTo;
    var after := if k < |weeks| && e.instructorId == id then AfterEntry(row, e, k) else row;
    forall j | 0 <= j < |weeks| ensures CellHolds(after, j, id, weeks, entries + [e]) {
      assert CellHolds(row, j, id, weeks, entries);
      TheOneWeek(m, weeks, today, e.date, k, j);
      CellNext(entries, e, id, weeks[j].from, weeks[j].end);
    }
    TheOneWeek(m, weeks, today, e.date, k, 0);
    CellNext(entries, e, id, weeks[0].from, weeks[|weeks| - 1].end);
  }

  // -------------------------------------------------------------------- rows against cells

  /** The first `n` cells of a row added up. */
  function SumOfCells(row: Row, n: nat): Tally {
    if n == 0 then Tally(0, 0)
    else Plus(SumOfCells(row, n - 1), Tally(CellAt(row, n).daysLogged, CellAt(row, n).totalMinutes))
  }

  lemma {:induction false} CellsAreWeeks(
      row: Row, id: string, weeks: seq<TrackerWeek>, entries: seq<WorklogEntry>, n: nat)
    requires n <= |weeks| && weeks != [] && Holds(row, id, weeks, entries)
    ensures SumOfCells(row, n) == SumOfWeeks(entries, id, weeks[..n])
  {
    hide Recorded;
    if n == 0 {
    } else {
      CellsAreWeeks(row, id, weeks, entries, n - 1);
      assert CellHolds(row, n - 1, id, weeks, entries);
      assert weeks[..n][..n - 1] == weeks[..n - 1];
    }
  }

  /**
   * A row's days and minutes are both the sum over its cells and the sum over the
   * instructor's entries in the span.
   */
  lemma RowsAddUp(m: int, weeks: seq<TrackerWeek>, today: string,
                  row: Row, id: string, entries: seq<WorklogEntry>)
    requires Span(m, weeks, today) && Holds(row, id, weeks, entries)
    requires forall i :: 0 <= i < |entries| ==> IsDate(entries[i].date)
    ensures Tally(row.daysLogged, row.totalMinutes) == SumOfCells(row, |weeks|)
    ensures Tally(row.daysLogged, row.totalMinutes) == Recorded(entries, id, weeks[0].from, weeks[|weeks| - 1].end)
  {
    hide IsDate, WeeksFrom;
    CellsAreWeeks(row, id, weeks, entries, |weeks|);
    WeeksMakeTheSpan(entries, id, m, weeks, today, |weeks| - 1);
    assert weeks[..|weeks|] == weeks;
  }

  // ------------------------------------------------------------------- published figures

  /** What is published of a row: hours, derived once from its minutes and its cells', and a percentage. */
  datatype Figures = Figures(cellHours: map<nat, real>, totalWorkingHours: real, recordedHoursPct: Option<real>)

  function FiguresOf(row: Row, isShown: bool): Figures {
    var hours := Round2(ToHours(row.totalMinutes));
    Figures(map k | k in row.cells :: Round2(ToHours(row.cells[k].totalMinutes)), hours,
            if isShown then Percent(hours, row.capacityHours) else None)
  }

  /** A row's hours are within half a hundredth of its minutes, and its percentage is what they are of the capacity. */
  lemma FiguresMean(row: Row, isShown: bool)
    ensures var f := FiguresOf(row, isShown);
      && -0.005 <= f.totalWorkingHours - row.totalMinutes as real / 60.0 <= 0.005
      && (isShown ==> IsShare(f.recordedHoursPct, f.totalWorkingHours, row.capacityHours))
      && (!isShown ==> f.recordedHoursPct == None)
  {
    hide Round2, Percent, IsShare;
    RoundingError(ToHours(row.totalMinutes));
    PercentMeans(Round2(ToHours(row.totalMinutes)), row.capacityHours);
  }

  function HoursAt(f: Figures, index: nat): real {
    if index in f.cellHours then f.cellHours[index] else 0.0
  }

  /** The first `n` cells of a row, added up as they are printed. */
  function SumOfPrinted(f: Figures, n: nat): real {
    if n == 0 then 0.0 else SumOfPrinted(f, n - 1) + HoursAt(f, n)
  }

  /** Of the first `n` weeks, those whose minutes leave 1 when divided by three, less those that leave 2. */
  function Leaning(row: Row, n: nat): int {
    if n == 0 then 0 else Leaning(row, n - 1) + Lean(CellAt(row, n).totalMinutes)
  }

  /** So many minutes in hours, and a lean of so many thirds of a hundredth. */
  predicate Reads(hours: real, minutes: int, lean: int) {
    hours == (5 * minutes + lean) as real / 300.0
  }

  lemma ReadsTogether(x: real, a: int, i: int, y: real, b: int, j: int)
    requires Reads(x, a, i) && Reads(y, b, j)
    ensures Reads(x + y, a + b, i + j)
  {
  }

  lemma PrintedCell(row: Row, isShown: bool, index: nat)
    ensures var minutes := CellAt(row, index).totalMinutes;
      Reads(HoursAt(FiguresOf(row, isShown), index), minutes, Lean(minutes))
  {
    hide Round2, ToHours;
    RoundedMinutes(CellAt(row, index).totalMinutes);
  }

  lemma {:induction false} PrintedCells(row: Row, isShown: bool, n: nat)
    ensures Reads(SumOfPrinted(FiguresOf(row, isShown), n), SumOfCells(row, n).minutes, Leaning(row, n))
  {
    hide FiguresOf, HoursAt, CellAt, Lean;
    if n == 0 {
    } else {
      hide Reads;
      var before, minutes := SumOfCells(row, n - 1), CellAt(row, n).totalMinutes;
      var f := FiguresOf(row, isShown);
      PrintedCells(row, isShown, n - 1);
      PrintedCell(row, isShown, n);
      ReadsTogether(SumOfPrinted(f, n - 1), before.minutes, Leaning(row, n - 1), HoursAt(f, n), minutes, Lean(minutes));
    }
  }

  lemma LeanOfSum(a: int, b: int, i: int)
    requires (a - i) % 3 == 0
    ensures (a + b - (i + Lean(b))) % 3 == 0 && -1 <= Lean(b) <= 1
  {
  }

  lemma {:induction false} LeaningIsLikeTheMinutes(row: Row, n: nat)
    ensures (SumOfCells(row, n).minutes - Leaning(row, n)) % 3 == 0
    ensures Leaning(row, n) <= n && -Leaning(row, n) <= n
  {
    hide CellAt, Lean;
    if n == 0 {
    } else {
      LeaningIsLikeTheMinutes(row, n - 1);
      LeanOfSum(SumOfCells(row, n - 1).minutes, CellAt(row, n).totalMinutes, Leaning(row, n - 1));
    }
  }

  /**
   * A row's cells are rounded on their own, so their hours can drift from the
   * row's. They add up to it if and only if the weeks whose minutes leave 1 when
   * divided by three and those that leave 2 differ in number by at most one; the
   * drift is the difference beyond that, at a third of a hundredth each.
   */
  lemma CellsDriftFromTheRow(row: Row, isShown: bool, n: nat)
    requires row.totalMinutes == SumOfCells(row, n).minutes
    ensures var f := FiguresOf(row, isShown);
      var drift := SumOfPrinted(f, n) - f.totalWorkingHours;
      && drift == (Leaning(row, n) - Lean(row.totalMinutes)) as real / 300.0
      && (drift == 0.0 <==> -1 <= Leaning(row, n) <= 1)
      && -((n + 1) as real / 300.0) <= drift <= (n + 1) as real / 300.0
  {
    hide SumOfPrinted, SumOfCells, Leaning, Round2, ToHours, CellAt;
    PrintedCells(row, isShown, n);
    LeaningIsLikeTheMinutes(row, n);
    RoundedMinutes(row.totalMinutes);
    LeanOfSum(0, row.totalMinutes, 0);
    DriftOf(SumOfPrinted(FiguresOf(row, isShown), n), FiguresOf(row, isShown).totalWorkingHours,
            row.totalMinutes, Leaning(row, n));
  }

  lemma DriftOf(x: real, y: real, minutes: int, lean: int)
    requires Reads(x, minutes, lean) && Reads(y, minutes, Lean(minutes))
    ensures x - y == (lean - Lean(minutes)) as real / 300.0
  {
  }

  /** Three weeks of twenty minutes are printed 0.33 each, under an hour. */
  lemma ThreeTwentyMinuteWeeks()
    ensures var cell := Cell(1, 20, []);
      var f := FiguresOf(Row(true, map[1 := cell, 2 := cell, 3 := cell], 3, 60, 0.0), true);
      f.cellHours == map[1 := 0.33, 2 := 0.33, 3 := 0.33] && f.totalWorkingHours == 1.0
  {
    RoundedMinutes(20);
    RoundedMinutes(60);
    hide Round2;
  }

  // ------------------------------------------------------------------------- grid totals

  predicate CountsForAny(e: WorklogEntry, ids: seq<string>, from: string, end: string) {
    e.instructorId in ids && Within(e.date, from, end)
  }

  /** What the given instructors recorded from one date to another. */
  function RecordedByAll(entries: seq<WorklogEntry>, ids: seq<string>, from: string, end: string): Tally {
    if entries == [] then Tally(0, 0)
    else
      var n := |entries| - 1;
      Plus(RecordedByAll(entries[..n], ids, from, end), OneEntry(entries[n], CountsForAny(entries[n], ids, from, end)))
  }

  /** The rows shown: active staff, and former staff with something to report. */
  function Visible(order: seq<string>, rows: map<string, Row>): (shown: seq<string>)
    requires forall k :: 0 <= k < |order| ==> order[k] in rows
    ensures forall k :: 0 <= k < |shown| ==> shown[k] in rows && shown[k] in order
  {
    if order == [] then []
    else
      var n := |order| - 1;
      var row := rows[order[n]];
      Visible(order[..n], rows) + if row.isActive || row.daysLogged > 0 then [order[n]] else []
  }

  /** The rows shown of former staff. */
  function Former(shown: seq<string>, rows: map<string, Row>): (former: seq<string>)
    requires forall k :: 0 <= k < |shown| ==> shown[k] in rows
  {
    if shown == [] then []
    else
      var n := |shown| - 1;
      Former(shown[..n], rows) + if rows[shown[n]].isActive then [] else [shown[n]]
  }

  lemma {:induction false} VisibleMeans(order: seq<string>, rows: map<string, Row>, id: string)
    requires Distinct(order) && forall k :: 0 <= k < |order| ==> order[k] in rows
    ensures id in Visible(order, rows) <==> id in order && (rows[id].isActive || rows[id].daysLogged > 0)
    ensures Distinct(Visible(order, rows))
  {
    if order == [] {
    } else {
      var n := |order| - 1;
      VisibleMeans(order[..n], rows, id);
      assert order[n] !in order[..n];
      InOneMore(id, order[..n], order[n]);
      InOneMore(id, Visible(order[..n], rows), order[n]);
      assert order[..n] + [order[n]] == order;
    }
  }

  lemma {:induction false} FormerMeans(shown: seq<string>, rows: map<string, Row>, id: string)
    requires Distinct(shown) && forall k :: 0 <= k < |shown| ==> shown[k] in rows
    ensures id in Former(shown, rows) <==> id in shown && !rows[id].isActive
    ensures Distinct(Former(shown, rows))
  {
    if shown == [] {
    } else {
      var n := |shown| - 1;
      FormerMeans(shown[..n], rows, id);
      FormerMeans(shown[..n], rows, shown[n]);
      assert shown[n] !in shown[..n];
      InOneMore(id, shown[..n], shown[n]);
      InOneMore(id, Former(shown[..n], rows), shown[n]);
      assert shown[..n] + [shown[n]] == shown;
    }
  }

  function SumOfRows(ids: seq<string>, rows: map<string, Row>): Tally
    requires forall k :: 0 <= k < |ids| ==> ids[k] in rows
  {
    if ids == [] then Tally(0, 0)
    else
      var n := |ids| - 1;
      Plus(SumOfRows(ids[..n], rows), Tally(rows[ids[n]].daysLogged, rows[ids[n]].totalMinutes))
  }

  /** Each row's minutes as hours, before rounding. */
  function HoursOf(ids: seq<string>, rows: map<string, Row>): (hours: seq<real>)
    requires forall k :: 0 <= k < |ids| ==> ids[k] in rows
    ensures |hours| == |ids|
  {
    if ids == [] then []
    else HoursOf(ids[..|ids| - 1], rows) + [ToHours(rows[ids[|ids| - 1]].totalMinutes)]
  }

  /** The hours published of each row. */
  function RowHours(ids: seq<string>, figures: map<string, Figures>): (hours: seq<real>)
    requires forall k :: 0 <= k < |ids| ==> ids[k] in figures
    ensures |hours| == |ids|
  {
    if ids == [] then [] else RowHours(ids[..|ids| - 1], figures) + [figures[ids[|ids| - 1]].totalWorkingHours]
  }

  lemma {:induction false} RowHoursAreRounded(ids: seq<string>, rows: map<string, Row>, figures: map<string, Figures>)
    requires forall k :: 0 <= k < |ids| ==> ids[k] in rows && ids[k] in figures
    requires forall k :: 0 <= k < |ids| ==>
      figures[ids[k]].totalWorkingHours == Round2(ToHours(rows[ids[k]].totalMinutes))
    ensures RowHours(ids, figures) == Rounded(HoursOf(ids, rows))
  {
    hide Round2, ToHours;
    if ids == [] {
    } else {
      var n := |ids| - 1;
      RowHoursAreRounded(ids[..n], rows, figures);
      assert HoursOf(ids, rows)[..n] == HoursOf(ids[..n], rows);
    }
  }

  lemma OneEntryOfOneMore(e: WorklogEntry, ids: seq<string>, id: string, from: string, end: string)
    requires id !in ids
    ensures OneEntry(e, CountsForAny(e, ids + [id], from, end))
         == Plus(OneEntry(e, CountsForAny(e, ids, from, end)), OneEntry(e, Counts(e, id, from, end)))
  {
    hide Within;
    InOneMore(e.instructorId, ids, id);
  }

  lemma {:induction false} OneMoreInstructor(
      entries: seq<WorklogEntry>, ids: seq<string>, id: string, from: string, end: string)
    requires id !in ids
    ensures RecordedByAll(entries, ids + [id], from, end)
         == Plus(RecordedByAll(entries, ids, from, end), Recorded(entries, id, from, end))
  {
    hide CountsForAny, Counts, OneEntry;
    if entries == [] {
    } else {
      var n := |entries| - 1;
      OneMoreInstructor(entries[..n], ids, id, from, end);
      OneEntryOfOneMore(entries[n], ids, id, from, end);
    }
  }

  lemma {:induction false} NobodyRecordsNothing(entries: seq<WorklogEntry>, from: string, end: string)
    ensures RecordedByAll(entries, [], from, end) == Tally(0, 0)
  {
    if entries == [] {
    } else {
      NobodyRecordsNothing(entries[..|entries| - 1], from, end);
    }
  }

  lemma PlusNoDays(t: Tally, e: WorklogEntry, counts: bool)
    requires t.days == 0 ==> t.minutes == 0
    ensures Plus(t, OneEntry(e, counts)).days == 0 ==> Plus(t, OneEntry(e, counts)).minutes == 0
  {
  }

  lemma NothingRecorded(id: string, from: string, end: string)
    ensures Recorded([], id, from, end) == Tally(0, 0)
  {
  }

  lemma {:induction false} NoDaysNoMinutes(entries: seq<WorklogEntry>, id: string, from: string, end: string)
    ensures Recorded(entries, id, from, end).days == 0 ==> Recorded(entries, id, from, end).minutes == 0
  {
    hide *;
    if entries == [] {
      NothingRecorded(id, from, end);
    } else {
      var n := |entries| - 1;
      NoDaysNoMinutes(entries[..n], id, from, end);
      CellNext(entries[..n], entries[n], id, from, end);
      PlusNoDays(Recorded(entries[..n], id, from, end), entries[n], Counts(entries[n], id, from, end));
      assert entries[..n] + [entries[n]] == entries;
    }
  }

  /** The rows left out hold nothing, so the ones shown hold everything the instructors recorded. */
  lemma {:induction false} VisibleRowsHoldAll(
      order: seq<string>, rows: map<string, Row>, entries: seq<WorklogEntry>, from: string, end: string)
    requires Distinct(order) && forall k :: 0 <= k < |order| ==> order[k] in rows
    requires forall id :: id in rows ==>
      Tally(rows[id].daysLogged, rows[id].totalMinutes) == Recorded(entries, id, from, end)
    ensures SumOfRows(Visible(order, rows), rows) == RecordedByAll(entries, order, from, end)
  {
    hide Recorded, RecordedByAll;
    if order == [] {
      NobodyRecordsNothing(entries, from, end);
    } else {
      hide Visible, SumOfRows, Plus;
      var n := |order| - 1;
      var front, id := order[..n], order[n];
      assert front + [id] == order && id !in front;
      VisibleRowsHoldAll(front, rows, entries, from, end);
      OneMoreInstructor(entries, front, id, from, end);
      NoDaysNoMinutes(entries, id, from, end);
      OneMoreVisible(front, rows, id);
    }
  }

  lemma OneMoreVisible(front: seq<string>, rows: map<string, Row>, id: string)
    requires id in rows && forall k :: 0 <= k < |front| ==> front[k] in rows
    requires rows[id].daysLogged == 0 ==> rows[id].totalMinutes == 0
    ensures forall k :: 0 <= k <= |front| ==> (front + [id])[k] in rows
    ensures SumOfRows(Visible(front + [id], rows), rows)
         == Plus(SumOfRows(Visible(front, rows), rows), Tally(rows[id].daysLogged, rows[id].totalMinutes))
  {
    hide SumOfRows, Plus;
    var before := Visible(front, rows);
    assert (front + [id])[..|front|] == front;
    if rows[id].isActive || rows[id].daysLogged > 0 {
      SumOfRowsNext(before, rows, id);
    } else {
      PlusNothing(SumOfRows(before, rows));
      assert before + [] == before;
    }
  }

  lemma SumOfRowsNext(ids: seq<string>, rows: map<string, Row>, id: string)
    requires id in rows && forall k :: 0 <= k < |ids| ==> ids[k] in rows
    ensures forall k :: 0 <= k <= |ids| ==> (ids + [id])[k] in rows
    ensures SumOfRows(ids + [id], rows)
         == Plus(SumOfRows(ids, rows), Tally(rows[id].daysLogged, rows[id].totalMinutes))
  {
    assert (ids + [id])[..|ids|] == ids;
  }

  lemma PlusNothing(t: Tally)
    ensures Plus(t, Tally(0, 0)) == t
  {
  }

  lemma {:induction false} HoursAddUp(ids: seq<string>, rows: map<string, Row>)
    requires forall k :: 0 <= k < |ids| ==> ids[k] in rows
    ensures Sum(HoursOf(ids, rows)) == ToHours(SumOfRows(ids, rows).minutes)
  {
    if ids == [] {
    } else {
      var n := |ids| - 1;
      HoursAddUp(ids[..n], rows);
      assert HoursOf(ids, rows)[..n] == HoursOf(ids[..n], rows);
    }
  }

  /**
   * The grid's totals against the entries: the days logged are exactly those of
   * the instructors listed, and the published hours, `n` rounded rows added and
   * rounded again, are within 0.005 (n + 1) of the minutes they recorded.
   */
  lemma TotalsAreClose(
      order: seq<string>, rows: map<string, Row>, entries: seq<WorklogEntry>, from: string, end: string)
    requires Distinct(order) && forall k :: 0 <= k < |order| ==> order[k] in rows
    requires forall id :: id in rows ==>
      Tally(rows[id].daysLogged, rows[id].totalMinutes) == Recorded(entries, id, from, end)
    ensures var shown, exact := Visible(order, rows), RecordedByAll(entries, order, from, end);
      var off := PublishedTotal(HoursOf(shown, rows)) - ToHours(exact.minutes);
      && SumOfRows(shown, rows).days == exact.days
      && -0.005 * (|shown| + 1) as real <= off <= 0.005 * (|shown| + 1) as real
  {
    hide PublishedTotal, Recorded, RecordedByAll, ToHours;
    var shown := Visible(order, rows);
    VisibleRowsHoldAll(order, rows, entries, from, end);
    HoursAddUp(shown, rows);
    PublishedTotalIsClose(HoursOf(shown, rows));
  }

  // ----------------------------------------------------------------------- capacity

  /** The capacities of the rows shown, and of all the listings they are made of. */
  function RowCapacities(ids: seq<string>, weekly: seq<seq<Breakdown>>): (hours: seq<real>)
    ensures |hours| == |ids|
  {
    if ids == [] then []
    else
      var n := |ids| - 1;
      RowCapacities(ids[..n], weekly) + [Running(Capacities(Listings(weekly, ids[n])))]
  }

  function ListedCapacity(ids: seq<string>, weekly: seq<seq<Breakdown>>): real {
    if ids == [] then 0.0
    else
      var n := |ids| - 1;
      ListedCapacity(ids[..n], weekly) + Sum(Capacities(Listings(weekly, ids[n])))
  }

  function ListingCount(ids: seq<string>, weekly: seq<seq<Breakdown>>): nat {
    if ids == [] then 0
    else
      var n := |ids| - 1;
      ListingCount(ids[..n], weekly) + |Listings(weekly, ids[n])|
  }

  /** Every capacity the engine gives has two decimals, as it rounds them. */
  ghost predicate AllHundredths(weekly: seq<seq<Breakdown>>) {
    forall id :: AllHundredthsOf(Listings(weekly, id))
  }

  predicate AllHundredthsOf(ls: seq<Listing>) {
    forall k :: 0 <= k < |ls| ==> IsHundredths(ls[k].breakdown.capacityHours)
  }

  lemma {:induction false} ListingsInAreListed(bs: seq<Breakdown>, id: string, week: nat)
    ensures forall i :: 0 <= i < |ListingsIn(bs, id, week)| ==> ListingsIn(bs, id, week)[i].breakdown in bs
  {
    if bs == [] {
    } else {
      var n := |bs| - 1;
      ListingsInAreListed(bs[..n], id, week);
      assert bs == bs[..n] + [bs[n]];
    }
  }

  /** A figure as the engine publishes it. */
  ghost predicate IsRounded(hours: real) {
    exists x: real :: hours == Round2(x)
  }

  ghost predicate AllRounded(bs: seq<Breakdown>) {
    forall b :: b in bs ==> IsRounded(b.capacityHours)
  }

  lemma {:induction false} RoundedListings(weekly: seq<seq<Breakdown>>, id: string)
    requires forall k :: 0 <= k < |weekly| ==> AllRounded(weekly[k])
    ensures AllHundredthsOf(Listings(weekly, id))
  {
    hide IsHundredths, Round2;
    if weekly == [] {
    } else {
      var n := |weekly| - 1;
      var last := ListingsIn(weekly[n], id, n + 1);
      RoundedListings(weekly[..n], id);
      ListingsInAreListed(weekly[n], id, n + 1);
      forall i | 0 <= i < |last| ensures IsHundredths(last[i].breakdown.capacityHours) {
        assert IsRounded(last[i].breakdown.capacityHours);
        var x: real :| last[i].breakdown.capacityHours == Round2(x);
        RoundedIsHundredths(x);
      }
    }
  }

  /** The engine's capacities are rounded, so they have two decimals. */
  lemma EngineCapacities(weekly: seq<seq<Breakdown>>)
    requires forall k :: 0 <= k < |weekly| ==> AllRounded(weekly[k])
    ensures AllHundredths(weekly)
  {
    hide AllHundredthsOf, AllRounded;
    forall id ensures AllHundredthsOf(Listings(weekly, id)) {
      RoundedListings(weekly, id);
    }
  }

  lemma ErrorsAdd(a: real, b: real, m: nat, c: real, d: real, n: nat)
    requires -0.005 * m as real <= a - b <= 0.005 * m as real
    requires -0.005 * n as real <= c - d <= 0.005 * n as real
    ensures -0.005 * (m + n) as real <= a + c - (b + d) <= 0.005 * (m + n) as real
  {
  }

  lemma {:induction false} CapacitiesAddUp(ids: seq<string>, weekly: seq<seq<Breakdown>>)
    ensures var off := Sum(RowCapacities(ids, weekly)) - ListedCapacity(ids, weekly);
      -0.005 * ListingCount(ids, weekly) as real <= off <= 0.005 * ListingCount(ids, weekly) as real
    ensures AllHundredths(weekly) ==>
      Sum(RowCapacities(ids, weekly)) == ListedCapacity(ids, weekly) && IsHundredths(ListedCapacity(ids, weekly))
  {
    hide Running, IsHundredths;
    if ids == [] {
      NothingIsHundredths();
    } else {
      hide Capacities;
      var n := |ids| - 1;
      var ls := Listings(weekly, ids[n]);
      CapacitiesAddUp(ids[..n], weekly);
      RunningIsClose(Capacities(ls));
      assert RowCapacities(ids, weekly)[..n] == RowCapacities(ids[..n], weekly);
      ErrorsAdd(Sum(RowCapacities(ids[..n], weekly)), ListedCapacity(ids[..n], weekly), ListingCount(ids[..n], weekly),
                Running(Capacities(ls)), Sum(Capacities(ls)), |ls|);
      if AllHundredths(weekly) {
        assert AllHundredthsOf(ls);
        HundredthsAdd(ListedCapacity(ids[..n], weekly), Sum(Capacities(ls)));
      }
    }
  }

  /**
   * Rounding a row's capacity at every week, and the total once more, is off by
   * no more than 0.005 for each listing and one; and it is exact, because the
   * engine's figures have two decimals.
   */
  lemma CapacityIsClose(ids: seq<string>, weekly: seq<seq<Breakdown>>)
    ensures var off := Round2(Sum(RowCapacities(ids, weekly))) - ListedCapacity(ids, weekly);
      var bound := 0.005 * (ListingCount(ids, weekly) + 1) as real;
      && -bound <= off <= bound
      && (AllHundredths(weekly) ==> off == 0.0)
  {
    hide Round2, IsHundredths, AllHundredths;
    CapacitiesAddUp(ids, weekly);
    RoundingError(Sum(RowCapacities(ids, weekly)));
    if AllHundredths(weekly) {
      HundredthsStay(ListedCapacity(ids, weekly));
    }
  }

  function CapacityOfRows(ids: seq<string>, rows: map<string, Row>): (hours: seq<real>)
    requires forall k :: 0 <= k < |ids| ==> ids[k] in rows
    ensures |hours| == |ids| && forall k :: 0 <= k < |ids| ==> hours[k] == rows[ids[k]].capacityHours
  {
    if ids == [] then [] else CapacityOfRows(ids[..|ids| - 1], rows) + [rows[ids[|ids| - 1]].capacityHours]
  }

  lemma {:induction false} RowsHoldCapacities(ids: seq<string>, rows: map<string, Row>, weekly: seq<seq<Breakdown>>)
    requires forall k :: 0 <= k < |ids| ==>
      ids[k] in rows && rows[ids[k]].capacityHours == Running(Capacities(Listings(weekly, ids[k])))
    ensures CapacityOfRows(ids, rows) == RowCapacities(ids, weekly)
  {
    hide Running;
    if ids == [] {
    } else {
      RowsHoldCapacities(ids[..|ids| - 1], rows, weekly);
    }
  }

  // ---------------------------------------------------------------------------- the grid

  datatype TrackerResult = TrackerResult(
    weeks: seq<TrackerWeek>,
    order: seq<string>,          // the rows' keys, as the map holds them
    rows: map<string, Row>,
    shown: seq<string>,
    figures: map<string, Figures>,
    instructors: nat,
    formerInstructors: nat,
    daysLogged: nat,
    totalWorkingHours: real,
    capacityHours: real,
    recordedHoursPct: Option<real>)

  /** Every row's figures are published, a percentage only for the rows shown. */
  ghost predicate Published(
      order: seq<string>, rows: map<string, Row>, shown: seq<string>, figures: map<string, Figures>)
  {
    && (forall id :: id in figures <==> id in order)
    && forall id :: id in figures ==> id in rows && figures[id] == FiguresOf(rows[id], id in shown)
  }

  lemma NonePublished(rows: map<string, Row>)
    ensures Published([], rows, [], map[])
  {
  }

  lemma PublishHours(order: seq<string>, rows: map<string, Row>, id: string, figures: map<string, Figures>)
    requires Published(order, rows, [], figures) && id in rows
    ensures Published(order + [id], rows, [], figures[id := FiguresOf(rows[id], false)])
  {
    hide FiguresOf;
    forall x ensures x in order + [id] <==> x in order || x == id {
      InOneMore(x, order, id);
    }
  }

  lemma PublishPercent(order: seq<string>, rows: map<string, Row>, shown: seq<string>, id: string,
                       figures: map<string, Figures>)
    requires Published(order, rows, shown, figures) && id in figures
    ensures var f := figures[id];
      Published(order, rows, shown + [id],
                figures[id := f.(recordedHoursPct := Percent(f.totalWorkingHours, rows[id].capacityHours))])
  {
    hide Round2, ToHours, Percent;
    forall x ensures x in shown + [id] <==> x in shown || x == id {
      InOneMore(x, shown, id);
    }
  }

  method Publish(order: seq<string>, rows: map<string, Row>, shown: seq<string>)
    returns (figures: map<string, Figures>)
    requires forall k :: 0 <= k < |order| ==> order[k] in rows
    requires forall k :: 0 <= k < |shown| ==> shown[k] in order
    ensures Published(order, rows, shown, figures)
  {
    hide Published, Percent;
    figures := map[];
    NonePublished(rows);
    for i := 0 to |order|
      invariant Published(order[..i], rows, [], figures)
    {
      PublishHours(order[..i], rows, order[i], figures);
      assert order[..i] + [order[i]] == order[..i + 1];
      figures := figures[order[i] := FiguresOf(rows[order[i]], false)];
    }
    assert order[..|order|] == order && shown[..0] == [];
    for i := 0 to |shown|
      invariant Published(order, rows, shown[..i], figures)
    {
      ShownIsPublished(order, rows, shown[..i], figures, shown[i]);
      PublishPercent(order, rows, shown[..i], shown[i], figures);
      assert shown[..i] + [shown[i]] == shown[..i + 1];
      var f := figures[shown[i]];
      var percent := Percent(f.totalWorkingHours, rows[shown[i]].capacityHours);
      figures := figures[shown[i] := f.(recordedHoursPct := percent)];
    }
    assert shown[..|shown|] == shown;
  }

  lemma ShownIsPublished(order: seq<string>, rows: map<string, Row>, shown: seq<string>,
                         figures: map<string, Figures>, id: string)
    requires Published(order, rows, shown, figures) && id in order
    ensures id in figures && id in rows
  {
  }

  predicate ListedActive(weekly: seq<seq<Breakdown>>, id: string) {
    Listings(weekly, id) != [] && Listings(weekly, id)[0].breakdown.isActive
  }

  /** Days an instructor filed in the span of the grid. */
  function DaysFiled(t: TrackerResult, entries: seq<WorklogEntry>, id: string): nat
    requires t.weeks != []
  {
    Recorded(entries, id, t.weeks[0].from, t.weeks[|t.weeks| - 1].end).days
  }

  /** Shown are the active, and of the former staff those who filed a day in the span. */
  ghost predicate CountsHold(t: TrackerResult, weekly: seq<seq<Breakdown>>, entries: seq<WorklogEntry>)
    requires t.weeks != []
  {
    && (forall id :: id in t.shown <==> id in t.order && (ListedActive(weekly, id) || DaysFiled(t, entries, id) > 0))
    && t.instructors == |Elements(t.shown)|
    && t.formerInstructors
       == |set id | id in t.order && !ListedActive(weekly, id) && DaysFiled(t, entries, id) > 0|
  }

  /** One row for each instructor listed, active as first listed, adding up both ways. */
  ghost predicate RowsAddUpBothWays(t: TrackerResult, weekly: seq<seq<Breakdown>>, entries: seq<WorklogEntry>) {
    && t.weeks != []
    && Distinct(t.order)
    && (forall id :: id in t.order <==> Listings(weekly, id) != [])
    && (forall id :: id in t.rows <==> id in t.order)
    && forall id :: id in t.rows ==>
      && t.rows[id].isActive == ListedActive(weekly, id)
      && t.rows[id].capacityHours == Running(Capacities(Listings(weekly, id)))
      && Holds(t.rows[id], id, t.weeks, entries)
      && Tally(t.rows[id].daysLogged, t.rows[id].totalMinutes) == SumOfCells(t.rows[id], |t.weeks|)
  }

  /** The published totals against what the listed instructors recorded in the span, and their capacity. */
  ghost predicate TotalsHold(t: TrackerResult, weekly: seq<seq<Breakdown>>, entries: seq<WorklogEntry>)
    requires t.weeks != []
  {
    var exact := RecordedByAll(entries, t.order, t.weeks[0].from, t.weeks[|t.weeks| - 1].end);
    var off := t.totalWorkingHours - ToHours(exact.minutes);
    && t.daysLogged == exact.days
    && IsShare(t.recordedHoursPct, t.totalWorkingHours, t.capacityHours)
    && -0.005 * (|t.shown| + 1) as real <= off <= 0.005 * (|t.shown| + 1) as real
    && (AllHundredths(weekly) ==> t.capacityHours == ListedCapacity(t.shown, weekly))
  }

  /** The engine's answer for each week of the span. */
  predicate OnePerWeek(weekly: seq<seq<Breakdown>>, from: string, to: string)
    requires IsDate(from) && IsDate(to)
  {
    |weekly| == TurnsPast(Monday(DayOf(from)), DayOf(to))
  }

  /**
   * `buildTracker`, given what the engine says of each week. There is none if the
   * span ends before its first week: the source throws on `weeks[0]`. Where
   * `WalksInTime` does not hold it hangs.
   */
  method BuildTracker(from: string, to: string, today: string,
                      weekly: seq<seq<Breakdown>>, entries: seq<WorklogEntry>)
    returns (result: Option<TrackerResult>)
    requires WalksInTime(from, to) && IsDate(today) && OnePerWeek(weekly, from, to)
    requires forall i :: 0 <= i < |entries| ==> IsDate(entries[i].date)
    ensures result.None? <==> DayOf(to) < Monday(DayOf(from))
    ensures result.Some? ==>
      var t := result.value;
      && Span(Monday(DayOf(from)), t.weeks, today)
      && RowsAddUpBothWays(t, weekly, entries)
      && (forall k :: 0 <= k < |t.order| ==> t.order[k] in t.rows)
      && Published(t.order, t.rows, t.shown, t.figures)
      && CountsHold(t, weekly, entries)
      && TotalsHold(t, weekly, entries)
  {
    hide IsDate, DayOf, SinceMonday, WeeksFrom, Recorded, RecordedByAll, PublishedTotal, Holds, ToHours, Listings,
         SeedOf, Seeded, Filled, RowsAddUpBothWays, EndsInTime, Within, TotalsHold, CountsHold, Visible, Published,
         Percent, Round2;
    var weeks := WeeksBetween(from, to, today);
    ghost var m := Monday(DayOf(from));
    if |weeks| == 0 { return None; }
    forall k | 0 <= k < |weeks| ensures weeks[k].index == k + 1 {
      IndexOf(m, weeks, today, k);
    }
    var order, seeds := Seed(weeks, weekly);
    forall id | id in seeds ensures IsBlank(seeds[id]) {
      SeedsAreBlank(seeds, weekly, order, id);
    }
    var rows := Fill(m, weeks, today, seeds, entries);
    RowsFromSeeds(m, weeks, today, weekly, entries, order, seeds, rows);
    var shown := Visible(order, rows);
    var figures := Publish(order, rows, shown);
    HoursPublished(order, rows, shown, figures);
    var totalWorkingHours := Round2(Sum(RowHours(shown, figures)));
    var capacityHours := Round2(Sum(CapacityOfRows(shown, rows)));
    var t := TrackerResult(weeks, order, rows, shown, figures, |shown|, |Former(shown, rows)|,
                           SumOfRows(shown, rows).days, totalWorkingHours, capacityHours,
                           Percent(totalWorkingHours, capacityHours));
    WholeGrid(m, t, today, weekly, entries, seeds);
    result := Some(t);
  }

  lemma RowsFromSeeds(m: int, weeks: seq<TrackerWeek>, today: string, weekly: seq<seq<Breakdown>>,
                      entries: seq<WorklogEntry>, order: seq<string>, seeds: map<string, Row>, rows: map<string, Row>)
    requires Span(m, weeks, today) && Seeded(weekly, order, seeds) && Filled(rows, seeds, weeks, entries)
    ensures forall k :: 0 <= k < |order| ==> order[k] in rows
  {
    hide WeeksFrom, Listings, SeedOf, Holds;
    assert forall k :: 0 <= k < |order| ==> order[k] in seeds;
  }

  lemma WholeGrid(m: int, t: TrackerResult, today: string, weekly: seq<seq<Breakdown>>,
                  entries: seq<WorklogEntry>, seeds: map<string, Row>)
    requires Span(m, t.weeks, today) && Seeded(weekly, t.order, seeds) && Filled(t.rows, seeds, t.weeks, entries)
    requires forall i :: 0 <= i < |entries| ==> IsDate(entries[i].date)
    requires forall k :: 0 <= k < |t.order| ==> t.order[k] in t.rows
    requires t.shown == Visible(t.order, t.rows)
    requires t.daysLogged == SumOfRows(t.shown, t.rows).days
    requires t.totalWorkingHours == PublishedTotal(HoursOf(t.shown, t.rows))
    requires t.capacityHours == Round2(Sum(CapacityOfRows(t.shown, t.rows)))
    requires t.recordedHoursPct == Percent(t.totalWorkingHours, t.capacityHours)
    requires t.instructors == |t.shown| && t.formerInstructors == |Former(t.shown, t.rows)|
    ensures RowsAddUpBothWays(t, weekly, entries) && TotalsHold(t, weekly, entries) && CountsHold(t, weekly, entries)
  {
    hide WeeksFrom, IsDate, Recorded, RecordedByAll, PublishedTotal, Holds, ToHours, Listings, Visible, SumOfRows,
         Round2, Running, Capacities, SumOfCells, HoursOf, CapacityOfRows, SeedOf, TotalsHold, CountsHold, Former,
         Percent;
    assert forall id :: id in t.rows <==> id in seeds;
    forall id | id in t.rows
      ensures Tally(t.rows[id].daysLogged, t.rows[id].totalMinutes) == SumOfCells(t.rows[id], |t.weeks|)
      ensures Tally(t.rows[id].daysLogged, t.rows[id].totalMinutes)
           == Recorded(entries, id, t.weeks[0].from, t.weeks[|t.weeks| - 1].end)
      ensures t.rows[id].isActive == ListedActive(weekly, id)
      ensures t.rows[id].capacityHours == Running(Capacities(Listings(weekly, id)))
    {
      RowsAddUp(m, t.weeks, today, t.rows[id], id, entries);
      SeedMeans(Listings(weekly, id));
    }
    WholeTotals(t, weekly, entries);
    WholeCounts(t, weekly, entries);
  }

  lemma HoursPublished(order: seq<string>, rows: map<string, Row>, shown: seq<string>, figures: map<string, Figures>)
    requires Published(order, rows, shown, figures) && forall k :: 0 <= k < |order| ==> order[k] in rows
    requires shown == Visible(order, rows)
    ensures forall k :: 0 <= k < |shown| ==> shown[k] in figures
    ensures Round2(Sum(RowHours(shown, figures))) == PublishedTotal(HoursOf(shown, rows))
  {
    hide Round2, ToHours, Sum, RowHours, HoursOf, Visible;
    RowHoursAreRounded(shown, rows, figures);
  }

  lemma WholeCounts(t: TrackerResult, weekly: seq<seq<Breakdown>>, entries: seq<WorklogEntry>)
    requires t.weeks != [] && Distinct(t.order) && forall k :: 0 <= k < |t.order| ==> t.order[k] in t.rows
    requires forall id :: id in t.rows ==>
      && t.rows[id].isActive == ListedActive(weekly, id)
      && t.rows[id].daysLogged == DaysFiled(t, entries, id)
    requires t.shown == Visible(t.order, t.rows)
    requires t.instructors == |t.shown| && t.formerInstructors == |Former(t.shown, t.rows)|
    ensures CountsHold(t, weekly, entries)
  {
    hide DaysFiled, Listings, Visible, Former;
    var former := Former(t.shown, t.rows);
    forall id ensures id in t.shown <==> id in t.order && (ListedActive(weekly, id) || DaysFiled(t, entries, id) > 0) {
      VisibleMeans(t.order, t.rows, id);
    }
    VisibleMeans(t.order, t.rows, "");
    forall id ensures id in former <==> id in t.order && !ListedActive(weekly, id) && DaysFiled(t, entries, id) > 0 {
      FormerMeans(t.shown, t.rows, id);
    }
    FormerMeans(t.shown, t.rows, "");
    DistinctSize(t.shown);
    DistinctSize(former);
    assert Elements(former) == set id | id in t.order && !ListedActive(weekly, id) && DaysFiled(t, entries, id) > 0;
  }

  lemma SeedMeans(ls: seq<Listing>)
    requires ls != []
    ensures SeedOf(ls).isActive == ls[0].breakdown.isActive && SeedOf(ls).capacityHours == Running(Capacities(ls))
  {
  }

  lemma WholeTotals(t: TrackerResult, weekly: seq<seq<Breakdown>>, entries: seq<WorklogEntry>)
    requires t.weeks != [] && Distinct(t.order) && forall k :: 0 <= k < |t.order| ==> t.order[k] in t.rows
    requires forall id :: id in t.rows ==>
      && Tally(t.rows[id].daysLogged, t.rows[id].totalMinutes)
         == Recorded(entries, id, t.weeks[0].from, t.weeks[|t.weeks| - 1].end)
      && t.rows[id].capacityHours == Running(Capacities(Listings(weekly, id)))
    requires t.shown == Visible(t.order, t.rows)
    requires t.daysLogged == SumOfRows(t.shown, t.rows).days
    requires t.totalWorkingHours == PublishedTotal(HoursOf(t.shown, t.rows))
    requires t.capacityHours == Round2(Sum(CapacityOfRows(t.shown, t.rows)))
    requires t.recordedHoursPct == Percent(t.totalWorkingHours, t.capacityHours)
    ensures TotalsHold(t, weekly, entries)
  {
    hide Recorded, RecordedByAll, PublishedTotal, ToHours, Listings, Visible, SumOfRows, Round2, AllHundredths,
         Running, Capacities, Distinct, Percent, HoursOf, CapacityOfRows, RowCapacities, ListedCapacity, Sum, IsShare;
    PercentMeans(t.totalWorkingHours, t.capacityHours);
    TotalsAreClose(t.order, t.rows, entries, t.weeks[0].from, t.weeks[|t.weeks| - 1].end);
    RowsHoldCapacities(t.shown, t.rows, weekly);
    CapacityIsClose(t.shown, weekly);
  }

  lemma SeedsAreBlank(seeds: map<string, Row>, weekly: seq<seq<Breakdown>>, order: seq<string>, id: string)
    requires Seeded(weekly, order, seeds) && id in seeds
    ensures IsBlank(seeds[id])
  {
  }
}
