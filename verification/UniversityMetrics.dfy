/** What the stored university rows are sums of, over any sequence of roll-ups. */
module UniversityMetrics {
  import opened Seqs
  import opened Hours
  import opened DayAccounting
  import opened MetricTables

  const NO_TABLES := State(map[], map[], map[])

  /** The rows of the last call that had a university's date to write. */
  function LastEntries(calls: seq<Call>, u: string, date: int): seq<Entry> {
    if calls == [] then []
    else
      var c := calls[|calls| - 1];
      var entries := Entries(c.u, c.instructors);
      if c.u == u && date in Dates(entries) then entries else LastEntries(calls[..|calls| - 1], u, date)
  }

  /** The figures of a stored university row are the sums over the rows that its last call pushed for the date. */
  lemma UniversityFigures(calls: seq<Call>, u: string, date: int)
    ensures var stored := RollAll(NO_TABLES, calls).university;
      var days := DaysOn(LastEntries(calls, u, date), date);
      && ((u, date) in stored <==> days != [])
      && ((u, date) in stored ==>
            && AddsUp(stored[(u, date)].sums, days)
            && stored[(u, date)].recordedHoursPercent
               == Percent(TotalIn(Productive, days) as real, TotalIn(Capacity, days) as real))
  {
    hide RollAll, LastEntries, SumOn, DaysOn, TotalIn, Percent;
    UniversityRowIsLast(calls, u, date);
    SumOnAddsUp(LastEntries(calls, u, date), date);
    WhoseDate(LastEntries(calls, u, date), date);
  }

  lemma {:induction false} WhoseDate(entries: seq<Entry>, date: int)
    ensures date in Dates(entries) <==> DaysOn(entries, date) != []
  {
    if entries == [] {
    } else {
      WhoseDate(entries[..|entries| - 1], date);
    }
  }

  lemma {:induction false} UniversityRowIsLast(calls: seq<Call>, u: string, date: int)
    ensures var stored := RollAll(NO_TABLES, calls).university;
      var entries := LastEntries(calls, u, date);
      && ((u, date) in stored <==> date in Dates(entries))
      && ((u, date) in stored ==> stored[(u, date)] == Metric(SumOn(entries, date)))
  {
    hide Entries, Dates, SumOn, Metric, Upserted, WithWeeks;
    if calls == [] {
      assert Dates([]) == {} by { NoDates(); }
    } else {
      UniversityRowIsLast(calls[..|calls| - 1], u, date);
    }
  }

  lemma NoDates()
    ensures Dates([]) == {}
  {
  }

  // -------------------------------------------------------------- against the daily rows

  lemma {:induction false} WrittenIsStored(daily: map<Key, DailyRow>, entries: seq<Entry>, k: Key)
    ensures var after := Upserted(daily, entries);
      if k in Written(entries)
      then k in after && exists i :: 0 <= i < |entries| && entries[i] == Entry(k, after[k])
      else SameAt(after, daily, k)
  {
    if entries == [] {
    } else {
      var n := |entries| - 1;
      WrittenIsStored(daily, entries[..n], k);
      assert forall i :: 0 <= i < n ==> entries[..n][i] == entries[i];
      assert entries[n] == Entry(entries[n].key, entries[n].row);
    }
  }

  lemma {:induction false} WrittenMeans(entries: seq<Entry>, k: Key)
    ensures k in Written(entries) <==> exists i :: 0 <= i < |entries| && entries[i].key == k
    ensures k in Written(entries) ==> k.1 in Dates(entries)
  {
    if entries == [] {
    } else {
      var n := |entries| - 1;
      WrittenMeans(entries[..n], k);
      assert forall i :: 0 <= i < n ==> entries[..n][i] == entries[i];
    }
  }

  /** Each row of the entries is the one stored under its key. */
  predicate AllStored(entries: seq<Entry>, daily: map<Key, DailyRow>, u: string, date: int) {
    forall k :: k in Written(entries) && k.1 == date ==>
      k in daily && daily[k].university == u && StoredUnder(entries, daily, k)
  }

  predicate StoredUnder(entries: seq<Entry>, daily: map<Key, DailyRow>, k: Key)
    requires k in daily
  {
    exists i :: 0 <= i < |entries| && entries[i] == Entry(k, daily[k])
  }

  /** The rows of the last call for a date are stored as it wrote them. */
  lemma {:induction false} LastEntriesAreStored(calls: seq<Call>, home: map<string, string>, u: string, date: int)
    requires forall i :: 0 <= i < |calls| ==> Proper(calls[i], home)
    ensures AllStored(LastEntries(calls, u, date), RollAll(NO_TABLES, calls).daily, u, date)
    ensures forall k :: k in LastKeys(calls, u, date) ==> k.0 in home && home[k.0] == u
  {
    hide Entries, Dates, Proper, WithWeeks, WithDays, Tally, StoredUnder;
    if calls == [] {
    } else {
      var n := |calls| - 1;
      var c, before := calls[n], RollAll(NO_TABLES, calls[..n]);
      var entries, last := Entries(c.u, c.instructors), LastEntries(calls[..n], u, date);
      LastEntriesAreStored(calls[..n], home, u, date);
      FitFromProper(c, home);
      forall k | k in LastKeys(calls, u, date)
        ensures k.0 in home && home[k.0] == u
        ensures k in Upserted(before.daily, entries) && Upserted(before.daily, entries)[k].university == u
        ensures StoredUnder(LastEntries(calls, u, date), Upserted(before.daily, entries), k)
      {
        OneLastKey(before.daily, entries, last, c, home, u, date, k);
      }
    }
  }

  /** The keys of the last call's rows for the date. */
  function LastKeys(calls: seq<Call>, u: string, date: int): set<Key> {
    set k | k in Written(LastEntries(calls, u, date)) && k.1 == date
  }

  lemma FitFromProper(c: Call, home: map<string, string>)
    requires Proper(c, home)
    ensures AllFit(Entries(c.u, c.instructors), c, home)
  {
    EntriesFit(c, home, c.instructors);
  }

  lemma OneLastKey(daily: map<Key, DailyRow>, entries: seq<Entry>, before: seq<Entry>, c: Call,
                   home: map<string, string>, u: string, date: int, k: Key)
    requires AllFit(entries, c, home) && AllStored(before, daily, u, date) && k.1 == date
    requires k in Written(before) ==> k.0 in home && home[k.0] == u
    requires k in Written(if c.u == u && date in Dates(entries) then entries else before)
    ensures var last := if c.u == u && date in Dates(entries) then entries else before;
      var after := Upserted(daily, entries);
      && k.0 in home && home[k.0] == u
      && k in after && after[k].university == u && StoredUnder(last, after, k)
  {
    hide Upserted, Dates;
    WrittenIsStored(daily, entries, k);
    WrittenMeans(entries, k);
    WrittenFits(entries, c, home, k);
    if c.u == u && date in Dates(entries) {
      var i :| 0 <= i < |entries| && entries[i] == Entry(k, Upserted(daily, entries)[k]);
      assert Fits(entries[i], c, home);
    } else {
      assert k !in Written(entries);
      assert StoredUnder(before, daily, k);
    }
  }

  lemma WrittenFits(entries: seq<Entry>, c: Call, home: map<string, string>, k: Key)
    requires AllFit(entries, c, home)
    ensures k in Written(entries) ==> k.0 in home && home[k.0] == c.u
  {
    WrittenMeans(entries, k);
    if i :| 0 <= i < |entries| && entries[i].key == k {
      assert Fits(entries[i], c, home);
    }
  }

  /** The stored daily rows of some keys added up. */
  function SumRows(daily: map<Key, DailyRow>, ks: seq<Key>): UniversityRow
    requires forall i :: 0 <= i < |ks| ==> ks[i] in daily
  {
    if ks == [] then NO_ROWS else AddRow(SumRows(daily, ks[..|ks| - 1]), daily[ks[|ks| - 1]].minutes)
  }

  lemma SumRowsNext(daily: map<Key, DailyRow>, ks: seq<Key>, k: Key)
    requires k in daily && forall i :: 0 <= i < |ks| ==> ks[i] in daily
    ensures forall i :: 0 <= i <= |ks| ==> (ks + [k])[i] in daily
    ensures SumRows(daily, ks + [k]) == AddRow(SumRows(daily, ks), daily[k].minutes)
  {
    hide AddRow;
    assert (ks + [k])[..|ks|] == ks;
  }

  /** The stored days of some keys. */
  function DaysOf(daily: map<Key, DailyRow>, ks: seq<Key>): seq<Stored>
    requires forall i :: 0 <= i < |ks| ==> ks[i] in daily
  {
    if ks == [] then [] else DaysOf(daily, ks[..|ks| - 1]) + [daily[ks[|ks| - 1]].minutes]
  }

  /** Their sum is the sum of each figure. */
  lemma {:induction false} SumRowsAddsUp(daily: map<Key, DailyRow>, ks: seq<Key>)
    requires forall i :: 0 <= i < |ks| ==> ks[i] in daily
    ensures AddsUp(SumRows(daily, ks), DaysOf(daily, ks))
  {
    if ks == [] {
    } else {
      hide *;
      var n := |ks| - 1;
      SumRowsAddsUp(daily, ks[..n]);
      SumRowsNext(daily, ks[..n], ks[n]);
      DaysOfNext(daily, ks[..n], ks[n]);
      AddsUpNext(SumRows(daily, ks[..n]), DaysOf(daily, ks[..n]), daily[ks[n]].minutes);
      assert ks == ks[..n] + [ks[n]];
    }
  }

  lemma DaysOfNext(daily: map<Key, DailyRow>, ks: seq<Key>, k: Key)
    requires k in daily && forall i :: 0 <= i < |ks| ==> ks[i] in daily
    ensures forall i :: 0 <= i <= |ks| ==> (ks + [k])[i] in daily
    ensures DaysOf(daily, ks + [k]) == DaysOf(daily, ks) + [daily[k].minutes]
  {
    assert (ks + [k])[..|ks|] == ks;
  }

  lemma {:induction false} CountsRows(daily: map<Key, DailyRow>, ks: seq<Key>)
    requires forall i :: 0 <= i < |ks| ==> ks[i] in daily
    ensures SumRows(daily, ks).activeInstructors == |ks|
  {
    if ks == [] {
    } else {
      CountsRows(daily, ks[..|ks| - 1]);
    }
  }

  /** A row may be added last instead. */
  lemma {:induction false} AddLast(daily: map<Key, DailyRow>, x: seq<Key>, k: Key, y: seq<Key>)
    requires forall i :: 0 <= i < |x + [k] + y| ==> (x + [k] + y)[i] in daily
    requires forall i :: 0 <= i < |x + y| ==> (x + y)[i] in daily
    requires k in daily
    ensures SumRows(daily, x + [k] + y) == AddRow(SumRows(daily, x + y), daily[k].minutes)
    decreases |y|
  {
    hide AddRow;
    if y == [] {
      assert x + [k] + y == x + [k] && x + y == x;
      assert (x + [k])[..|x|] == x;
    } else {
      var n := |y| - 1;
      var all, fewer := x + [k] + y, x + y;
      assert all[..|all| - 1] == x + [k] + y[..n] && fewer[..|fewer| - 1] == x + y[..n];
      assert forall i :: 0 <= i < |x + y[..n]| ==> (x + y[..n])[i] == fewer[i];
      assert forall i :: 0 <= i < |x + [k] + y[..n]| ==> (x + [k] + y[..n])[i] == all[i];
      assert y[n] == all[|all| - 1] == fewer[|fewer| - 1];
      AddLast(daily, x, k, y[..n]);
      AddTwo(SumRows(daily, x + y[..n]), daily[k].minutes, daily[y[n]].minutes);
    }
  }

  lemma AddTwo(b: UniversityRow, m: Stored, n: Stored)
    ensures AddRow(AddRow(b, m), n) == AddRow(AddRow(b, n), m)
  {
  }

  lemma {:induction false} OrderOfRows(daily: map<Key, DailyRow>, a: seq<Key>, b: seq<Key>)
    requires multiset(a) == multiset(b)
    requires forall i :: 0 <= i < |a| ==> a[i] in daily
    requires forall i :: 0 <= i < |b| ==> b[i] in daily
    ensures SumRows(daily, a) == SumRows(daily, b)
    decreases |a|
  {
    hide AddRow;
    if a == [] {
      assert |multiset(b)| == 0;
    } else {
      var x, y := TakeLastOut(a, b);
      var k := a[|a| - 1];
      forall i | 0 <= i < |x + y| ensures (x + y)[i] in daily {
        assert (x + y)[i] == b[if i < |x| then i else i + 1];
      }
      OrderOfRows(daily, a[..|a| - 1], x + y);
      AddLast(daily, x, k, y);
    }
  }

  /** The keys of a date's rows, in the order they were pushed. */
  function KeysOn(entries: seq<Entry>, date: int): seq<Key> {
    if entries == [] then []
    else
      var n := |entries| - 1;
      KeysOn(entries[..n], date) + if entries[n].key.1 == date then [entries[n].key] else []
  }

  /** Each instructor's day is pushed once: the engine lists an instructor, and a date, once. */
  predicate OncePerDay(entries: seq<Entry>) {
    forall i, j :: 0 <= i < j < |entries| ==> entries[i].key != entries[j].key
  }

  lemma {:induction false} KeysOnAreWritten(entries: seq<Entry>, date: int)
    requires OncePerDay(entries)
    ensures Distinct(KeysOn(entries, date))
    ensures forall k :: k in KeysOn(entries, date) <==> k in Written(entries) && k.1 == date
  {
    if entries == [] {
    } else {
      var n := |entries| - 1;
      var before, k := KeysOn(entries[..n], date), entries[n].key;
      KeysOnAreWritten(entries[..n], date);
      WrittenMeans(entries[..n], k);
      assert k !in before;
      forall x ensures x in before + [k] <==> x in before || x == k {
        InOneMore(x, before, k);
      }
    }
  }

  lemma {:induction false} SumOnIsSumRows(entries: seq<Entry>, date: int, daily: map<Key, DailyRow>)
    requires forall i :: 0 <= i < |entries| && entries[i].key.1 == date ==>
      entries[i].key in daily && daily[entries[i].key] == entries[i].row
    ensures forall i :: 0 <= i < |KeysOn(entries, date)| ==> KeysOn(entries, date)[i] in daily
    ensures SumOn(entries, date) == SumRows(daily, KeysOn(entries, date))
  {
    hide AddRow;
    if entries == [] {
    } else {
      var n := |entries| - 1;
      var before, k := KeysOn(entries[..n], date), entries[n].key;
      SumOnIsSumRows(entries[..n], date, daily);
      if k.1 == date {
        SumRowsNext(daily, before, k);
      } else {
        assert before + [] == before;
      }
    }
  }

  /** `ks` lists the stored daily rows of a university's date, each once. */
  ghost predicate ListsDay(ks: seq<Key>, daily: map<Key, DailyRow>, u: string, date: int) {
    && Distinct(ks)
    && (forall i :: 0 <= i < |ks| ==> ks[i] in daily)
    && (forall k :: k in ks <==> k in daily && daily[k].university == u && k.1 == date)
  }

  predicate AllWritten(ks: seq<Key>, entries: seq<Entry>) {
    forall k :: k in ks ==> k in Written(entries)
  }

  /** The call's rows for a date against all that are stored for it. */
  lemma SumIsComplete(entries: seq<Entry>, daily: map<Key, DailyRow>, u: string, date: int, ks: seq<Key>)
    requires OncePerDay(entries) && AllStored(entries, daily, u, date) && ListsDay(ks, daily, u, date)
    ensures SumOn(entries, date) == SumRows(daily, ks) <==> AllWritten(ks, entries)
  {
    hide AddRow, SumOn, SumRows, Distinct, StoredUnder;
    var mine := KeysOn(entries, date);
    KeysOnAreWritten(entries, date);
    forall i | 0 <= i < |entries| && entries[i].key.1 == date
      ensures entries[i].key in daily && daily[entries[i].key] == entries[i].row
    {
      StoredAsPushed(entries, daily, u, date, i);
    }
    SumOnIsSumRows(entries, date, daily);
    forall k | k in mine ensures k in ks {
      assert k in Written(entries);
    }
    if AllWritten(ks, entries) {
      SameElements(mine, ks);
      OrderOfRows(daily, mine, ks);
    } else {
      var k :| k in ks && k !in Written(entries);
      FewerElements(mine, ks, k);
      CountsRows(daily, mine);
      CountsRows(daily, ks);
    }
  }

  lemma StoredAsPushed(entries: seq<Entry>, daily: map<Key, DailyRow>, u: string, date: int, i: nat)
    requires OncePerDay(entries) && AllStored(entries, daily, u, date)
    requires i < |entries| && entries[i].key.1 == date
    ensures entries[i].key in daily && daily[entries[i].key] == entries[i].row
  {
    var k := entries[i].key;
    WrittenMeans(entries, k);
    assert StoredUnder(entries, daily, k);
    var j :| 0 <= j < |entries| && entries[j] == Entry(k, daily[k]);
    assert i == j;
  }

  /**
   * After any sequence of completed roll-ups a stored university row is the sum
   * of the stored daily rows of its date if and only if the last call that wrote
   * it listed everybody who has one. A later call that lists fewer instructors
   * leaves the daily rows of the others behind.
   */
  lemma WhenUniversityAddsUp(calls: seq<Call>, home: map<string, string>, u: string, date: int, ks: seq<Key>)
    requires forall i :: 0 <= i < |calls| ==> Proper(calls[i], home)
    requires forall i :: 0 <= i < |calls| ==> OncePerDay(Entries(calls[i].u, calls[i].instructors))
    requires (u, date) in RollAll(NO_TABLES, calls).university
    requires ListsDay(ks, RollAll(NO_TABLES, calls).daily, u, date)
    ensures var s := RollAll(NO_TABLES, calls);
      s.university[(u, date)].sums == SumRows(s.daily, ks) <==> AllWritten(ks, LastEntries(calls, u, date))
  {
    hide RollAll, Entries, OncePerDay, AllStored, ListsDay, SumOn, SumRows, LastEntries, Written, Proper;
    var entries := LastEntries(calls, u, date);
    UniversityRowIsLast(calls, u, date);
    LastEntriesAreStored(calls, home, u, date);
    LastIsOncePerDay(calls, u, date);
    SumIsComplete(entries, RollAll(NO_TABLES, calls).daily, u, date, ks);
  }

  lemma {:induction false} LastIsOncePerDay(calls: seq<Call>, u: string, date: int)
    requires forall i :: 0 <= i < |calls| ==> OncePerDay(Entries(calls[i].u, calls[i].instructors))
    ensures OncePerDay(LastEntries(calls, u, date))
  {
    hide Entries, Dates;
    if calls == [] {
    } else {
      LastIsOncePerDay(calls[..|calls| - 1], u, date);
    }
  }

  // ------------------------------------------------------------------ the active columns

  /** A breakdown that the engine's day loop makes of some day. */
  ghost predicate IsAccounted(row: DayBreakdown) {
    exists d, breakMin :: Accounts(row, d, breakMin)
  }

  ghost predicate FromEngine(instructors: seq<Instructor>) {
    forall i, j :: 0 <= i < |instructors| && 0 <= j < |instructors[i].days| ==> IsAccounted(instructors[i].days[j])
  }

  predicate NoneNegative(entries: seq<Entry>) {
    forall k :: 0 <= k < |entries| ==> entries[k].row.minutes.productive >= 0
  }

  lemma AccountedIsNotNegative(row: DayBreakdown)
    requires IsAccounted(row)
    ensures Store(row).productive >= 0
  {
    var d, breakMin :| Accounts(row, d, breakMin);
    StoredMinutesBalance(row, d, breakMin);
  }

  lemma {:induction false} DaysAreNotNegative(u: string, id: string, days: seq<DayBreakdown>)
    requires forall j :: 0 <= j < |days| ==> IsAccounted(days[j])
    ensures NoneNegative(EntriesOf(u, id, days))
    decreases |days|
  {
    hide Store, IsAccounted;
    if days == [] {
    } else {
      DaysAreNotNegative(u, id, days[..|days| - 1]);
      AccountedIsNotNegative(days[|days| - 1]);
    }
  }

  /** Rows made of the engine's breakdowns have no negative minutes. */
  lemma {:induction false} EngineRowsAreNotNegative(u: string, instructors: seq<Instructor>)
    requires FromEngine(instructors)
    ensures NoneNegative(Entries(u, instructors))
    decreases |instructors|
  {
    hide Store, IsAccounted;
    if instructors == [] {
    } else {
      var n := |instructors| - 1;
      assert forall i :: 0 <= i < n ==> instructors[..n][i] == instructors[i];
      EngineRowsAreNotNegative(u, instructors[..n]);
      DaysAreNotNegative(u, instructors[n].id, instructors[n].days);
    }
  }

  /** A date's rows for which somebody has positive minutes. */
  predicate SomeActive(entries: seq<Entry>, date: int) {
    exists k :: 0 <= k < |entries| && entries[k].key.1 == date && entries[k].row.minutes.productive > 0
  }

  /** The active column equals the productive one: leaving out the idle loses no minute. */
  lemma {:induction false} ActiveMinutesAreAll(entries: seq<Entry>, date: int)
    requires NoneNegative(entries)
    ensures var sums := SumOn(entries, date);
      && sums.activeMinutes == sums.productive >= 0
      && (sums.activeCount > 0 <==> sums.activeMinutes > 0)
      && (sums.activeCount > 0 <==> SomeActive(entries, date))
  {
    if entries == [] {
    } else {
      var n := |entries| - 1;
      ActiveMinutesAreAll(entries[..n], date);
      assert forall k :: 0 <= k < n ==> entries[..n][k] == entries[k];
    }
  }

  /**
   * After any sequence of roll-ups of what the engine returns, in every stored
   * university row the active minutes are the productive ones, and somebody is
   * counted active exactly when there are any.
   */
  lemma StoredActiveMinutesAreAll(calls: seq<Call>, u: string, date: int)
    requires forall i :: 0 <= i < |calls| ==> FromEngine(calls[i].instructors)
    requires (u, date) in RollAll(NO_TABLES, calls).university
    ensures var sums := RollAll(NO_TABLES, calls).university[(u, date)].sums;
      sums.activeMinutes == sums.productive && (sums.activeCount > 0 <==> sums.activeMinutes > 0)
  {
    hide RollAll, FromEngine, SumOn, NoneNegative, LastEntries;
    UniversityRowIsLast(calls, u, date);
    LastIsNotNegative(calls, u, date);
    ActiveMinutesAreAll(LastEntries(calls, u, date), date);
  }

  lemma {:induction false} LastIsNotNegative(calls: seq<Call>, u: string, date: int)
    requires forall i :: 0 <= i < |calls| ==> FromEngine(calls[i].instructors)
    ensures NoneNegative(LastEntries(calls, u, date))
  {
    hide Entries, Dates, FromEngine;
    if calls == [] {
    } else {
      var c := calls[|calls| - 1];
      LastIsNotNegative(calls[..|calls| - 1], u, date);
      EngineRowsAreNotNegative(c.u, c.instructors);
    }
  }

  /** Two calls for the same day, the second without `b`: the row counts one instructor, and two have stored rows. */
  lemma AShorterListLeavesRowsBehind(day: DayBreakdown, calls: seq<Call>, ks: seq<Key>)
    requires calls == [Call("u", day.date, 1, [Instructor("a", [day]), Instructor("b", [day])]),
                       Call("u", day.date, 1, [Instructor("a", [day])])]
    requires ListsDay(ks, RollAll(NO_TABLES, calls).daily, "u", day.date)
    ensures var s := RollAll(NO_TABLES, calls);
      && ("u", day.date) in s.university
      && s.university[("u", day.date)].sums.activeInstructors == 1
      && SumRows(s.daily, ks).activeInstructors == 2
  {
    hide Store, Percent, WithWeeks, SumRows, Entries, Upserted, SumOn, Dates, RollAll, LastEntries, ListsDay, WithDays;
    var row := DailyRow("u", Store(day));
    var a, b := Entry(("a", day.date), row), Entry(("b", day.date), row);
    EntriesOfTwo("u", day);
    UniversityRowIsLast(calls, "u", day.date);
    OneEntry(a);
    LastOfTwo(calls, a, b);
    UpsertsOfTwo(a, b);
    TwoStored(RollAll(NO_TABLES, calls).daily, a, b, ks);
  }

  lemma {:induction false} LastOfTwo(calls: seq<Call>, a: Entry, b: Entry)
    requires |calls| == 2 && calls[0].u == calls[1].u == "u"
    requires Entries("u", calls[0].instructors) == [a, b] && Entries("u", calls[1].instructors) == [a]
    requires a.key.1 in Dates([a])
    ensures LastEntries(calls, "u", a.key.1) == [a]
    ensures RollAll(NO_TABLES, calls).daily == Upserted(Upserted(map[], [a, b]), [a])
  {
    hide Entries, Upserted, WithWeeks, WithDays, Dates;
    assert calls[..1] == [calls[0]] && [calls[0]][..0] == [];
    assert RollAll(NO_TABLES, calls[..1]) == Roll(NO_TABLES, calls[0]);
  }

  lemma TwoStored(daily: map<Key, DailyRow>, a: Entry, b: Entry, ks: seq<Key>)
    requires daily == map[a.key := a.row, b.key := b.row] && a.key != b.key && a.key.1 == b.key.1
    requires a.row.university == b.row.university == "u" && ListsDay(ks, daily, "u", a.key.1)
    ensures SumRows(daily, ks).activeInstructors == 2
  {
    var both := [a.key, b.key];
    CountsRows(daily, ks);
    assert forall k :: k in ks <==> k in both;
    assert Distinct(both);
    SameElements(ks, both);
    assert |multiset(ks)| == |ks| && |multiset(both)| == |both|;
  }

  lemma EntriesNext(u: string, instructors: seq<Instructor>, id: string, day: DayBreakdown)
    ensures Entries(u, instructors + [Instructor(id, [day])])
         == Entries(u, instructors) + [Entry((id, day.date), DailyRow(u, Store(day)))]
    ensures Entries(u, []) == []
  {
    hide Store;
    assert (instructors + [Instructor(id, [day])])[..|instructors|] == instructors;
    assert [day][..0] == [] && EntriesOf(u, id, []) == [];
    assert EntriesOf(u, id, [day]) == [] + [Entry((id, day.date), DailyRow(u, Store(day)))];
  }

  lemma EntriesOfTwo(u: string, day: DayBreakdown)
    ensures var row := DailyRow(u, Store(day));
      var a, b := Entry(("a", day.date), row), Entry(("b", day.date), row);
      && Entries(u, [Instructor("a", [day])]) == [a]
      && Entries(u, [Instructor("a", [day]), Instructor("b", [day])]) == [a, b]
  {
    hide Store, Entries;
    var one, two := Instructor("a", [day]), Instructor("b", [day]);
    EntriesNext(u, [], "a", day);
    EntriesNext(u, [one], "b", day);
    assert [] + [one] == [one] && [one] + [two] == [one, two];
  }

  lemma OneEntry(e: Entry)
    ensures Dates([e]) == {e.key.1} && SumOn([e], e.key.1) == AddRow(NO_ROWS, e.row.minutes)
  {
    assert [e][..0] == [];
    NoDates();
  }

  lemma UpsertsNext(daily: map<Key, DailyRow>, entries: seq<Entry>, e: Entry)
    ensures Upserted(daily, entries + [e]) == Upserted(daily, entries)[e.key := e.row]
    ensures Upserted(daily, []) == daily
  {
    assert (entries + [e])[..|entries|] == entries;
  }

  lemma UpsertsOfTwo(a: Entry, b: Entry)
    requires a.row == b.row
    ensures Upserted(Upserted(map[], [a, b]), [a]) == map[a.key := a.row, b.key := b.row]
  {
    hide Upserted;
    UpsertsNext(map[], [], a);
    UpsertsNext(map[], [a], b);
    assert [] + [a] == [a] && [a] + [b] == [a, b];
    var both := Upserted(map[], [a, b]);
    UpsertsNext(both, [], a);
    assert both[a.key := a.row] == map[a.key := a.row, b.key := b.row];
  }
}
