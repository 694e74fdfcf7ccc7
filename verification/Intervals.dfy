/**
 * Worked time as the union of intervals. Instants are whole milliseconds, and
 * an interval holds its start but not its end.
 */
module Intervals {

  datatype Interval = Interval(start: int, end: int)

  const MS_PER_HOUR: real := 3_600_000.0
  const MS_PER_MIN: int := 60_000

  // ----------------------------------------------------------- the measure of a union

  function Points(x: Interval): (ts: set<int>)
    ensures forall t :: t in ts <==> x.start <= t < x.end
    ensures x.start <= x.end ==> |ts| == x.end - x.start
    decreases x.end - x.start
  {
    if x.end <= x.start then {} else Points(Interval(x.start, x.end - 1)) + {x.end - 1}
  }

  /** The milliseconds that at least one interval covers. */
  function Covered(xs: seq<Interval>): set<int> {
    if xs == [] then {} else Points(xs[0]) + Covered(xs[1..])
  }

  predicate Ordered(xs: seq<Interval>) {
    forall i :: 0 <= i < |xs| ==> xs[i].start <= xs[i].end
  }

  predicate Positive(xs: seq<Interval>) {
    forall i :: 0 <= i < |xs| ==> xs[i].start < xs[i].end
  }

  /** The plain sum of the lengths, in milliseconds. */
  function Length(xs: seq<Interval>): int {
    if xs == [] then 0 else xs[0].end - xs[0].start + Length(xs[1..])
  }

  lemma {:induction false} CoveredMeans(xs: seq<Interval>, t: int)
    ensures t in Covered(xs) <==> exists i :: 0 <= i < |xs| && t in Points(xs[i])
  {
    hide Points;
    if xs == [] {
    } else {
      CoveredMeans(xs[1..], t);
      if t in Covered(xs[1..]) {
        var i :| 0 <= i < |xs| - 1 && t in Points(xs[1..][i]);
        assert t in Points(xs[i + 1]);
      }
      if i :| 0 < i < |xs| && t in Points(xs[i]) {
        assert t in Points(xs[1..][i - 1]);
      }
    }
  }

  /** Which intervals there are decides the union; their order and repetition do not. */
  lemma UnionIgnoresOrderAndRepetition(xs: seq<Interval>, ys: seq<Interval>)
    requires forall x :: x in xs <==> x in ys
    ensures Covered(xs) == Covered(ys)
  {
    hide Points;
    forall t ensures t in Covered(xs) <==> t in Covered(ys) {
      CoveredMeans(xs, t);
      CoveredMeans(ys, t);
      if t in Covered(xs) {
        var i :| 0 <= i < |xs| && t in Points(xs[i]);
        assert xs[i] in ys;
      }
      if t in Covered(ys) {
        var i :| 0 <= i < |ys| && t in Points(ys[i]);
        assert ys[i] in xs;
      }
    }
  }

  // ------------------------------------------------------------------ sorting by start

  /** Each starts no earlier than the one before it. */
  predicate Ascending(xs: seq<Interval>) {
    |xs| > 1 ==> xs[0].start <= xs[1].start && Ascending(xs[1..])
  }

  lemma {:induction false} AscendingAt(xs: seq<Interval>, i: nat)
    requires Ascending(xs) && 0 < i < |xs|
    ensures xs[i - 1].start <= xs[i].start
  {
    if i > 1 {
      AscendingAt(xs[1..], i - 1);
    }
  }

  function Insert(x: Interval, xs: seq<Interval>): (r: seq<Interval>)
    ensures |r| == |xs| + 1
  {
    if xs == [] || x.start <= xs[0].start then [x] + xs else [xs[0]] + Insert(x, xs[1..])
  }

  /** `[...xs].sort` by start: a stable sort. */
  function Sort(xs: seq<Interval>): (r: seq<Interval>)
    ensures |r| == |xs|
  {
    if xs == [] then [] else Insert(xs[0], Sort(xs[1..]))
  }

  lemma {:induction false} InsertKeeps(x: Interval, xs: seq<Interval>)
    ensures Ascending(xs) ==> Ascending(Insert(x, xs))
    ensures Length(Insert(x, xs)) == Length(xs) + x.end - x.start
    ensures forall y :: y in Insert(x, xs) <==> y == x || y in xs
  {
    if xs == [] || x.start <= xs[0].start {
      assert ([x] + xs)[1..] == xs;
    } else {
      InsertKeeps(x, xs[1..]);
      var r := Insert(x, xs[1..]);
      assert ([xs[0]] + r)[1..] == r;
    }
  }

  /** The sorted list ascends and holds the same intervals, so it covers the same time. */
  lemma {:induction false} SortKeeps(xs: seq<Interval>)
    ensures Ascending(Sort(xs))
    ensures Length(Sort(xs)) == Length(xs)
    ensures forall y :: y in Sort(xs) <==> y in xs
  {
    if xs == [] {
    } else {
      SortKeeps(xs[1..]);
      InsertKeeps(xs[0], Sort(xs[1..]));
    }
  }

  lemma SortKeepsIntervals(xs: seq<Interval>)
    ensures Ordered(xs) ==> Ordered(Sort(xs))
    ensures Positive(xs) ==> Positive(Sort(xs))
    ensures Covered(Sort(xs)) == Covered(xs)
  {
    hide Sort;
    SortKeeps(xs);
    forall i | 0 <= i < |xs| ensures Sort(xs)[i] in xs {
      assert Sort(xs)[i] in Sort(xs);
    }
    UnionIgnoresOrderAndRepetition(Sort(xs), xs);
  }

  /** The intervals that start at one moment, in order. */
  function StartingAt(xs: seq<Interval>, start: int): seq<Interval> {
    if xs == [] then [] else (if xs[0].start == start then [xs[0]] else []) + StartingAt(xs[1..], start)
  }

  lemma StartingNext(x: Interval, xs: seq<Interval>, start: int)
    ensures StartingAt([x] + xs, start) == (if x.start == start then [x] else []) + StartingAt(xs, start)
  {
    assert ([x] + xs)[1..] == xs;
  }

  lemma {:induction false} InsertIsStable(x: Interval, xs: seq<Interval>, start: int)
    ensures StartingAt(Insert(x, xs), start) == (if x.start == start then [x] else []) + StartingAt(xs, start)
  {
    hide StartingAt;
    if xs == [] || x.start <= xs[0].start {
      StartingNext(x, xs, start);
    } else {
      InsertIsStable(x, xs[1..], start);
      StartingNext(xs[0], Insert(x, xs[1..]), start);
      StartingNext(xs[0], xs[1..], start);
      assert [xs[0]] + xs[1..] == xs;
    }
  }

  /** The sort is a stable one. */
  lemma {:induction false} SortIsStable(xs: seq<Interval>, start: int)
    ensures StartingAt(Sort(xs), start) == StartingAt(xs, start)
  {
    if xs == [] {
    } else {
      SortIsStable(xs[1..], start);
      InsertIsStable(xs[0], Sort(xs[1..]), start);
    }
  }

  // ------------------------------------------------------------------------ the sweep

  /** `done`, of size `total`, lies behind the current stretch; together they are the union so far. */
  ghost predicate Swept(xs: seq<Interval>, done: set<int>, cur: Interval, total: int) {
    && cur.start <= cur.end
    && Covered(xs) == done + Points(cur)
    && |done| == total
    && forall t :: t in done ==> t < cur.start
  }

  /** `unionHours`: the sweep measures the union, in hours. */
  method UnionHours(intervals: seq<Interval>) returns (hours: real)
    requires Ordered(intervals)
    ensures hours == |Covered(intervals)| as real / 3_600_000.0
  {
    hide Points, Covered, Sort, Swept;
    CoveredNext([], Interval(0, 0));
    if |intervals| == 0 { return 0.0; }
    var sorted := Sort(intervals);
    SortKeeps(intervals);
    SortKeepsIntervals(intervals);

    var total := 0;
    var curStart, curEnd := sorted[0].start, sorted[0].end;
    ghost var done: set<int> := {};
    StartSweep(sorted[0]);
    assert sorted[..1] == [sorted[0]];

    for i := 1 to |sorted|
      invariant Swept(sorted[..i], done, Interval(curStart, curEnd), total)
      invariant curStart <= sorted[i - 1].start
    {
      var s, e := sorted[i].start, sorted[i].end;
      assert sorted[..i + 1] == sorted[..i] + [sorted[i]];
      AscendingAt(sorted, i);
      if s <= curEnd {
        Extend(sorted[..i], done, Interval(curStart, curEnd), total, sorted[i]);
        curEnd := if curEnd > e then curEnd else e;
      } else {
        Leap(sorted[..i], done, Interval(curStart, curEnd), total, sorted[i]);
        done := done + Points(Interval(curStart, curEnd));
        total := total + (curEnd - curStart);
        curStart := s;
        curEnd := e;
      }
    }
    assert sorted[..|sorted|] == sorted;
    SweptTotal(sorted, done, Interval(curStart, curEnd), total);
    total := total + (curEnd - curStart);
    hours := total as real / MS_PER_HOUR;
  }

  lemma CoveredNext(xs: seq<Interval>, x: Interval)
    ensures Covered([]) == {}
    ensures Covered(xs + [x]) == Covered(xs) + Points(x)
  {
    hide Points;
    forall t ensures t in Covered(xs + [x]) <==> t in Covered(xs) || t in Points(x) {
      CoveredMeans(xs + [x], t);
      CoveredMeans(xs, t);
      assert forall k :: 0 <= k < |xs| ==> (xs + [x])[k] == xs[k];
      assert (xs + [x])[|xs|] == x;
    }
  }

  lemma StartSweep(x: Interval)
    requires x.start <= x.end
    ensures Swept([x], {}, x, 0)
  {
    CoveredNext([], x);
  }

  /** An interval that starts inside the current stretch, or at its end, extends it. */
  lemma Extend(xs: seq<Interval>, done: set<int>, cur: Interval, total: int, x: Interval)
    requires Swept(xs, done, cur, total)
    requires cur.start <= x.start <= cur.end && x.start <= x.end
    ensures Swept(xs + [x], done, Interval(cur.start, if cur.end > x.end then cur.end else x.end), total)
  {
    hide Points, Covered;
    CoveredNext(xs, x);
  }

  /** An interval behind the current stretch closes it and starts the next. */
  lemma Leap(xs: seq<Interval>, done: set<int>, cur: Interval, total: int, x: Interval)
    requires Swept(xs, done, cur, total)
    requires cur.end < x.start <= x.end
    ensures Swept(xs + [x], done + Points(cur), x, total + (cur.end - cur.start))
  {
    hide Points, Covered;
    CoveredNext(xs, x);
    SweptTotal(xs, done, cur, total);
  }

  lemma SweptTotal(xs: seq<Interval>, done: set<int>, cur: Interval, total: int)
    requires Swept(xs, done, cur, total)
    ensures |Covered(xs)| == total + (cur.end - cur.start)
  {
    hide Points;
    assert done !! Points(cur);
  }

  // ------------------------------------------------------------------- double counting

  /** How far the plain sum exceeds the union, in milliseconds. */
  function Excess(xs: seq<Interval>): int {
    Length(xs) - |Covered(xs)|
  }

  /** `overlapHours`: the naive sum less the union. */
  method OverlapHours(intervals: seq<Interval>) returns (hours: real)
    requires Ordered(intervals)
    ensures hours == Excess(intervals) as real / 3_600_000.0
    ensures hours >= 0.0
  {
    var naive := 0.0;
    for i := 0 to |intervals|
      invariant naive == (Length(intervals) - Length(intervals[i..])) as real / MS_PER_HOUR
    {
      naive := naive + (intervals[i].end - intervals[i].start) as real / MS_PER_HOUR;
    }
    var union := UnionHours(intervals);
    ExcessIsTheSharedTime(intervals);
    hours := if naive - union > 0.0 then naive - union else 0.0;
  }

  predicate Overlap(x: Interval, y: Interval) {
    x.start < y.end && y.start < x.end
  }

  /** Some two of the intervals share time. */
  predicate SharesTime(xs: seq<Interval>) {
    exists i, j :: 0 <= i < j < |xs| && Overlap(xs[i], xs[j])
  }

  /** The excess is never negative, and positive exactly when two intervals share time. */
  lemma {:induction false} ExcessIsTheSharedTime(xs: seq<Interval>)
    requires Ordered(xs)
    ensures Excess(xs) >= 0
    ensures Positive(xs) ==> (Excess(xs) > 0 <==> SharesTime(xs))
    decreases |xs|
  {
    hide Points;
    if xs == [] {
    } else {
      var x, others := xs[0], xs[1..];
      ExcessIsTheSharedTime(others);
      UnionCount(Points(x), Covered(others));
      assert Excess(xs) == Excess(others) + |Points(x) * Covered(others)|;
      if Positive(xs) {
        CommonPoints(x, others);
        SharedByFirst(xs);
      }
    }
  }

  lemma UnionCount(a: set<int>, b: set<int>)
    ensures |a + b| + |a * b| == |a| + |b|
  {
    assert a + b == (a - a * b) + b && (a - a * b) !! b;
  }

  /** An interval meets the union of others exactly when it overlaps one of them. */
  lemma CommonPoints(x: Interval, xs: seq<Interval>)
    requires Positive(xs) && x.start < x.end
    ensures |Points(x) * Covered(xs)| > 0 <==> exists i :: 0 <= i < |xs| && Overlap(x, xs[i])
  {
    hide Points, Covered;
    var common := Points(x) * Covered(xs);
    if common != {} {
      var t :| t in common;
      CoveredMeans(xs, t);
    }
    if i :| 0 <= i < |xs| && Overlap(x, xs[i]) {
      var t := if xs[i].start < x.start then x.start else xs[i].start;
      CoveredMeans(xs, t);
      assert t in Points(xs[i]) && t in common;
    }
  }

  lemma SharedByFirst(xs: seq<Interval>)
    requires xs != []
    ensures SharesTime(xs) <==>
      SharesTime(xs[1..]) || exists i :: 0 <= i < |xs[1..]| && Overlap(xs[0], xs[1..][i])
  {
    var others := xs[1..];
    if SharesTime(xs) {
      var i, j :| 0 <= i < j < |xs| && Overlap(xs[i], xs[j]);
      assert others[j - 1] == xs[j];
      if i > 0 {
        assert Overlap(others[i - 1], others[j - 1]);
      }
    }
    if SharesTime(others) {
      var i, j :| 0 <= i < j < |others| && Overlap(others[i], others[j]);
      assert Overlap(xs[i + 1], xs[j + 1]);
    }
    if i :| 0 <= i < |others| && Overlap(xs[0], others[i]) {
      assert Overlap(xs[0], xs[i + 1]);
    }
  }

  // ----------------------------------------------------------- the adjacent-pair scan

  datatype Flag = Flag(first: Interval, second: Interval, minutes: int)

  /** `Math.round` of a quotient: the nearest integer, halves going up. */
  function RoundDiv(n: int, d: int): int
    requires d > 0
  {
    (2 * n + d) / (2 * d)
  }

  function FlagFor(prev: Interval, cur: Interval): seq<Flag> {
    if cur.start < prev.end then
      var end := if prev.end < cur.end then prev.end else cur.end;
      [Flag(prev, cur, RoundDiv(end - cur.start, MS_PER_MIN))]
    else []
  }

  /** The flags of the adjacent pairs among the first `n`. */
  function Flags(sorted: seq<Interval>, n: nat): seq<Flag>
    requires n <= |sorted|
  {
    if n <= 1 then [] else Flags(sorted, n - 1) + FlagFor(sorted[n - 2], sorted[n - 1])
  }

  /** The overlap check of `detectExceptions` on one instructor's day. */
  method ScanOverlaps(dayLogs: seq<Interval>) returns (flags: seq<Flag>)
    ensures flags == Flags(Sort(dayLogs), |dayLogs|)
  {
    hide Sort;
    var productive := Sort(dayLogs);
    flags := [];
    if |productive| == 0 { return; }
    for i := 1 to |productive|
      invariant flags == Flags(productive, i)
    {
      var prev, cur := productive[i - 1], productive[i];
      if cur.start < prev.end {
        var end := if prev.end < cur.end then prev.end else cur.end;
        flags := flags + [Flag(prev, cur, RoundDiv(end - cur.start, MS_PER_MIN))];
      }
    }
  }

  /** The `k`-th interval, counted from one, starts before the one ahead of it ends. */
  predicate Meets(sorted: seq<Interval>, k: nat)
    requires 1 < k <= |sorted|
  {
    sorted[k - 1].start < sorted[k - 2].end
  }

  lemma {:induction false} FlaggedPairs(sorted: seq<Interval>, n: nat)
    requires n <= |sorted|
    ensures Flags(sorted, n) != [] <==> exists k :: 1 < k <= n && Meets(sorted, k)
  {
    if n <= 1 {
    } else {
      FlagsOneMore(sorted, n);
      FlaggedPairs(sorted, n - 1);
      hide Flags, Meets;
    }
  }

  lemma FlagsOneMore(sorted: seq<Interval>, n: nat)
    requires 1 < n <= |sorted|
    ensures Flags(sorted, n) != [] <==> Flags(sorted, n - 1) != [] || Meets(sorted, n)
  {
    assert FlagFor(sorted[n - 2], sorted[n - 1]) != [] <==> Meets(sorted, n);
  }

  /** If no interval meets the one before it, none meets any other. */
  lemma {:induction false} NoAdjacentOverlap(sorted: seq<Interval>, i: nat, j: nat)
    requires Positive(sorted) && i < j < |sorted|
    requires forall k :: 1 < k <= |sorted| ==> !Meets(sorted, k)
    ensures sorted[i].end <= sorted[j].start
    decreases j
  {
    assert !Meets(sorted, j + 1);
    if i < j - 1 {
      NoAdjacentOverlap(sorted, i, j - 1);
    }
  }

  lemma AdjacentPairsSuffice(sorted: seq<Interval>)
    requires Ascending(sorted) && Positive(sorted)
    ensures SharesTime(sorted) <==> exists k :: 1 < k <= |sorted| && Meets(sorted, k)
  {
    if k :| 1 < k <= |sorted| && Meets(sorted, k) {
      AscendingAt(sorted, k - 1);
      assert Overlap(sorted[k - 2], sorted[k - 1]);
    } else if i, j :| 0 <= i < j < |sorted| && Overlap(sorted[i], sorted[j]) {
      NoAdjacentOverlap(sorted, i, j);
      assert false;
    }
  }

  /**
   * The scan of adjacent pairs flags a day exactly when some two of its
   * intervals share time, which is exactly when the overlap is positive.
   */
  lemma ScanFindsSharedTime(xs: seq<Interval>)
    requires Positive(xs)
    ensures Flags(Sort(xs), |xs|) != [] <==> SharesTime(xs)
    ensures Flags(Sort(xs), |xs|) != [] <==> Excess(xs) > 0
  {
    hide Flags, Sort, SharesTime;
    var sorted := Sort(xs);
    SortKeeps(xs);
    SortKeepsIntervals(xs);
    ExcessIsTheSharedTime(xs);
    ExcessIsTheSharedTime(sorted);
    FlaggedPairs(sorted, |sorted|);
    AdjacentPairsSuffice(sorted);
  }

  /** The places, counted from one, of the intervals that start before the one ahead of them ends. */
  function Meeting(sorted: seq<Interval>, n: nat): (ks: seq<nat>)
    requires n <= |sorted|
    ensures forall i :: 0 <= i < |ks| ==> 1 < ks[i] <= n && Meets(sorted, ks[i])
  {
    if n <= 1 then [] else Meeting(sorted, n - 1) + if Meets(sorted, n) then [n] else []
  }

  /** A flag names the two intervals, earlier first, and the minutes they share, to the nearest, halves going up. */
  predicate Flagged(f: Flag, prev: Interval, cur: Interval) {
    && f.first == prev && f.second == cur
    && var shared := |Points(prev) * Points(cur)|;
       60_000 * (2 * f.minutes - 1) <= 2 * shared < 60_000 * (2 * f.minutes + 1)
  }

  lemma SharedPoints(prev: Interval, cur: Interval)
    requires prev.start <= cur.start < prev.end && cur.start <= cur.end
    ensures |Points(prev) * Points(cur)| == (if prev.end < cur.end then prev.end else cur.end) - cur.start
  {
    var both := Interval(cur.start, if prev.end < cur.end then prev.end else cur.end);
    hide Points;
    assert Points(prev) * Points(cur) == Points(both);
  }

  lemma NearestMinute(n: int)
    ensures 60_000 * (2 * RoundDiv(n, MS_PER_MIN) - 1) <= 2 * n < 60_000 * (2 * RoundDiv(n, MS_PER_MIN) + 1)
  {
  }

  lemma FlagSaysWhatIsShared(prev: Interval, cur: Interval)
    requires prev.start <= cur.start < prev.end && cur.start <= cur.end
    ensures |FlagFor(prev, cur)| == 1 && Flagged(FlagFor(prev, cur)[0], prev, cur)
  {
    hide Points, RoundDiv;
    SharedPoints(prev, cur);
    NearestMinute((if prev.end < cur.end then prev.end else cur.end) - cur.start);
  }

  /** The flags are those of the places, in order. */
  predicate AllFlagged(sorted: seq<Interval>, flags: seq<Flag>, ks: seq<nat>) {
    && |flags| == |ks|
    && forall i :: 0 <= i < |ks| ==>
         1 < ks[i] <= |sorted| && Flagged(flags[i], sorted[ks[i] - 2], sorted[ks[i] - 1])
  }

  lemma OneMoreFlagged(sorted: seq<Interval>, flags: seq<Flag>, ks: seq<nat>, f: Flag, k: nat)
    requires AllFlagged(sorted, flags, ks) && 1 < k <= |sorted| && Flagged(f, sorted[k - 2], sorted[k - 1])
    ensures AllFlagged(sorted, flags + [f], ks + [k])
  {
    hide Flagged;
  }

  lemma FlagsNext(sorted: seq<Interval>, n: nat)
    requires 1 < n <= |sorted|
    ensures Flags(sorted, n) == Flags(sorted, n - 1) + FlagFor(sorted[n - 2], sorted[n - 1])
    ensures Meeting(sorted, n) == if Meets(sorted, n) then Meeting(sorted, n - 1) + [n] else Meeting(sorted, n - 1)
    ensures !Meets(sorted, n) ==> Flags(sorted, n) == Flags(sorted, n - 1)
  {
    hide RoundDiv;
  }

  /** Each neighbour that meets the one ahead has a flag, in order, with the time the two share. */
  lemma {:induction false} FlagsSayWhatIsShared(sorted: seq<Interval>, n: nat)
    requires Ascending(sorted) && Ordered(sorted) && n <= |sorted|
    ensures AllFlagged(sorted, Flags(sorted, n), Meeting(sorted, n))
  {
    if n <= 1 {
    } else {
      hide *;
      FlagsSayWhatIsShared(sorted, n - 1);
      FlagsNext(sorted, n);
      if Meets(sorted, n) {
        var f := NextFlag(sorted, n);
        OneMoreFlagged(sorted, Flags(sorted, n - 1), Meeting(sorted, n - 1), f, n);
      }
    }
  }

  lemma NextFlag(sorted: seq<Interval>, n: nat) returns (f: Flag)
    requires Ascending(sorted) && Ordered(sorted) && 1 < n <= |sorted| && Meets(sorted, n)
    ensures Flags(sorted, n) == Flags(sorted, n - 1) + [f] && Flagged(f, sorted[n - 2], sorted[n - 1])
  {
    hide Ascending, Flags, Meeting, Flagged, FlagFor;
    AscendingAt(sorted, n - 1);
    FlagsNext(sorted, n);
    FlagSaysWhatIsShared(sorted[n - 2], sorted[n - 1]);
    var flags := FlagFor(sorted[n - 2], sorted[n - 1]);
    assert flags == [flags[0]];
    f := flags[0];
  }
}
