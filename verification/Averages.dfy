/** The active-instructor average: one sum of minutes, one sum of counts, one division. */
module Averages {
  import opened MetricTables
  import opened UniversityMetrics

  datatype UniversityDay = UniversityDay(activeMinutes: int, activeCount: nat)

  datatype Average = NoneActive | Minutes(value: real)

  function MinutesOf(days: seq<UniversityDay>): int {
    if days == [] then 0 else MinutesOf(days[..|days| - 1]) + days[|days| - 1].activeMinutes
  }

  function CountOf(days: seq<UniversityDay>): nat {
    if days == [] then 0 else CountOf(days[..|days| - 1]) + days[|days| - 1].activeCount
  }

  function AverageOf(days: seq<UniversityDay>): Average {
    if CountOf(days) == 0 then NoneActive else Minutes(MinutesOf(days) as real / CountOf(days) as real)
  }

  method AverageActiveMinutes(days: seq<UniversityDay>) returns (a: Average)
    ensures a == AverageOf(days)
  {
    var numerator, denominator := 0, 0;
    for i := 0 to |days|
      invariant numerator == MinutesOf(days[..i]) && denominator == CountOf(days[..i])
    {
      assert days[..i + 1][..i] == days[..i];
      numerator := numerator + days[i].activeMinutes;
      denominator := denominator + days[i].activeCount;
    }
    assert days[..|days|] == days;
    if denominator == 0 { return NoneActive; }
    return Minutes(numerator as real / denominator as real);
  }

  // -------------------------------------------- what the columns feeding it stand for

  /** The two columns of a university row that feed the average. */
  function Columns(sums: UniversityRow): UniversityDay {
    UniversityDay(sums.activeMinutes, sums.activeCount)
  }

  /** The rows that a date's stored row is the sum of. */
  datatype Source = Source(entries: seq<Entry>, date: int)

  function DayOf(s: Source): UniversityDay {
    Columns(SumOn(s.entries, s.date))
  }

  function Period(sources: seq<Source>): seq<UniversityDay> {
    if sources == [] then [] else Period(sources[..|sources| - 1]) + [DayOf(sources[|sources| - 1])]
  }

  /** Every active instructor-day of the date has between `lo` and `hi` minutes. */
  predicate Within(s: Source, lo: int, hi: int) {
    forall k :: 0 <= k < |s.entries| && s.entries[k].key.1 == s.date && s.entries[k].row.minutes.productive > 0 ==>
      lo <= s.entries[k].row.minutes.productive <= hi
  }

  lemma OneDayMore(days: seq<UniversityDay>, day: UniversityDay)
    ensures MinutesOf(days + [day]) == MinutesOf(days) + day.activeMinutes
    ensures CountOf(days + [day]) == CountOf(days) + day.activeCount
  {
    assert (days + [day])[..|days|] == days;
  }

  lemma OneDayAlone(day: UniversityDay)
    ensures MinutesOf([day]) == day.activeMinutes && CountOf([day]) == day.activeCount
  {
    OneDayMore([], day);
    assert [] + [day] == [day];
  }

  /** The days' minutes are between `lo` and `hi` for each one counted. */
  predicate Bounds(lo: int, hi: int, days: seq<UniversityDay>) {
    lo * CountOf(days) <= MinutesOf(days) <= hi * CountOf(days)
  }

  lemma {:induction false} DayWithin(entries: seq<Entry>, date: int, lo: int, hi: int)
    requires Within(Source(entries, date), lo, hi)
    ensures Bounds(lo, hi, [DayOf(Source(entries, date))])
  {
    if entries == [] {
    } else {
      var n := |entries| - 1;
      assert forall k :: 0 <= k < n ==> entries[..n][k] == entries[k];
      DayWithin(entries[..n], date, lo, hi);
      var before := DayOf(Source(entries[..n], date));
      var count := before.activeCount;
      OneDayAlone(before);
      OneDayAlone(DayOf(Source(entries, date)));
      assert lo * (count + 1) == lo * count + lo && hi * (count + 1) == hi * count + hi;
    }
  }

  lemma {:induction false} PeriodWithin(sources: seq<Source>, lo: int, hi: int)
    requires forall i :: 0 <= i < |sources| ==> Within(sources[i], lo, hi)
    ensures Bounds(lo, hi, Period(sources))
  {
    if sources == [] {
    } else {
      hide DayOf, Within, Bounds;
      var n := |sources| - 1;
      var shorter, day := Period(sources[..n]), DayOf(sources[n]);
      PeriodWithin(sources[..n], lo, hi);
      DayWithin(sources[n].entries, sources[n].date, lo, hi);
      BoundsAdd(lo, hi, shorter, day);
    }
  }

  lemma BoundsAdd(lo: int, hi: int, days: seq<UniversityDay>, day: UniversityDay)
    requires Bounds(lo, hi, days) && Bounds(lo, hi, [day])
    ensures Bounds(lo, hi, days + [day])
  {
    OneDayMore(days, day);
    OneDayMore([], day);
    assert [] + [day] == [day];
    var c1, c2 := CountOf(days), day.activeCount;
    assert lo * (c1 + c2) == lo * c1 + lo * c2 && hi * (c1 + c2) == hi * c1 + hi * c2;
  }

  lemma {:induction false} PeriodActive(sources: seq<Source>)
    requires forall i :: 0 <= i < |sources| ==> NoneNegative(sources[i].entries)
    ensures CountOf(Period(sources)) > 0 <==> AnyActive(sources)
  {
    if sources == [] {
    } else {
      hide SomeActive, NoneNegative, SumOn;
      var n := |sources| - 1;
      PeriodActive(sources[..n]);
      ActiveMinutesAreAll(sources[n].entries, sources[n].date);
      var shorter, day := Period(sources[..n]), DayOf(sources[n]);
      OneDayMore(shorter, day);
      assert forall i :: 0 <= i < n ==> sources[..n][i] == sources[i];
    }
  }

  /** Somebody is active on some day of the period. */
  predicate AnyActive(sources: seq<Source>) {
    exists i :: 0 <= i < |sources| && SomeActive(sources[i].entries, sources[i].date)
  }

  /**
   * The average is unknown exactly when nobody was active on any day of the
   * period; otherwise it lies between the smallest and the largest active
   * instructor-day of the period.
   */
  lemma AverageIsBetween(sources: seq<Source>, lo: int, hi: int)
    requires forall i :: 0 <= i < |sources| ==> NoneNegative(sources[i].entries) && Within(sources[i], lo, hi)
    ensures var a := AverageOf(Period(sources));
      && (a.NoneActive? <==> !AnyActive(sources))
      && (a.Minutes? ==> lo as real <= a.value <= hi as real)
  {
    hide NoneNegative, Within, AnyActive, Period;
    PeriodWithin(sources, lo, hi);
    PeriodActive(sources);
    var p := Period(sources);
    if CountOf(p) > 0 {
      QuotientBetween(MinutesOf(p), CountOf(p), lo, hi);
    }
  }

  // ------------------------------------------------------------------- from the tables

  /** What is stored for the given universities and dates. */
  function StoredDays(university: map<Key, UniversityMetric>, keys: seq<Key>): seq<UniversityDay>
    requires forall i :: 0 <= i < |keys| ==> keys[i] in university
  {
    if keys == [] then []
    else StoredDays(university, keys[..|keys| - 1]) + [Columns(university[keys[|keys| - 1]].sums)]
  }

  function SourcesOf(calls: seq<Call>, keys: seq<Key>): (sources: seq<Source>)
    ensures |sources| == |keys|
    ensures forall i :: 0 <= i < |keys| ==>
      sources[i] == Source(LastEntries(calls, keys[i].0, keys[i].1), keys[i].1)
  {
    if keys == [] then []
    else
      var k := keys[|keys| - 1];
      SourcesOf(calls, keys[..|keys| - 1]) + [Source(LastEntries(calls, k.0, k.1), k.1)]
  }

  lemma {:induction false} StoredDaysAreSums(calls: seq<Call>, keys: seq<Key>)
    requires forall i :: 0 <= i < |keys| ==> keys[i] in RollAll(NO_TABLES, calls).university
    ensures StoredDays(RollAll(NO_TABLES, calls).university, keys) == Period(SourcesOf(calls, keys))
  {
    hide RollAll, LastEntries, SumOn;
    if keys == [] {
    } else {
      var n := |keys| - 1;
      StoredDaysAreSums(calls, keys[..n]);
      UniversityRowIsLast(calls, keys[n].0, keys[n].1);
      assert SourcesOf(calls, keys)[..n] == SourcesOf(calls, keys[..n]);
    }
  }

  /**
   * The average read from the stored rows, after any sequence of roll-ups of what
   * the engine returns: absent exactly when none of the rows they were summed from
   * is active, and else between the smallest and the largest of those.
   */
  lemma StoredAverageIsBetween(calls: seq<Call>, keys: seq<Key>, lo: int, hi: int)
    requires forall i :: 0 <= i < |calls| ==> FromEngine(calls[i].instructors)
    requires forall i :: 0 <= i < |keys| ==> keys[i] in RollAll(NO_TABLES, calls).university
    requires forall i :: 0 <= i < |keys| ==> Within(SourcesOf(calls, keys)[i], lo, hi)
    ensures var a := AverageOf(StoredDays(RollAll(NO_TABLES, calls).university, keys));
      && (a.NoneActive? <==> !AnyActive(SourcesOf(calls, keys)))
      && (a.Minutes? ==> lo as real <= a.value <= hi as real)
  {
    hide RollAll, LastEntries, FromEngine, NoneNegative, Within, AnyActive, AverageOf;
    StoredDaysAreSums(calls, keys);
    forall i | 0 <= i < |keys| ensures NoneNegative(SourcesOf(calls, keys)[i].entries) {
      LastIsNotNegative(calls, keys[i].0, keys[i].1);
    }
    AverageIsBetween(SourcesOf(calls, keys), lo, hi);
  }

  lemma QuotientBetween(n: int, d: int, lo: int, hi: int)
    requires d > 0 && lo * d <= n <= hi * d
    ensures lo as real <= n as real / d as real <= hi as real
  {
    assert lo as real * d as real == (lo * d) as real;
    assert hi as real * d as real == (hi * d) as real;
  }

  lemma {:induction false} SumsOfJoin(a: seq<UniversityDay>, b: seq<UniversityDay>)
    ensures MinutesOf(a + b) == MinutesOf(a) + MinutesOf(b)
    ensures CountOf(a + b) == CountOf(a) + CountOf(b)
    decreases |b|
  {
    if b == [] {
      assert a + b == a;
    } else {
      SumsOfJoin(a, b[..|b| - 1]);
      assert (a + b)[..|a + b| - 1] == a + b[..|b| - 1];
    }
  }

  /** Joined periods average to the mean of their averages, weighted by active instructor-days. */
  lemma JoinedPeriodsAreWeighted(a: seq<UniversityDay>, b: seq<UniversityDay>)
    requires CountOf(a) > 0 && CountOf(b) > 0
    ensures AverageOf(a + b).Minutes?
    ensures AverageOf(a + b).value * (CountOf(a) + CountOf(b)) as real
         == AverageOf(a).value * CountOf(a) as real + AverageOf(b).value * CountOf(b) as real
  {
    hide AverageOf, MinutesOf, CountOf;
    SumsOfJoin(a, b);
    AverageTimesCount(a);
    AverageTimesCount(b);
    AverageTimesCount(a + b);
    assert CountOf(a + b) as real == (CountOf(a) + CountOf(b)) as real;
  }

  lemma AverageTimesCount(days: seq<UniversityDay>)
    requires CountOf(days) > 0
    ensures AverageOf(days).Minutes?
    ensures AverageOf(days).value * CountOf(days) as real == MinutesOf(days) as real
  {
  }
}
