/** Activities gathered into the lines of a report: src/domain/rollup.ts. */
module ReportMerge {
  import opened Hours
  import opened Options
  import opened Seqs
  import opened Text

  datatype Counting = Occurrence | Items | Never

  datatype Deliverable = Deliverable(name: string, counting: Counting)

  /** A quantity as a payload carries it: absent, `null`, or a number. */
  datatype Stated = Missing | Unknown | Count(n: int)

  /** An activity with the deliverable its codes stand for. */
  datatype Activity = Activity(
    durationHours: real,
    status: Option<string>,
    startTime: Option<int>,
    deliverable: Deliverable,
    quantity: Stated)

  /** A line of the report but for its name. */
  datatype Tally = Tally(hours: real, minutes: int, quantity: Option<int>, firstAt: Option<int>)

  datatype Line = Line(name: string, tally: Tally)

  const ZERO := Tally(0.0, 0, Some(0), None)

  /** `didHappen`: neither MISSED nor EXCUSED. */
  predicate DidHappen(a: Activity) {
    a.status != Some("MISSED") && a.status != Some("EXCUSED")
  }

  /** `quantityWhenUnstated` */
  function QuantityWhenUnstated(d: Deliverable): Option<int> {
    if d.counting == Occurrence then Some(1) else None
  }

  function QuantityOf(a: Activity): Option<int> {
    match a.quantity
    case Missing => QuantityWhenUnstated(a.deliverable)
    case Unknown => None
    case Count(n) => Some(n)
  }

  function Add(a: Option<int>, b: Option<int>): Option<int> {
    if a.None? || b.None? then None else Some(a.value + b.value)
  }

  function Earlier(a: Option<int>, b: Option<int>): Option<int> {
    if a.None? then b else if b.None? then a else if a.value < b.value then a else b
  }

  /** Two tallies of the same line taken together. */
  function Merge(a: Tally, b: Tally): Tally {
    Tally(a.hours + b.hours, a.minutes + b.minutes, Add(a.quantity, b.quantity), Earlier(a.firstAt, b.firstAt))
  }

  function One(a: Activity): Tally {
    Tally(a.durationHours, ToMinutes(a.durationHours), QuantityOf(a), a.startTime)
  }

  /** The activities that happened under a name. */
  function Members(acts: seq<Activity>, name: string): seq<Activity> {
    if acts == [] then []
    else
      var n := |acts| - 1;
      Members(acts[..n], name)
      + if DidHappen(acts[n]) && acts[n].deliverable.name == name then [acts[n]] else []
  }

  function TallyAll(acts: seq<Activity>): Tally {
    if acts == [] then ZERO else Merge(TallyAll(acts[..|acts| - 1]), One(acts[|acts| - 1]))
  }

  function TallyOf(acts: seq<Activity>, name: string): Tally {
    TallyAll(Members(acts, name))
  }

  /** The names in the order the work first comes up. */
  function Names(acts: seq<Activity>): seq<string> {
    if acts == [] then []
    else
      var before, a := Names(acts[..|acts| - 1]), acts[|acts| - 1];
      if DidHappen(a) && a.deliverable.name !in before then before + [a.deliverable.name] else before
  }

  function LinesFor(names: seq<string>, acts: seq<Activity>): seq<Line> {
    if names == [] then []
    else
      var n := |names| - 1;
      LinesFor(names[..n], acts) + [Line(names[n], TallyOf(acts, names[n]))]
  }

  // ------------------------------------------------------------------------------- the sort

  /** Into a list that is heaviest first, after the lines that weigh as much. */
  function Insert(lines: seq<Line>, x: Line): seq<Line> {
    if lines == [] then [x]
    else
      var n := |lines| - 1;
      if lines[n].tally.hours >= x.tally.hours then lines + [x] else Insert(lines[..n], x) + [lines[n]]
  }

  /** `sort((a, b) => b.hours - a.hours)`, which is stable (section 23.1.3.30 of ECMA-262). */
  function HeaviestFirst(lines: seq<Line>): seq<Line> {
    if lines == [] then [] else Insert(HeaviestFirst(lines[..|lines| - 1]), lines[|lines| - 1])
  }

  predicate Descends(lines: seq<Line>) {
    forall i, j :: 0 <= i < j < |lines| ==> lines[i].tally.hours >= lines[j].tally.hours
  }

  /** The lines of one weight, in order. */
  function OfWeight(lines: seq<Line>, hours: real): seq<Line> {
    if lines == [] then []
    else
      var n := |lines| - 1;
      OfWeight(lines[..n], hours) + if lines[n].tally.hours == hours then [lines[n]] else []
  }

  function TotalHours(lines: seq<Line>): real {
    if lines == [] then 0.0 else TotalHours(lines[..|lines| - 1]) + lines[|lines| - 1].tally.hours
  }

  predicate AtLeast(lines: seq<Line>, hours: real) {
    forall k :: 0 <= k < |lines| ==> lines[k].tally.hours >= hours
  }

  lemma {:induction false} InsertDescends(lines: seq<Line>, x: Line, least: real)
    requires Descends(lines) && AtLeast(lines, least) && x.tally.hours >= least
    ensures Descends(Insert(lines, x)) && AtLeast(Insert(lines, x), least)
  {
    if lines == [] {
    } else {
      var n := |lines| - 1;
      if lines[n].tally.hours < x.tally.hours {
        InsertDescends(lines[..n], x, lines[n].tally.hours);
      }
    }
  }

  lemma {:induction false} InsertAddsOne(lines: seq<Line>, x: Line)
    ensures multiset(Insert(lines, x)) == multiset(lines) + multiset{x}
  {
    if lines == [] {
    } else {
      var n := |lines| - 1;
      assert lines == lines[..n] + [lines[n]];
      if lines[n].tally.hours < x.tally.hours {
        InsertAddsOne(lines[..n], x);
      }
    }
  }

  function Least(lines: seq<Line>, x: Line): (h: real)
    requires Descends(lines)
    ensures AtLeast(lines, h) && x.tally.hours >= h
  {
    if lines != [] && lines[|lines| - 1].tally.hours < x.tally.hours then lines[|lines| - 1].tally.hours
    else x.tally.hours
  }

  lemma OfWeightNext(lines: seq<Line>, x: Line, hours: real)
    ensures OfWeight(lines + [x], hours) == OfWeight(lines, hours) + if x.tally.hours == hours then [x] else []
  {
    assert (lines + [x])[..|lines|] == lines;
  }

  lemma TotalNext(lines: seq<Line>, x: Line)
    ensures TotalHours(lines + [x]) == TotalHours(lines) + x.tally.hours
  {
    assert (lines + [x])[..|lines|] == lines;
  }

  lemma {:induction false} InsertKeepsOrder(lines: seq<Line>, x: Line, hours: real)
    ensures OfWeight(Insert(lines, x), hours) == OfWeight(lines, hours) + if x.tally.hours == hours then [x] else []
  {
    if lines == [] {
    } else {
      var n := |lines| - 1;
      if lines[n].tally.hours < x.tally.hours {
        InsertKeepsOrder(lines[..n], x, hours);
        OfWeightNext(Insert(lines[..n], x), lines[n], hours);
      } else {
        OfWeightNext(lines, x, hours);
      }
    }
  }

  lemma {:induction false} InsertKeepsTotal(lines: seq<Line>, x: Line)
    ensures TotalHours(Insert(lines, x)) == TotalHours(lines) + x.tally.hours
  {
    if lines == [] {
    } else {
      var n := |lines| - 1;
      if lines[n].tally.hours < x.tally.hours {
        InsertKeepsTotal(lines[..n], x);
        TotalNext(Insert(lines[..n], x), lines[n]);
      } else {
        TotalNext(lines, x);
      }
    }
  }

  /** The sort is a stable one: the same lines, heaviest first, those of one weight in the order they had. */
  lemma {:induction false} HeaviestFirstIsStable(lines: seq<Line>, hours: real)
    ensures Descends(HeaviestFirst(lines))
    ensures multiset(HeaviestFirst(lines)) == multiset(lines)
    ensures OfWeight(HeaviestFirst(lines), hours) == OfWeight(lines, hours)
    ensures TotalHours(HeaviestFirst(lines)) == TotalHours(lines)
  {
    if lines == [] {
    } else {
      var n := |lines| - 1;
      assert lines == lines[..n] + [lines[n]];
      var front := HeaviestFirst(lines[..n]);
      HeaviestFirstIsStable(lines[..n], hours);
      InsertDescends(front, lines[n], Least(front, lines[n]));
      InsertAddsOne(front, lines[n]);
      InsertKeepsOrder(front, lines[n], hours);
      InsertKeepsTotal(front, lines[n]);
    }
  }

  // -------------------------------------------------------------------------- the method

  function Values(names: seq<string>, byCategory: map<string, Tally>): seq<Line>
    requires forall k :: 0 <= k < |names| ==> names[k] in byCategory
  {
    if names == [] then []
    else
      var n := |names| - 1;
      Values(names[..n], byCategory) + [Line(names[n], byCategory[names[n]])]
  }

  /** What `rollUp` makes of the activities: its lines, heaviest first. */
  function Report(acts: seq<Activity>): seq<Line> {
    HeaviestFirst(LinesFor(Names(acts), acts))
  }

  /** The map holds the tally of every name met so far, in the order they were met. */
  ghost predicate Gathered(names: seq<string>, byCategory: map<string, Tally>, acts: seq<Activity>) {
    && names == Names(acts)
    && (forall name :: name in byCategory <==> name in names)
    && (forall name :: name in byCategory ==> byCategory[name] == TallyOf(acts, name))
    && (forall name :: name !in byCategory ==> TallyOf(acts, name) == ZERO)
  }

  lemma GatherNext(names: seq<string>, byCategory: map<string, Tally>, acts: seq<Activity>, i: nat)
    requires i < |acts| && Gathered(names, byCategory, acts[..i])
    ensures var a := acts[i];
      var name := a.deliverable.name;
      if !DidHappen(a) then Gathered(names, byCategory, acts[..i + 1])
      else
        var line := if name in byCategory then byCategory[name] else ZERO;
        Gathered(if name in byCategory then names else names + [name],
                 byCategory[name := Merge(line, One(a))], acts[..i + 1])
  {
    hide TallyOf, Merge, One;
    var a := acts[i];
    assert acts[..i + 1][..i] == acts[..i];
    forall name
      ensures TallyOf(acts[..i + 1], name)
           == if DidHappen(a) && a.deliverable.name == name then Merge(TallyOf(acts[..i], name), One(a))
              else TallyOf(acts[..i], name)
    {
      TallyNext(acts[..i], a, name);
      assert acts[..i] + [a] == acts[..i + 1];
    }
  }

  lemma TallyNext(acts: seq<Activity>, a: Activity, name: string)
    ensures TallyOf(acts + [a], name)
         == if DidHappen(a) && a.deliverable.name == name then Merge(TallyOf(acts, name), One(a))
            else TallyOf(acts, name)
  {
    var before := Members(acts, name);
    assert (acts + [a])[..|acts|] == acts;
    assert (before + [a])[..|before|] == before && before + [] == before;
  }

  lemma {:induction false} ValuesAreLines(names: seq<string>, byCategory: map<string, Tally>, acts: seq<Activity>)
    requires forall k :: 0 <= k < |names| ==> names[k] in byCategory && byCategory[names[k]] == TallyOf(acts, names[k])
    ensures Values(names, byCategory) == LinesFor(names, acts)
  {
    if names == [] {
    } else {
      ValuesAreLines(names[..|names| - 1], byCategory, acts);
    }
  }

  // ------------------------------------------------------- from the payload to the activity

  /** The deliverables by their codes and by their names in lower case, and the categories' names. */
  datatype Taxonomy = Taxonomy(
    byCode: map<string, Deliverable>,
    byName: map<string, Deliverable>,
    byCategory: map<string, string>,
    fallback: Deliverable)

  /** An activity as it is sent. */
  datatype Payload = Payload(
    durationHours: real,
    status: Option<string>,
    startTime: Option<int>,
    deliverableCode: Option<string>,
    categoryCode: string,
    quantity: Stated,
    remarks: Option<string>)

  /** `deliverableNamed` */
  function DeliverableNamed(t: Taxonomy, name: string): Option<Deliverable> {
    var key := Lower(Trim(name));
    if key in t.byName then Some(t.byName[key]) else None
  }

  /** `deliverableFor`: by its own code, else by its category's name, else the fallback. */
  function DeliverableFor(t: Taxonomy, code: Option<string>, category: string): Deliverable {
    if code.Some? && code.value != "" && code.value in t.byCode then t.byCode[code.value]
    else if category != "" && category in t.byCategory && t.byCategory[category] != ""
         && DeliverableNamed(t, t.byCategory[category]).Some? then
      DeliverableNamed(t, t.byCategory[category]).value
    else t.fallback
  }

  /** A code that is known. */
  predicate Known(t: Taxonomy, code: Option<string>) {
    code.Some? && code.value != "" && code.value in t.byCode
  }

  /**
   * A known code decides, whatever the category. Without one the category does: its
   * name, in any case and with any space around it, is looked up; and what has
   * neither goes by the fallback.
   */
  lemma TheCodeDecides(t: Taxonomy, code: Option<string>, category: string, left: string, name: string, right: string)
    requires AllSpace(left) && AllSpace(right) && name != ""
    ensures Known(t, code) ==> DeliverableFor(t, code, category) == t.byCode[code.value]
    ensures !Known(t, code) ==> DeliverableFor(t, code, category) == DeliverableFor(t, None, category)
    ensures category !in t.byCategory ==> DeliverableFor(t, None, category) == t.fallback
    ensures category != "" && category in t.byCategory && t.byCategory[category] == left + name + right ==>
      DeliverableFor(t, None, category)
        == if Lower(Trim(name)) in t.byName then t.byName[Lower(Trim(name))] else t.fallback
    ensures DeliverableNamed(t, Lower(name)) == DeliverableNamed(t, name)
  {
    hide Lower, Trim;
    TrimOfPadded(left, name, right);
    LowerOfTrimmed(name);
  }

  function Resolve(t: Taxonomy, p: Payload): Activity {
    Activity(p.durationHours, p.status, p.startTime, DeliverableFor(t, p.deliverableCode, p.categoryCode), p.quantity)
  }

  function ResolveAll(t: Taxonomy, ps: seq<Payload>): (acts: seq<Activity>)
    ensures |acts| == |ps| && forall i :: 0 <= i < |ps| ==> acts[i] == Resolve(t, ps[i])
  {
    if ps == [] then [] else ResolveAll(t, ps[..|ps| - 1]) + [Resolve(t, ps[|ps| - 1])]
  }

  /** `distinct` of the remarks: those that are not blank, untrimmed, in first-seen order. */
  function RemarksOf(ps: seq<Payload>): seq<string> {
    if ps == [] then []
    else
      var before, r := RemarksOf(ps[..|ps| - 1]), ps[|ps| - 1].remarks;
      if r.Some? && Trim(r.value) != "" && r.value !in before then before + [r.value] else before
  }

  /** Whatever the activities came to, each remark that is not blank is kept once, the first in front. */
  lemma {:induction false} RemarksAreKeptOnce(ps: seq<Payload>, remark: string)
    ensures Distinct(RemarksOf(ps))
    ensures remark in RemarksOf(ps)
      <==> Trim(remark) != "" && exists i :: 0 <= i < |ps| && ps[i].remarks == Some(remark)
    ensures forall n :: 0 <= n <= |ps| ==> RemarksOf(ps[..n]) <= RemarksOf(ps)
  {
    hide Trim;
    if ps == [] {
    } else {
      var last := |ps| - 1;
      RemarksAreKeptOnce(ps[..last], remark);
      forall n | 0 <= n <= |ps| ensures RemarksOf(ps[..n]) <= RemarksOf(ps) {
        if n <= last {
          assert ps[..last][..n] == ps[..n];
        } else {
          assert ps[..n] == ps;
        }
      }
    }
  }

  lemma WhenGathered(names: seq<string>, byCategory: map<string, Tally>, acts: seq<Activity>)
    requires Gathered(names, byCategory, acts)
    ensures forall k :: 0 <= k < |names| ==> names[k] in byCategory
    ensures HeaviestFirst(Values(names, byCategory)) == Report(acts)
  {
    hide TallyOf, Names, HeaviestFirst;
    ValuesAreLines(names, byCategory, acts);
  }

  /** `lines.reduce((n, l) => n + l.hours, 0)` */
  method SumHours(lines: seq<Line>) returns (hours: real)
    ensures hours == TotalHours(lines)
  {
    hours := 0.0;
    for i := 0 to |lines|
      invariant hours == TotalHours(lines[..i])
    {
      TotalNext(lines[..i], lines[i]);
      assert lines[..i] + [lines[i]] == lines[..i + 1];
      hours := hours + lines[i].tally.hours;
    }
    assert lines[..|lines|] == lines;
  }

  /** `rollUp` */
  method RollUp(t: Taxonomy, payloads: seq<Payload>)
    returns (lines: seq<Line>, hours: real, remarks: seq<string>)
    ensures lines == Report(ResolveAll(t, payloads))
    ensures hours == TotalHours(lines)
    ensures remarks == RemarksOf(payloads)
  {
    hide Gathered, Merge, One, ToMinutes, Resolve, RemarksOf, Report, HeaviestFirst, Values;
    ghost var acts := ResolveAll(t, payloads);
    var names: seq<string>, byCategory: map<string, Tally> := [], map[];
    assert Gathered(names, byCategory, acts[..0]) by { NothingGathered(); }
    for i := 0 to |payloads|
      invariant Gathered(names, byCategory, acts[..i])
    {
      GatherNext(names, byCategory, acts, i);
      var a := Resolve(t, payloads[i]);
      if !DidHappen(a) { continue; }
      var name := a.deliverable.name;
      var line := if name in byCategory then byCategory[name] else ZERO;
      ghost var before := line;
      line := line.(hours := line.hours + a.durationHours);
      line := line.(minutes := line.minutes + ToMinutes(a.durationHours));
      if a.startTime.Some? {
        var at := a.startTime.value;
        line := line.(firstAt := if line.firstAt.None? then Some(at)
                                 else if line.firstAt.value < at then line.firstAt else Some(at));
      }
      var stated := match a.quantity
        case Missing => QuantityWhenUnstated(a.deliverable)
        case Unknown => None
        case Count(n) => Some(n);
      line := line.(quantity := if line.quantity.None? || stated.None? then None
                                else Some(line.quantity.value + stated.value));
      assert line == Merge(before, One(a)) by { LineIsMerge(before, a, line); }
      if name !in byCategory {
        names := names + [name];
      }
      byCategory := byCategory[name := line];
    }
    assert acts[..|acts|] == acts;
    WhenGathered(names, byCategory, acts);
    lines := HeaviestFirst(Values(names, byCategory));
    hours := SumHours(lines);
    remarks := RemarksOf(payloads);
  }

  lemma NothingGathered()
    ensures Gathered([], map[], [])
  {
  }

  lemma LineIsMerge(before: Tally, a: Activity, line: Tally)
    requires line.hours == before.hours + a.durationHours
    requires line.minutes == before.minutes + ToMinutes(a.durationHours)
    requires line.firstAt == Earlier(before.firstAt, a.startTime)
    requires line.quantity == Add(before.quantity, QuantityOf(a))
    ensures line == Merge(before, One(a))
  {
  }

  // --------------------------------------------------------------------- what a line says

  /** `sumQuantities`: unknown when there is nothing to add or anything is unknown. */
  function SumQuantities(values: seq<Option<int>>): Option<int> {
    if values == [] || None in values then None else Some(SumKnown(values))
  }

  function SumKnown(values: seq<Option<int>>): int {
    if values == [] then 0
    else
      var n := |values| - 1;
      SumKnown(values[..n]) + if values[n].Some? then values[n].value else 0
  }

  function Quantities(acts: seq<Activity>): (qs: seq<Option<int>>)
    ensures |qs| == |acts| && forall k :: 0 <= k < |acts| ==> qs[k] == QuantityOf(acts[k])
  {
    if acts == [] then [] else Quantities(acts[..|acts| - 1]) + [QuantityOf(acts[|acts| - 1])]
  }

  function HoursOf(acts: seq<Activity>): real {
    if acts == [] then 0.0 else HoursOf(acts[..|acts| - 1]) + acts[|acts| - 1].durationHours
  }

  function MinutesOf(acts: seq<Activity>): int {
    if acts == [] then 0 else MinutesOf(acts[..|acts| - 1]) + ToMinutes(acts[|acts| - 1].durationHours)
  }

  /** The hours of everything that happened, whatever line it falls in. */
  function HoursWorked(acts: seq<Activity>): real {
    if acts == [] then 0.0
    else
      var n := |acts| - 1;
      HoursWorked(acts[..n]) + if DidHappen(acts[n]) then acts[n].durationHours else 0.0
  }

  predicate IsEarliest(first: Option<int>, acts: seq<Activity>) {
    && (forall k :: 0 <= k < |acts| && acts[k].startTime.Some? ==>
          first.Some? && first.value <= acts[k].startTime.value)
    && (first.Some? ==> exists k :: 0 <= k < |acts| && acts[k].startTime == first)
  }

  /**
   * What the line over its members says: their hours, the minutes of each rounded on its own,
   * the earliest of their starts, and their quantities added as `sumQuantities`
   * adds them, so that one unknown makes the line unknown.
   */
  lemma TallyMeans(members: seq<Activity>)
    ensures var t := TallyAll(members);
      && t.hours == HoursOf(members)
      && t.minutes == MinutesOf(members)
      && IsEarliest(t.firstAt, members)
      && (t.quantity.None? <==> exists k :: 0 <= k < |members| && QuantityOf(members[k]).None?)
      && (members != [] ==> t.quantity == SumQuantities(Quantities(members)))
  {
    hide HoursOf, MinutesOf, IsEarliest, SumQuantities, TallyAll, QuantityOf;
    HoursTogether(members);
    MinutesAndStart(members);
    QuantityMeans(members);
  }

  lemma {:induction false} HoursTogether(members: seq<Activity>)
    ensures TallyAll(members).hours == HoursOf(members)
  {
    hide ToMinutes, QuantityOf, Add, Earlier;
    if members == [] {
    } else {
      HoursTogether(members[..|members| - 1]);
    }
  }

  lemma {:induction false} MinutesAndStart(members: seq<Activity>)
    ensures TallyAll(members).minutes == MinutesOf(members)
    ensures IsEarliest(TallyAll(members).firstAt, members)
  {
    hide ToMinutes, QuantityOf, Add;
    if members == [] {
    } else {
      hide IsEarliest;
      var n := |members| - 1;
      MinutesAndStart(members[..n]);
      EarliestNext(TallyAll(members[..n]).firstAt, members[..n], members[n]);
      assert members[..n] + [members[n]] == members;
    }
  }

  lemma {:induction false} QuantityMeans(members: seq<Activity>)
    ensures TallyAll(members).quantity.None? <==> exists k :: 0 <= k < |members| && QuantityOf(members[k]).None?
    ensures members != [] ==> TallyAll(members).quantity == SumQuantities(Quantities(members))
  {
    hide ToMinutes, QuantityOf, Earlier;
    if members == [] {
    } else {
      var n := |members| - 1;
      var qs, before := Quantities(members), members[..n];
      QuantityMeans(before);
      assert TallyAll(members).quantity == Add(TallyAll(before).quantity, QuantityOf(members[n]));
      assert qs == Quantities(before) + [QuantityOf(members[n])];
      SumNext(Quantities(before), QuantityOf(members[n]));
      assert forall k :: 0 <= k < n ==> before[k] == members[k];
    }
  }

  lemma SumNext(qs: seq<Option<int>>, q: Option<int>)
    ensures SumQuantities(qs + [q]) == if qs == [] then q else Add(SumQuantities(qs), q)
  {
    assert (qs + [q])[..|qs|] == qs;
    assert SumKnown(qs + [q]) == SumKnown(qs) + if q.Some? then q.value else 0;
    InOneMore(None, qs, q);
  }

  lemma EarliestNext(first: Option<int>, before: seq<Activity>, a: Activity)
    requires IsEarliest(first, before)
    ensures IsEarliest(Earlier(first, a.startTime), before + [a])
  {
    var all := before + [a];
    var e := Earlier(first, a.startTime);
    assert all[|before|] == a;
    if first.Some? && e == first {
      var k :| 0 <= k < |before| && before[k].startTime == first;
      assert all[k].startTime == e;
    }
  }

  // ---------------------------------------------------------------- grouping and order

  lemma MergeLaws(a: Tally, b: Tally, c: Tally)
    ensures Merge(Merge(a, b), c) == Merge(a, Merge(b, c))
    ensures Merge(Merge(a, b), c) == Merge(Merge(a, c), b)
    ensures Merge(a, ZERO) == a == Merge(ZERO, a)
  {
  }

  lemma {:induction false} TallyOfConcat(a: seq<Activity>, b: seq<Activity>, name: string)
    ensures TallyOf(a + b, name) == Merge(TallyOf(a, name), TallyOf(b, name))
    ensures Members(a + b, name) == [] <==> Members(a, name) == [] && Members(b, name) == []
    ensures HoursWorked(a + b) == HoursWorked(a) + HoursWorked(b)
  {
    hide Merge, One;
    if b == [] {
      assert a + b == a;
      MergeLaws(TallyOf(a, name), ZERO, ZERO);
    } else {
      var n := |b| - 1;
      TallyOfConcat(a, b[..n], name);
      assert (a + b)[..|a| + n] == a + b[..n];
      TallyNext(a + b[..n], b[n], name);
      assert a + b[..n] + [b[n]] == a + b && b[..n] + [b[n]] == b;
      TallyNext(b[..n], b[n], name);
      MergeLaws(TallyOf(a, name), TallyOf(b[..n], name), One(b[n]));
    }
  }

  lemma {:induction false} NamesAreOfMembers(acts: seq<Activity>, name: string)
    ensures name in Names(acts) <==> Members(acts, name) != []
  {
    if acts == [] {
    } else {
      NamesAreOfMembers(acts[..|acts| - 1], name);
    }
  }

  lemma {:induction false} NamesAreDistinct(acts: seq<Activity>)
    ensures Distinct(Names(acts))
  {
    if acts == [] {
    } else {
      NamesAreDistinct(acts[..|acts| - 1]);
    }
  }

  /** The tally printed under a name. */
  function Find(lines: seq<Line>, name: string): Option<Tally> {
    if lines == [] then None
    else
      var last := lines[|lines| - 1];
      if last.name == name then Some(last.tally) else Find(lines[..|lines| - 1], name)
  }

  lemma {:induction false} FindIsIn(lines: seq<Line>, name: string)
    ensures Find(lines, name).Some? ==> Line(name, Find(lines, name).value) in lines
    ensures Find(lines, name).None? ==> forall l :: l in lines ==> l.name != name
  {
    if lines == [] {
    } else {
      FindIsIn(lines[..|lines| - 1], name);
    }
  }

  lemma {:induction false} InLinesFor(names: seq<string>, acts: seq<Activity>, l: Line)
    ensures l in LinesFor(names, acts) <==> l.name in names && l.tally == TallyOf(acts, l.name)
  {
    hide TallyOf;
    if names == [] {
    } else {
      InLinesFor(names[..|names| - 1], acts, l);
    }
  }

  /** A report has a line for each name some activity that happened goes by, holding the tally of those. */
  lemma FindInReport(acts: seq<Activity>, name: string)
    ensures Find(Report(acts), name)
         == if Members(acts, name) == [] then None else Some(TallyOf(acts, name))
  {
    hide TallyOf, Names, HeaviestFirst, Members, Find, LinesFor;
    var lines, report := LinesFor(Names(acts), acts), Report(acts);
    HeaviestFirstIsStable(lines, 0.0);
    NamesAreOfMembers(acts, name);
    FindIsIn(report, name);
    assert forall l :: l in report <==> l in multiset(report);
    assert forall l :: l in lines <==> l in multiset(lines);
    InLinesFor(Names(acts), acts, Line(name, TallyOf(acts, name)));
    if Find(report, name).Some? {
      InLinesFor(Names(acts), acts, Line(name, Find(report, name).value));
    }
  }

  lemma {:induction false} LinesForNext(names: seq<string>, acts: seq<Activity>, a: Activity)
    requires Distinct(names)
    ensures TotalHours(LinesFor(names, acts + [a]))
         == TotalHours(LinesFor(names, acts))
          + if DidHappen(a) && a.deliverable.name in names then a.durationHours else 0.0
  {
    hide TallyOf, ToMinutes;
    if names == [] {
    } else {
      var n := |names| - 1;
      LinesForNext(names[..n], acts, a);
      TallyNext(acts, a, names[n]);
      TotalNext(LinesFor(names[..n], acts), Line(names[n], TallyOf(acts, names[n])));
      TotalNext(LinesFor(names[..n], acts + [a]), Line(names[n], TallyOf(acts + [a], names[n])));
    }
  }

  lemma LinesForOneMore(names: seq<string>, name: string, acts: seq<Activity>)
    ensures LinesFor(names + [name], acts) == LinesFor(names, acts) + [Line(name, TallyOf(acts, name))]
  {
    assert (names + [name])[..|names|] == names;
  }

  lemma {:induction false} LinesHoldEveryHour(acts: seq<Activity>)
    ensures TotalHours(LinesFor(Names(acts), acts)) == HoursWorked(acts)
  {
    if acts == [] {
    } else {
      hide TallyOf, ToMinutes, Members, LinesFor, TotalHours;
      var n := |acts| - 1;
      var before, a := acts[..n], acts[n];
      LinesHoldEveryHour(before);
      NamesAreDistinct(before);
      LinesForNext(Names(before), before, a);
      assert before + [a] == acts;
      var name := a.deliverable.name;
      if DidHappen(a) && name !in Names(before) {
        NamesAreOfMembers(before, name);
        NothingYet(before, a);
        TotalNext(LinesFor(Names(before), acts), Line(name, TallyOf(acts, name)));
        LinesForOneMore(Names(before), name, acts);
      }
    }
  }

  lemma NothingYet(before: seq<Activity>, a: Activity)
    requires DidHappen(a) && Members(before, a.deliverable.name) == []
    ensures TallyOf(before + [a], a.deliverable.name).hours == a.durationHours
  {
    TallyNext(before, a, a.deliverable.name);
  }

  /** The total does not depend on how the work is grouped: it is every hour that happened. */
  lemma TotalIsEveryHour(acts: seq<Activity>)
    ensures TotalHours(Report(acts)) == HoursWorked(acts)
  {
    LinesHoldEveryHour(acts);
    HeaviestFirstIsStable(LinesFor(Names(acts), acts), 0.0);
  }

  function MergeFound(a: Option<Tally>, b: Option<Tally>): Option<Tally> {
    if a.None? then b else if b.None? then a else Some(Merge(a.value, b.value))
  }

  /** Rolling up two periods together is merging their reports, name by name. */
  lemma ReportsMerge(a: seq<Activity>, b: seq<Activity>, name: string)
    ensures Find(Report(a + b), name) == MergeFound(Find(Report(a), name), Find(Report(b), name))
    ensures TotalHours(Report(a + b)) == TotalHours(Report(a)) + TotalHours(Report(b))
  {
    hide Report, HoursWorked, Merge, One;
    FindInReport(a, name);
    FindInReport(b, name);
    FindInReport(a + b, name);
    TallyOfConcat(a, b, name);
    MergeLaws(TallyOf(a, name), ZERO, ZERO);
    MergeLaws(TallyOf(b, name), ZERO, ZERO);
    TotalIsEveryHour(a);
    TotalIsEveryHour(b);
    TotalIsEveryHour(a + b);
  }

  lemma {:induction false} SameTallies(a: seq<Activity>, b: seq<Activity>, name: string)
    requires multiset(a) == multiset(b)
    ensures TallyOf(a, name) == TallyOf(b, name)
    ensures Members(a, name) == [] <==> Members(b, name) == []
    ensures HoursWorked(a) == HoursWorked(b)
    decreases |a|
  {
    hide TallyOf, Members, HoursWorked, Merge;
    if a == [] {
      assert |multiset(b)| == 0;
    } else {
      var n := |a| - 1;
      var x, y := TakeLastOut(a, b);
      SameTallies(a[..n], x + y, name);
      TallyOfConcat(a[..n], [a[n]], name);
      TallyOfConcat(x, y, name);
      TallyOfConcat(x, [a[n]], name);
      TallyOfConcat(x + [a[n]], y, name);
      MergeLaws(TallyOf(x, name), TallyOf([a[n]], name), TallyOf(y, name));
    }
  }

  /** The order of the activities changes no line and no total. */
  lemma OrderDoesNotMatter(a: seq<Activity>, b: seq<Activity>, name: string)
    requires multiset(a) == multiset(b)
    ensures Find(Report(a), name) == Find(Report(b), name)
    ensures TotalHours(Report(a)) == TotalHours(Report(b))
  {
    hide Report, HoursWorked, TallyOf, Members;
    SameTallies(a, b, name);
    FindInReport(a, name);
    FindInReport(b, name);
    TotalIsEveryHour(a);
    TotalIsEveryHour(b);
  }

  // ------------------------------------------------------------------- one activity more

  lemma {:induction false} SameLines(names: seq<string>, acts: seq<Activity>, a: Activity)
    requires !DidHappen(a)
    ensures LinesFor(names, acts + [a]) == LinesFor(names, acts)
  {
    hide TallyOf;
    if names == [] {
    } else {
      SameLines(names[..|names| - 1], acts, a);
      TallyNext(acts, a, names[|names| - 1]);
    }
  }

  /**
   * A missed or excused activity changes nothing in the report. Any other one, also
   * one whose status says something else or nothing, adds its hours to the total.
   */
  lemma OnlyAbsencesAreLeftOut(acts: seq<Activity>, a: Activity)
    ensures a.status == Some("MISSED") || a.status == Some("EXCUSED") ==> Report(acts + [a]) == Report(acts)
    ensures a.status != Some("MISSED") && a.status != Some("EXCUSED") ==>
      TotalHours(Report(acts + [a])) == TotalHours(Report(acts)) + a.durationHours
  {
    hide LinesFor, HeaviestFirst, TotalHours;
    assert (acts + [a])[..|acts|] == acts;
    if !DidHappen(a) {
      SameLines(Names(acts), acts, a);
    } else {
      hide Report;
      TotalIsEveryHour(acts);
      TotalIsEveryHour(acts + [a]);
    }
  }

  /**
   * The line of one activity that happened: its own hours, minutes and start, and the
   * quantity stated, unknown when it is stated to be; an occurrence of which nothing
   * is stated counts as one, and anything else is unknown.
   */
  lemma LineOfOne(a: Activity)
    requires a.status != Some("MISSED") && a.status != Some("EXCUSED")
    ensures var quantity :=
        match a.quantity
        case Count(n) => Some(n)
        case Unknown => None
        case Missing => if a.deliverable.counting == Occurrence then Some(1) else None;
      Find(Report([a]), a.deliverable.name)
        == Some(Tally(a.durationHours, ToMinutes(a.durationHours), quantity, a.startTime))
  {
    hide Report, ToMinutes, One, Merge;
    var name := a.deliverable.name;
    FindInReport([a], name);
    TallyNext([], a, name);
    assert [] + [a] == [a] && [a][..0] == [];
    NobodyYet(name);
    TallyOfFirst(a);
  }

  lemma NobodyYet(name: string)
    ensures Members([], name) == [] && TallyOf([], name) == ZERO
  {
  }

  lemma TallyOfFirst(a: Activity)
    ensures Merge(ZERO, One(a)) == Tally(a.durationHours, ToMinutes(a.durationHours), QuantityOf(a), a.startTime)
  {
    hide ToMinutes;
  }
}
