/**
 * The provider's model chain: models tried in order, one busy model skipped
 * until its cooldown is over, and every request counted.
 */
module Gemini {

  datatype CapacityKind = Burst | Daily | Timeout

  /** How one request ended: see `attempt`. */
  datatype Reply =
    | Answered
    | Busy(kind: CapacityKind)     // 429, 503 or a timeout: a capacity failure, retryable
    | Unreachable                  // another transport error: retryable, but no capacity failure
    | Rejected                     // any other HTTP status: not retryable

  /** What `postGenerate` returns. */
  datatype Outcome = NotConfigured | NothingAttempted | Answer | OutOfQuota | Failed(reply: Reply)

  /** What happens at one model of the chain: when it is looked up, and when and how a request ends. */
  datatype Turn = Turn(model: string, asked: int, ended: int, reply: Reply)

  datatype Event =
    | Request(model: string, at: int)
    | Refusal(model: string, at: int, kind: CapacityKind)

  datatype Config = Config(dailyMs: nat, burstMs: nat)

  function Cooldown(cfg: Config, kind: CapacityKind): nat {
    if kind == Daily then cfg.dailyMs else cfg.burstMs
  }

  predicate Retryable(r: Reply) {
    r.Busy? || r.Unreachable?
  }

  /** The model is known to be busy at the time. */
  predicate Cooling(until: map<string, int>, model: string, now: int) {
    model in until && until[model] > now
  }

  /** `unavailableUntil` after a request to the model has ended. */
  function Remember(until: map<string, int>, t: Turn, cfg: Config): map<string, int> {
    match t.reply
    case Answered => until - {t.model}
    case Busy(kind) => until[t.model := t.ended + Cooldown(cfg, kind)]
    case _ => until
  }

  function EventsOf(t: Turn): seq<Event> {
    [Request(t.model, t.asked)] + if t.reply.Busy? then [Refusal(t.model, t.ended, t.reply.kind)] else []
  }

  /** The memory after the chain, what was sent and refused on the way, and what is returned. */
  datatype Trace = Trace(until: map<string, int>, events: seq<Event>, attempts: nat, last: Outcome)

  /** The chain from the first turn on, `last` being what is returned if nothing more is tried. */
  function Walk(until: map<string, int>, turns: seq<Turn>, last: Outcome, cfg: Config): Trace
    decreases |turns|
  {
    if turns == [] then Trace(until, [], 0, last)
    else
      var t := turns[0];
      if Cooling(until, t.model, t.asked) then Walk(until, turns[1..], OutOfQuota, cfg)
      else
        var next := Remember(until, t, cfg);
        if t.reply.Answered? then Trace(next, EventsOf(t), 1, Answer)
        else if !Retryable(t.reply) then Trace(next, EventsOf(t), 1, Failed(t.reply))
        else
          var rest := Walk(next, turns[1..], Failed(t.reply), cfg);
          Trace(rest.until, EventsOf(t) + rest.events, rest.attempts + 1, rest.last)
  }

  // ------------------------------------------------------------------------ the provider

  class Provider {
    const cfg: Config
    var unavailableUntil: map<string, int>
    var outboundCalls: nat
    /** Every request sent and every capacity refusal received, in order. */
    ghost var log: seq<Event>

    constructor (cfg: Config)
      ensures this.cfg == cfg && unavailableUntil == map[] && outboundCalls == 0 && log == []
    {
      this.cfg, unavailableUntil, outboundCalls, log := cfg, map[], 0, [];
    }

    method RememberCapacity(model: string, kind: CapacityKind, now: int)
      modifies this`unavailableUntil
      ensures unavailableUntil == old(unavailableUntil)[model := now + Cooldown(cfg, kind)]
    {
      unavailableUntil := unavailableUntil[model := now + if kind == Daily then cfg.dailyMs else cfg.burstMs];
    }

    /** `postGenerate`, given what each model of the chain would do. */
    method PostGenerate(configured: bool, turns: seq<Turn>) returns (outcome: Outcome)
      modifies this
      ensures !configured ==>
        && outcome == NotConfigured && unavailableUntil == old(unavailableUntil)
        && outboundCalls == old(outboundCalls) && log == old(log)
      ensures configured ==>
        var tr := Walk(old(unavailableUntil), turns, NothingAttempted, cfg);
        && outcome == tr.last
        && unavailableUntil == tr.until
        && outboundCalls == old(outboundCalls) + tr.attempts
        && log == old(log) + tr.events
    {
      if !configured { return NotConfigured; }
      ghost var whole := Walk(unavailableUntil, turns, NothingAttempted, cfg);
      ghost var before := log;
      outcome := NothingAttempted;
      for i := 0 to |turns|
        invariant var tr := Walk(unavailableUntil, turns[i..], outcome, cfg);
          && whole.until == tr.until && whole.last == tr.last
          && old(outboundCalls) + whole.attempts == outboundCalls + tr.attempts
          && before + whole.events == log + tr.events
      {
        var t := turns[i];
        assert turns[i..][1..] == turns[i + 1..];
        if t.model in unavailableUntil && unavailableUntil[t.model] > t.asked {
          outcome := OutOfQuota;
          continue;
        }
        outboundCalls := outboundCalls + 1;
        ghost var rest := Walk(Remember(unavailableUntil, t, cfg), turns[i + 1..], Failed(t.reply), cfg);
        assert log + (EventsOf(t) + rest.events) == log + EventsOf(t) + rest.events;
        log := log + EventsOf(t);
        if t.reply.Answered? {
          unavailableUntil := unavailableUntil - {t.model};
          return Answer;
        }
        outcome := Failed(t.reply);
        if t.reply.Busy? {
          RememberCapacity(t.model, t.reply.kind, t.ended);
        }
        if !Retryable(t.reply) { return; }
      }
      assert turns[|turns|..] == [];
    }
  }

  // ------------------------------------------------------------------- what one call does

  /** The models sent a request, in order. */
  function Sent(events: seq<Event>): seq<string> {
    if events == [] then []
    else (if events[0].Request? then [events[0].model] else []) + Sent(events[1..])
  }

  predicate DistinctModels(turns: seq<Turn>) {
    forall i, j :: 0 <= i < j < |turns| ==> turns[i].model != turns[j].model
  }

  /** The chain moves on from this turn: its model was cooling down, or it was busy or not reached. */
  predicate MovesOn(until: map<string, int>, t: Turn) {
    Cooling(until, t.model, t.asked) || t.reply.Busy? || t.reply.Unreachable?
  }

  /** The `i`-th model is sent a request: it is not cooling down, and the chain moved on from every earlier one. */
  predicate IsAsked(until: map<string, int>, turns: seq<Turn>, i: nat)
    requires i < |turns|
  {
    && !Cooling(until, turns[i].model, turns[i].asked)
    && forall k :: 0 <= k < i ==> MovesOn(until, turns[k])
  }

  /** The models asked from the `i`-th on, in chain order. */
  function Asked(until: map<string, int>, turns: seq<Turn>, i: nat): seq<string>
    requires i <= |turns|
    decreases |turns| - i
  {
    if i == |turns| then []
    else (if IsAsked(until, turns, i) then [turns[i].model] else []) + Asked(until, turns, i + 1)
  }

  lemma {:induction false} NobodyAskedAfterStop(until: map<string, int>, turns: seq<Turn>, i: nat, k: nat)
    requires k < i <= |turns| && !MovesOn(until, turns[k])
    ensures Asked(until, turns, i) == []
    decreases |turns| - i
  {
    if i < |turns| {
      NobodyAskedAfterStop(until, turns, i + 1, k);
    }
  }

  predicate SameFor(a: map<string, int>, b: map<string, int>, model: string) {
    if model in a then model in b && a[model] == b[model] else model !in b
  }

  lemma {:induction false} WalkAsks(
      until: map<string, int>, now: map<string, int>, turns: seq<Turn>, i: nat, last: Outcome, cfg: Config)
    requires DistinctModels(turns) && i <= |turns|
    requires forall k :: 0 <= k < i ==> MovesOn(until, turns[k])
    requires forall k :: i <= k < |turns| ==> SameFor(now, until, turns[k].model)
    ensures var tr := Walk(now, turns[i..], last, cfg);
      Sent(tr.events) == Asked(until, turns, i) && tr.attempts == |Asked(until, turns, i)|
    decreases |turns| - i
  {
    if i == |turns| {
    } else {
      hide IsAsked, EventsOf, Sent, Remember, SameFor, DistinctModels;
      var t := turns[i];
      assert turns[i..][1..] == turns[i + 1..];
      AskedNow(until, now, turns, i);
      OthersAsBefore(until, now, turns, i, cfg);
      if Cooling(now, t.model, t.asked) {
        WalkAsks(until, now, turns, i + 1, OutOfQuota, cfg);
      } else if t.reply.Answered? || !Retryable(t.reply) {
        NobodyAskedAfterStop(until, turns, i + 1, i);
        SentOfTurn(t, []);
        assert EventsOf(t) + [] == EventsOf(t);
        NothingSent();
      } else {
        var next := Remember(now, t, cfg);
        WalkAsks(until, next, turns, i + 1, Failed(t.reply), cfg);
        SentOfTurn(t, Walk(next, turns[i + 1..], Failed(t.reply), cfg).events);
      }
    }
  }

  lemma AskedNow(until: map<string, int>, now: map<string, int>, turns: seq<Turn>, i: nat)
    requires i < |turns| && SameFor(now, until, turns[i].model)
    requires forall k :: 0 <= k < i ==> MovesOn(until, turns[k])
    ensures IsAsked(until, turns, i) <==> !Cooling(now, turns[i].model, turns[i].asked)
    ensures Cooling(now, turns[i].model, turns[i].asked) <==> Cooling(until, turns[i].model, turns[i].asked)
  {
  }

  lemma OthersAsBefore(until: map<string, int>, now: map<string, int>, turns: seq<Turn>, i: nat, cfg: Config)
    requires i < |turns| && DistinctModels(turns)
    requires forall k :: i <= k < |turns| ==> SameFor(now, until, turns[k].model)
    ensures forall k :: i < k < |turns| ==> SameFor(Remember(now, turns[i], cfg), until, turns[k].model)
  {
  }

  lemma NothingSent()
    ensures Sent([]) == []
  {
  }

  lemma SentOfTurn(t: Turn, rest: seq<Event>)
    ensures Sent(EventsOf(t) + rest) == [t.model] + Sent(rest)
  {
    var all := EventsOf(t) + rest;
    if t.reply.Busy? {
      assert all[1..] == [Refusal(t.model, t.ended, t.reply.kind)] + rest;
      assert all[1..][1..] == rest;
    } else {
      assert all[1..] == rest;
    }
  }

  /**
   * One call asks models in chain order, each at most once: exactly those that
   * were not cooling down and from whose predecessors the chain moved on. The
   * count of outbound calls grows by exactly that many.
   */
  lemma OneCallAsks(until: map<string, int>, turns: seq<Turn>, cfg: Config)
    requires DistinctModels(turns)
    ensures var tr := Walk(until, turns, NothingAttempted, cfg);
      Sent(tr.events) == Asked(until, turns, 0) && tr.attempts == |Asked(until, turns, 0)|
  {
    assert turns[0..] == turns;
    WalkAsks(until, until, turns, 0, NothingAttempted, cfg);
  }

  // ----------------------------------------------------------------- what one call returns

  /** The `i`-th turn is where the call ends: nothing stops it before, and there it stops or the chain is over. */
  predicate EndsAt(until: map<string, int>, turns: seq<Turn>, i: nat) {
    && i < |turns|
    && (forall k :: 0 <= k < i ==> MovesOn(until, turns[k]))
    && (i == |turns| - 1 || !MovesOn(until, turns[i]))
  }

  predicate AskedAndAnswered(until: map<string, int>, turns: seq<Turn>, i: nat) {
    i < |turns| && IsAsked(until, turns, i) && turns[i].reply == Answered
  }

  /** The last model reached was asked, and failed in this way. */
  predicate AskedAndFailed(until: map<string, int>, turns: seq<Turn>, i: nat, reply: Reply) {
    EndsAt(until, turns, i) && IsAsked(until, turns, i) && turns[i].reply == reply != Answered
  }

  /** The chain ran to its end, and its last model was cooling down. */
  predicate RanOut(until: map<string, int>, turns: seq<Turn>) {
    && turns != []
    && EndsAt(until, turns, |turns| - 1)
    && Cooling(until, turns[|turns| - 1].model, turns[|turns| - 1].asked)
  }

  lemma {:induction false} WalkReturns(
      until: map<string, int>, now: map<string, int>, turns: seq<Turn>, i: nat, last: Outcome, cfg: Config)
    returns (e: nat)
    requires DistinctModels(turns) && i < |turns|
    requires forall k :: 0 <= k < i ==> MovesOn(until, turns[k])
    requires forall k :: i <= k < |turns| ==> SameFor(now, until, turns[k].model)
    ensures i <= e && EndsAt(until, turns, e)
    ensures Walk(now, turns[i..], last, cfg).last
         == if Cooling(until, turns[e].model, turns[e].asked) then OutOfQuota
            else if turns[e].reply == Answered then Answer
            else Failed(turns[e].reply)
    decreases |turns| - i
  {
    hide IsAsked, EventsOf, Remember, SameFor, DistinctModels;
    var t := turns[i];
    assert turns[i..][1..] == turns[i + 1..];
    AskedNow(until, now, turns, i);
    OthersAsBefore(until, now, turns, i, cfg);
    if !MovesOn(until, t) || i == |turns| - 1 {
      e := i;
      assert turns[i + 1..] == [] || !MovesOn(until, t);
    } else if Cooling(now, t.model, t.asked) {
      e := WalkReturns(until, now, turns, i + 1, OutOfQuota, cfg);
    } else {
      e := WalkReturns(until, Remember(now, t, cfg), turns, i + 1, Failed(t.reply), cfg);
    }
  }

  lemma EndsOnce(until: map<string, int>, turns: seq<Turn>, i: nat, j: nat)
    requires EndsAt(until, turns, i) && EndsAt(until, turns, j)
    ensures i == j
  {
    hide MovesOn;
  }

  /**
   * What a call returns, from what happened at its models: an answer if and only if
   * one that was asked answered, the failure of the last model reached if and only
   * if that was asked and failed, word of the quota if and only if the chain ran
   * out on a model that was cooling down, and that nothing was tried if and only if
   * there was nothing to try.
   */
  lemma OneCallReturns(until: map<string, int>, turns: seq<Turn>, cfg: Config, reply: Reply)
    requires DistinctModels(turns)
    ensures var last := Walk(until, turns, NothingAttempted, cfg).last;
      && (last == Answer <==> exists i: nat :: AskedAndAnswered(until, turns, i))
      && (last == Failed(reply) <==> exists i: nat :: AskedAndFailed(until, turns, i, reply))
      && (last == OutOfQuota <==> RanOut(until, turns))
      && (last == NothingAttempted <==> turns == [])
  {
    if turns == [] {
    } else {
      hide Walk, DistinctModels;
      assert turns[0..] == turns;
      var e := WalkReturns(until, until, turns, 0, NothingAttempted, cfg);
      WhereItEnds(until, turns, e);
      if i: nat :| AskedAndFailed(until, turns, i, reply) {
        EndsOnce(until, turns, e, i);
      }
      assert AskedAndFailed(until, turns, e, turns[e].reply) || turns[e].reply == Answered
        || Cooling(until, turns[e].model, turns[e].asked);
      assert AskedAndAnswered(until, turns, e) || turns[e].reply != Answered
        || Cooling(until, turns[e].model, turns[e].asked);
      if EndsAt(until, turns, |turns| - 1) {
        EndsOnce(until, turns, e, |turns| - 1);
      }
    }
  }

  /** The model where the call ends is asked unless it is cooling down; and a model that answers ends the call. */
  lemma WhereItEnds(until: map<string, int>, turns: seq<Turn>, e: nat)
    requires EndsAt(until, turns, e)
    ensures IsAsked(until, turns, e) <==> !Cooling(until, turns[e].model, turns[e].asked)
    ensures Cooling(until, turns[e].model, turns[e].asked) ==> e == |turns| - 1
    ensures forall i: nat :: AskedAndAnswered(until, turns, i) ==> i == e
  {
    forall i: nat | AskedAndAnswered(until, turns, i) ensures i == e {
      assert EndsAt(until, turns, i);
      EndsOnce(until, turns, i, e);
    }
  }

  // ---------------------------------------------------------------- cooldowns over a run

  /** Readings of a clock that, at `t` before them, never goes back. */
  predicate Clocked(t: int, turns: seq<Turn>)
    decreases |turns|
  {
    turns != [] ==> t <= turns[0].asked <= turns[0].ended && Clocked(turns[0].ended, turns[1..])
  }

  function ClockAfter(t: int, turns: seq<Turn>): int {
    if turns == [] then t else turns[|turns| - 1].ended
  }

  /** When a refusal has been waited for: the long cooldown for the day's quota, the short one otherwise. */
  function Over(e: Event, cfg: Config): int
    requires e.Refusal?
  {
    match e.kind
    case Daily => e.at + cfg.dailyMs
    case Burst => e.at + cfg.burstMs
    case Timeout => e.at + cfg.burstMs
  }

  /** No request to a model comes before an earlier refusal by it has been waited for. */
  predicate Patient(log: seq<Event>, cfg: Config) {
    forall i, j :: 0 <= i < j < |log| && log[i].Refusal? && log[j].Request? && log[i].model == log[j].model ==>
      Over(log[i], cfg) <= log[j].at
  }

  /** Every refusal is either over by now or remembered for at least its cooldown. */
  predicate Remembered(until: map<string, int>, log: seq<Event>, now: int, cfg: Config) {
    forall i :: 0 <= i < |log| && log[i].Refusal? ==>
      var e := log[i];
      Over(e, cfg) <= now || (e.model in until && Over(e, cfg) <= until[e.model])
  }

  /** What is remembered of a model is a refusal of its own. */
  predicate Grounded(until: map<string, int>, log: seq<Event>, cfg: Config) {
    forall m :: m in until ==>
      exists i :: 0 <= i < |log| && log[i].Refusal? && log[i].model == m && Over(log[i], cfg) == until[m]
  }

  lemma TurnIsPatient(until: map<string, int>, log: seq<Event>, now: int, t: Turn, cfg: Config)
    requires Patient(log, cfg) && Remembered(until, log, now, cfg)
    requires now <= t.asked <= t.ended && !Cooling(until, t.model, t.asked)
    ensures Patient(log + EventsOf(t), cfg)
    ensures Remembered(Remember(until, t, cfg), log + EventsOf(t), t.ended, cfg)
  {
    var all := log + EventsOf(t);
    forall i | 0 <= i < |log| && log[i].Refusal? && log[i].model == t.model
      ensures Over(log[i], cfg) <= t.asked
    {
    }
    assert forall i :: 0 <= i < |log| ==> all[i] == log[i];
  }

  lemma {:induction false} WalkIsPatient(
      until: map<string, int>, log: seq<Event>, now: int, turns: seq<Turn>, last: Outcome, cfg: Config)
    requires Patient(log, cfg) && Remembered(until, log, now, cfg) && Clocked(now, turns)
    ensures var tr := Walk(until, turns, last, cfg);
      && Patient(log + tr.events, cfg)
      && Remembered(tr.until, log + tr.events, ClockAfter(now, turns), cfg)
    decreases |turns|
  {
    hide Patient, Remembered, Remember, EventsOf, Cooling;
    if turns == [] {
      assert log + [] == log;
    } else {
      var t, others := turns[0], turns[1..];
      ClockGoesOn(t.ended, others);
      if Cooling(until, t.model, t.asked) {
        Later(until, log, now, t.ended, cfg);
        WalkIsPatient(until, log, t.ended, others, OutOfQuota, cfg);
      } else {
        TurnIsPatient(until, log, now, t, cfg);
        var next := Remember(until, t, cfg);
        if t.reply.Answered? || !Retryable(t.reply) {
          Later(next, log + EventsOf(t), t.ended, ClockAfter(now, turns), cfg);
        } else {
          WalkIsPatient(next, log + EventsOf(t), t.ended, others, Failed(t.reply), cfg);
          var rest := Walk(next, others, Failed(t.reply), cfg);
          assert log + (EventsOf(t) + rest.events) == log + EventsOf(t) + rest.events;
        }
      }
    }
  }

  lemma {:induction false} ClockGoesOn(t: int, turns: seq<Turn>)
    requires Clocked(t, turns)
    ensures t <= ClockAfter(t, turns)
    decreases |turns|
  {
    if turns == [] {
    } else {
      ClockGoesOn(turns[0].ended, turns[1..]);
    }
  }

  lemma Later(until: map<string, int>, log: seq<Event>, now: int, later: int, cfg: Config)
    requires Remembered(until, log, now, cfg) && now <= later
    ensures Remembered(until, log, later, cfg)
  {
  }

  /** A run of calls, one after another. */
  function WalkAll(until: map<string, int>, calls: seq<seq<Turn>>, cfg: Config): Trace {
    if calls == [] then Trace(until, [], 0, NothingAttempted)
    else
      var before := WalkAll(until, calls[..|calls| - 1], cfg);
      var tr := Walk(before.until, calls[|calls| - 1], NothingAttempted, cfg);
      Trace(tr.until, before.events + tr.events, before.attempts + tr.attempts, tr.last)
  }

  /** The clock readings of all the calls, in order. */
  function AllTurns(calls: seq<seq<Turn>>): seq<Turn> {
    if calls == [] then [] else AllTurns(calls[..|calls| - 1]) + calls[|calls| - 1]
  }

  lemma {:induction false} ClockedSplits(t: int, a: seq<Turn>, b: seq<Turn>)
    requires Clocked(t, a + b)
    ensures Clocked(t, a) && Clocked(ClockAfter(t, a), b)
    ensures ClockAfter(ClockAfter(t, a), b) == ClockAfter(t, a + b)
    decreases |a|
  {
    if a == [] {
      assert a + b == b;
    } else {
      assert (a + b)[1..] == a[1..] + b;
      ClockedSplits(a[0].ended, a[1..], b);
    }
  }

  /** In any run a model that refused for capacity is sent no request until its cooldown is over. */
  lemma {:induction false} RunIsPatient(t: int, calls: seq<seq<Turn>>, cfg: Config)
    requires Clocked(t, AllTurns(calls))
    ensures var tr := WalkAll(map[], calls, cfg);
      Patient(tr.events, cfg) && Remembered(tr.until, tr.events, ClockAfter(t, AllTurns(calls)), cfg)
  {
    if calls == [] {
    } else {
      hide Patient, Remembered, Walk;
      var n := |calls| - 1;
      ClockedSplits(t, AllTurns(calls[..n]), calls[n]);
      RunIsPatient(t, calls[..n], cfg);
      var before := WalkAll(map[], calls[..n], cfg);
      WalkIsPatient(before.until, before.events, ClockAfter(t, AllTurns(calls[..n])), calls[n],
                    NothingAttempted, cfg);
    }
  }

  lemma TurnIsGrounded(until: map<string, int>, log: seq<Event>, t: Turn, cfg: Config)
    requires Grounded(until, log, cfg)
    ensures Grounded(Remember(until, t, cfg), log + EventsOf(t), cfg)
  {
    var after, all := Remember(until, t, cfg), log + EventsOf(t);
    forall m | m in after
      ensures exists i :: 0 <= i < |all| && all[i].Refusal? && all[i].model == m && Over(all[i], cfg) == after[m]
    {
      if m == t.model && t.reply.Busy? {
        assert all[|log| + 1] == Refusal(t.model, t.ended, t.reply.kind);
      } else {
        var i :| 0 <= i < |log| && log[i].Refusal? && log[i].model == m && Over(log[i], cfg) == until[m];
        assert all[i] == log[i];
      }
    }
  }

  lemma {:induction false} WalkIsGrounded(
      until: map<string, int>, log: seq<Event>, turns: seq<Turn>, last: Outcome, cfg: Config)
    requires Grounded(until, log, cfg)
    ensures var tr := Walk(until, turns, last, cfg); Grounded(tr.until, log + tr.events, cfg)
    decreases |turns|
  {
    hide Grounded, Remember, EventsOf, Cooling;
    if turns == [] {
      assert log + [] == log;
    } else {
      var t, others := turns[0], turns[1..];
      if Cooling(until, t.model, t.asked) {
        WalkIsGrounded(until, log, others, OutOfQuota, cfg);
      } else {
        TurnIsGrounded(until, log, t, cfg);
        var next := Remember(until, t, cfg);
        if !t.reply.Answered? && Retryable(t.reply) {
          WalkIsGrounded(next, log + EventsOf(t), others, Failed(t.reply), cfg);
          var rest := Walk(next, others, Failed(t.reply), cfg);
          assert log + (EventsOf(t) + rest.events) == log + EventsOf(t) + rest.events;
        }
      }
    }
  }

  lemma {:induction false} RunIsGrounded(calls: seq<seq<Turn>>, cfg: Config)
    ensures var tr := WalkAll(map[], calls, cfg); Grounded(tr.until, tr.events, cfg)
  {
    if calls == [] {
    } else {
      hide Grounded, Walk;
      var n := |calls| - 1;
      RunIsGrounded(calls[..n], cfg);
      var before := WalkAll(map[], calls[..n], cfg);
      WalkIsGrounded(before.until, before.events, calls[n], NothingAttempted, cfg);
    }
  }

  /** After any run a model is skipped if and only if a refusal of its own has not been waited for yet. */
  lemma SkippedExactly(t: int, calls: seq<seq<Turn>>, cfg: Config, model: string, now: int)
    requires Clocked(t, AllTurns(calls)) && ClockAfter(t, AllTurns(calls)) <= now
    ensures var tr := WalkAll(map[], calls, cfg);
      Cooling(tr.until, model, now) <==> StillRefused(tr.events, model, now, cfg)
  {
    hide WalkAll, AllTurns, Clocked;
    var tr := WalkAll(map[], calls, cfg);
    RunIsPatient(t, calls, cfg);
    RunIsGrounded(calls, cfg);
    if Cooling(tr.until, model, now) {
      var i :| 0 <= i < |tr.events| && tr.events[i].Refusal? && tr.events[i].model == model
               && Over(tr.events[i], cfg) == tr.until[model];
    }
  }

  predicate StillRefused(log: seq<Event>, model: string, now: int, cfg: Config) {
    exists i :: 0 <= i < |log| && log[i].Refusal? && log[i].model == model && now < Over(log[i], cfg)
  }
}
