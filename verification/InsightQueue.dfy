/** The page's bounded fetch queue: src/app/_lib/insight-queue.ts. */
module InsightQueue {
  import opened Seqs

  /** MAX_CONCURRENT_INSIGHT_FETCHES */
  const LIMIT := 3

  /**
   * What the queue has done so far: the jobs still waiting, the jobs started in
   * the order they were, and which of those, by position, have not settled yet.
   */
  datatype State<Job> = State(waiting: seq<Job>, started: seq<Job>, running: set<nat>)

  /** Starting waiting jobs while there is room. */
  function Fill<Job>(s: State<Job>): State<Job>
    decreases |s.waiting|
  {
    if |s.running| < LIMIT && s.waiting != [] then Fill(StartNext(s)) else s
  }

  function StartNext<Job>(s: State<Job>): State<Job>
    requires s.waiting != []
  {
    State(s.waiting[1..], s.started + [s.waiting[0]], s.running + {|s.started|})
  }

  // --------------------------------------------------------------------------- the queue

  class Queue<Job> {
    var queue: seq<Job>
    var inFlight: nat
    ghost var started: seq<Job>
    ghost var running: set<nat>

    ghost predicate Valid()
      reads this
    {
      && inFlight == |running|
      && forall k :: k in running ==> k < |started|
    }

    ghost function Contents(): State<Job>
      reads this
    {
      State(queue, started, running)
    }

    constructor ()
      ensures Valid() && Contents() == State([], [], {})
    {
      queue, inFlight, started, running := [], 0, [], {};
    }

    /** `pump` */
    method Pump()
      requires Valid()
      modifies this
      ensures Valid() && Contents() == Fill(old(Contents()))
    {
      while inFlight < LIMIT && |queue| > 0
        invariant Valid() && Fill(Contents()) == Fill(old(Contents()))
        decreases |queue|
      {
        ghost var job := queue[0];
        queue := queue[1..];
        inFlight := inFlight + 1;
        running := running + {|started|};
        started := started + [job];
      }
    }

    /** `enqueueInsightFetch` */
    method Enqueue(job: Job)
      requires Valid()
      modifies this
      ensures Valid() && Contents() == Next(old(Contents()), Enqueued(job))
    {
      queue := queue + [job];
      Pump();
    }

    /** What happens when a started job settles, well or badly: the `finally` callback. */
    method Settle(ghost position: nat)
      requires Valid() && position in running
      modifies this
      ensures Valid() && Contents() == Next(old(Contents()), Settled(position))
    {
      inFlight := inFlight - 1;
      running := running - {position};
      Pump();
    }

    /** `insightQueueDepth` */
    method Depth() returns (n: nat)
      requires Valid()
      ensures n == |Contents().waiting| + |Contents().running|
    {
      n := |queue| + inFlight;
    }
  }

  // ---------------------------------------------------------------------------- all runs

  datatype Event<Job> = Enqueued(job: Job) | Settled(position: nat)

  function Next<Job>(s: State<Job>, e: Event<Job>): State<Job> {
    match e
    case Enqueued(job) => Fill(s.(waiting := s.waiting + [job]))
    case Settled(k) => Fill(s.(running := s.running - {k}))
  }

  function After<Job>(events: seq<Event<Job>>): State<Job> {
    if events == [] then State([], [], {}) else Next(After(events[..|events| - 1]), events[|events| - 1])
  }

  /** Only a job that is running can settle. */
  predicate Possible<Job>(events: seq<Event<Job>>) {
    events != [] ==>
      var before, e := events[..|events| - 1], events[|events| - 1];
      Possible(before) && (e.Settled? ==> e.position in After(before).running)
  }

  /** All jobs ever handed to the queue. */
  function Jobs<Job>(events: seq<Event<Job>>): seq<Job> {
    if events == [] then []
    else
      var e := events[|events| - 1];
      Jobs(events[..|events| - 1]) + if e.Enqueued? then [e.job] else []
  }

  /** The positions of the jobs that have settled. */
  function Finished<Job>(events: seq<Event<Job>>): set<nat> {
    if events == [] then {}
    else
      var e := events[|events| - 1];
      Finished(events[..|events| - 1]) + if e.Settled? then {e.position} else {}
  }

  function Positions(n: nat): (ps: set<nat>)
    ensures |ps| == n
    ensures forall k: nat :: k in ps <==> k < n
  {
    if n == 0 then {}
    else
      var before := Positions(n - 1);
      assert n - 1 !in before;
      before + {n - 1}
  }

  /**
   * What `jobs` enqueued and `finished` settled leave behind: every job is
   * waiting, running or finished, jobs start in the order they came, at most
   * three run, and one waits only while three do.
   */
  predicate Bounded<Job(==)>(s: State<Job>, jobs: seq<Job>, finished: set<nat>) {
    && Accounted(s, jobs, finished)
    && (s.waiting != [] ==> |s.running| == LIMIT)
  }

  predicate Accounted<Job(==)>(s: State<Job>, jobs: seq<Job>, finished: set<nat>) {
    && s.started + s.waiting == jobs
    && s.running !! finished
    && s.running + finished == Positions(|s.started|)
    && |s.running| <= LIMIT
  }

  lemma StartingOneAccounts<Job>(s: State<Job>, jobs: seq<Job>, finished: set<nat>)
    requires Accounted(s, jobs, finished) && |s.running| < LIMIT && s.waiting != []
    ensures Accounted(StartNext(s), jobs, finished) && |StartNext(s).waiting| < |s.waiting|
  {
    var n := |s.started|;
    assert n !in s.running + finished;
    hide Positions;
    PositionsNext(n);
    Shift(s.started, s.waiting);
    assert s.running + {n} + finished == s.running + finished + {n};
  }

  lemma PositionsNext(n: nat)
    ensures Positions(n + 1) == Positions(n) + {n}
  {
  }

  lemma {:induction false} FillBounds<Job>(s: State<Job>, jobs: seq<Job>, finished: set<nat>)
    requires Accounted(s, jobs, finished)
    ensures Bounded(Fill(s), jobs, finished)
    decreases |s.waiting|
  {
    hide StartNext, Positions;
    if |s.running| < LIMIT && s.waiting != [] {
      StartingOneAccounts(s, jobs, finished);
      FillBounds(StartNext(s), jobs, finished);
    }
  }

  lemma EnqueueingKeepsBounds<Job>(s: State<Job>, job: Job, jobs: seq<Job>, finished: set<nat>)
    requires Bounded(s, jobs, finished)
    ensures Bounded(Next(s, Enqueued(job)), jobs + [job], finished)
  {
    hide Fill, Positions;
    assert s.started + (s.waiting + [job]) == jobs + [job];
    FillBounds(s.(waiting := s.waiting + [job]), jobs + [job], finished);
  }

  lemma SettlingKeepsBounds<Job>(s: State<Job>, k: nat, jobs: seq<Job>, finished: set<nat>)
    requires Bounded(s, jobs, finished) && k in s.running
    ensures Bounded(Next(s, Settled(k)), jobs, finished + {k})
  {
    hide Fill, Positions;
    assert s.running - {k} + (finished + {k}) == s.running + finished;
    FillBounds(s.(running := s.running - {k}), jobs, finished + {k});
  }

  lemma EventsKeepBounds<Job>(s: State<Job>, e: Event<Job>, jobs: seq<Job>, finished: set<nat>)
    requires Bounded(s, jobs, finished) && (e.Settled? ==> e.position in s.running)
    ensures Bounded(Next(s, e), jobs + if e.Enqueued? then [e.job] else [],
                    finished + if e.Settled? then {e.position} else {})
  {
    hide Next, Bounded;
    assert finished + {} == finished && jobs + [] == jobs;
    match e {
      case Enqueued(job) => EnqueueingKeepsBounds(s, job, jobs, finished);
      case Settled(k) => SettlingKeepsBounds(s, k, jobs, finished);
    }
  }

  lemma {:induction false} EveryRunIsBounded<Job>(events: seq<Event<Job>>)
    requires Possible(events)
    ensures Bounded(After(events), Jobs(events), Finished(events))
  {
    if events == [] {
    } else {
      hide Next, Bounded;
      var before, e := events[..|events| - 1], events[|events| - 1];
      EveryRunIsBounded(before);
      EventsKeepBounds(After(before), e, Jobs(before), Finished(before));
    }
  }

  /** In every run: enqueued = waiting + running + finished, and exactly the first `finished + 3` jobs have started. */
  lemma StartedInTurn<Job>(events: seq<Event<Job>>)
    requires Possible(events)
    ensures var s, jobs, done := After(events), Jobs(events), |Finished(events)|;
      && |s.running| <= 3
      && |jobs| == |s.waiting| + |s.running| + done
      && s.started == jobs[..if |jobs| <= done + 3 then |jobs| else done + 3]
  {
    EveryRunIsBounded(events);
    var s := After(events);
    assert |s.running + Finished(events)| == |s.running| + |Finished(events)|;
    assert s.started == Jobs(events)[..|s.started|];
  }

  lemma QuietWhenDone<Job>(events: seq<Event<Job>>)
    requires Possible(events)
    ensures After(events).running == {} <==> Finished(events) == Positions(|Jobs(events)|)
  {
    EveryRunIsBounded(events);
    hide After, Jobs, Finished, Possible, Positions;
    var s, done := After(events), Finished(events);
    if s.running == {} {
      assert s.started == Jobs(events) && s.running + done == done;
    } else {
      var k :| k in s.running;
      assert k !in done && k in Positions(|s.started|) && |s.started| <= |Jobs(events)|;
    }
  }

  /**
   * Nobody starves. Unless every job has finished, some job is running, so that
   * another can settle; and settling any running job finishes one more. So if every
   * started job settles, every job runs.
   */
  lemma NobodyStarves<Job>(events: seq<Event<Job>>)
    requires Possible(events)
    ensures After(events).running == {} <==> Finished(events) == Positions(|Jobs(events)|)
    ensures forall k :: k in After(events).running ==>
      && Possible(events + [Settled(k)])
      && Jobs(events + [Settled(k)]) == Jobs(events)
      && |Finished(events + [Settled(k)])| == |Finished(events)| + 1 <= |Jobs(events)|
  {
    QuietWhenDone(events);
    forall k | k in After(events).running
      ensures Possible(events + [Settled(k)]) && Jobs(events + [Settled(k)]) == Jobs(events)
      ensures |Finished(events + [Settled(k)])| == |Finished(events)| + 1 <= |Jobs(events)|
    {
      SettlingFinishesOne(events, k);
    }
  }

  lemma SettlingFinishesOne<Job>(events: seq<Event<Job>>, k: nat)
    requires Possible(events) && k in After(events).running
    ensures Possible(events + [Settled(k)]) && Jobs(events + [Settled(k)]) == Jobs(events)
    ensures |Finished(events + [Settled(k)])| == |Finished(events)| + 1 <= |Jobs(events)|
  {
    var more := events + [Settled(k)];
    assert more[..|events|] == events;
    EveryRunIsBounded(events);
    StartedInTurn(events);
    assert k !in Finished(events);
  }
}
