/** What holds in every run of the consumer-producer queue. */
module ConsumerProducerProofs {
  import opened Options
  import opened ConsumerProducer
  import opened ConsumerProducerRuns
  import opened Sums

  // ----- flags -----

  ghost predicate NoneBusy(workers: seq<Worker>) {
    forall w :: 0 <= w < |workers| ==> !workers[w].Busy?
  }

  ghost predicate Empty(sh: Shared) {
    sh.low.ring == [] && sh.high.ring == []
  }

  ghost predicate Flags(cfg: Config, s: State) {
    && |s.workers| == cfg.workerNum
    && (cfg.allowLog ==> !s.lateAdd)
    && (cfg.Blocking() ==> !s.discarded)
    && (s.quiet ==> s.sh.paused && Empty(s.sh) && NoneBusy(s.workers))
  }

  /** A worker leaves only after shutdown, with both rings empty; they stay empty unless a job comes late. */
  ghost predicate ExitsClean(s: State) {
    forall w :: 0 <= w < |s.workers| && s.workers[w].Exited? ==> s.sh.shutdown && (Empty(s.sh) || s.lateAdd)
  }

  ghost predicate DiscardsNoted(s: State) {
    forall c :: 0 <= c < |s.calls| && s.calls[c].phase.Discarding? ==> s.discarded
  }

  lemma NoneBusySum(workers: seq<Worker>)
    requires Sum(workers, BusyOn(Low)) == 0 && Sum(workers, BusyOn(High)) == 0
    ensures NoneBusy(workers)
  {
    SumZero(workers, BusyOn(Low));
    SumZero(workers, BusyOn(High));
    forall w | 0 <= w < |workers|
      ensures !workers[w].Busy?
    {
      assert BusyOn(Low)(workers[w]) == 0 && BusyOn(High)(workers[w]) == 0;
    }
  }

  /** The equality flush_and_pause waits for, given conservation: nothing queued, nothing with a worker. */
  lemma AccountedMeansIdle(s: State)
    requires Conserved(s, Low) && Conserved(s, High)
    ensures s.sh.AllAccounted() <==> Empty(s.sh) && NoneBusy(s.workers)
  {
    if s.sh.AllAccounted() {
      NoneBusySum(s.workers);
    }
    if NoneBusy(s.workers) {
      SumZero(s.workers, BusyOn(Low));
      SumZero(s.workers, BusyOn(High));
    }
  }

  lemma SectionFlags(cfg: Config, s: State, e: Event)
    requires Enabled(cfg, s, e) && (e.Attempt? || e.Fetch?) && Flags(cfg, s) && ExitsClean(s) && DiscardsNoted(s)
    ensures var t := Step(cfg, s, e); Flags(cfg, t)
  {
  }

  lemma SectionExits(cfg: Config, s: State, e: Event)
    requires Enabled(cfg, s, e) && (e.Attempt? || e.Fetch?) && ExitsClean(s) && DiscardsNoted(s)
    ensures var t := Step(cfg, s, e); ExitsClean(t) && DiscardsNoted(t)
  {
  }

  lemma OtherFlags(cfg: Config, s: State, e: Event)
    requires Enabled(cfg, s, e) && !e.Attempt? && !e.Fetch? && Flags(cfg, s)
    requires Conserved(s, Low) && Conserved(s, High)
    ensures Flags(cfg, Step(cfg, s, e))
  {
    if e.LeaveFlush? { AccountedMeansIdle(s); }
  }

  lemma OtherExits(cfg: Config, s: State, e: Event)
    requires Enabled(cfg, s, e) && !e.Attempt? && !e.Fetch? && ExitsClean(s)
    ensures ExitsClean(Step(cfg, s, e))
  {
  }

  lemma OtherNoted(cfg: Config, s: State, e: Event)
    requires Enabled(cfg, s, e) && !e.Attempt? && !e.Fetch? && DiscardsNoted(s)
    ensures DiscardsNoted(Step(cfg, s, e))
  {
  }

  lemma FlagsStep(cfg: Config, s: State, e: Event)
    requires Enabled(cfg, s, e) && Flags(cfg, s) && ExitsClean(s) && DiscardsNoted(s)
    requires Conserved(s, Low) && Conserved(s, High)
    ensures var t := Step(cfg, s, e); Flags(cfg, t) && ExitsClean(t) && DiscardsNoted(t)
  {
    if e.Attempt? || e.Fetch? {
      SectionFlags(cfg, s, e);
      SectionExits(cfg, s, e);
    } else {
      OtherFlags(cfg, s, e);
      OtherExits(cfg, s, e);
      OtherNoted(cfg, s, e);
    }
  }

  // ----- preference -----

  ghost predicate Droppable(calls: seq<Call>, job: nat) {
    job < |calls| && calls[job].priority == Low && !calls[job].notDiscardable
  }

  ghost predicate OnlyDroppableUnpreferred(s: State) {
    && (forall w :: 0 <= w < |s.workers| && s.workers[w].Busy? ==> s.workers[w].preferred)
    && (forall i :: 0 <= i < |s.log| && !s.log[i].prefer ==> Droppable(s.calls, s.log[i].job))
  }

  lemma DroppableLater(before: seq<Call>, after: seq<Call>, log: seq<Entry>)
    requires Later(before, after)
    requires forall i :: 0 <= i < |log| && !log[i].prefer ==> Droppable(before, log[i].job)
    ensures forall i :: 0 <= i < |log| && !log[i].prefer ==> Droppable(after, log[i].job)
  {
  }

  lemma LoggedPreference(cfg: Config, s: State, e: Event)
    requires Enabled(cfg, s, e) && (e.RunDiscarded? || e.RunGivenUp?) && AllGenuine(s) && OnlyDroppableUnpreferred(s)
    ensures OnlyDroppableUnpreferred(Step(cfg, s, e))
  {
    assert GenuineDrop(s.calls, s.calls[e.c]);
    StepIsLater(cfg, s, e);
    DroppableLater(s.calls, Step(cfg, s, e).calls, s.log);
  }

  lemma FetchPreference(cfg: Config, s: State, w: nat)
    requires Enabled(cfg, s, Fetch(w)) && cfg.queueSize <= cfg.PreferQueueSize()
    requires |s.sh.low.ring| <= cfg.queueSize && OnlyDroppableUnpreferred(s)
    ensures OnlyDroppableUnpreferred(Fetched(cfg, s, w))
  {
  }

  lemma OtherPreference(cfg: Config, s: State, e: Event)
    requires Enabled(cfg, s, e) && !e.RunDiscarded? && !e.RunGivenUp? && !e.Fetch? && OnlyDroppableUnpreferred(s)
    requires Later(s.calls, Step(cfg, s, e).calls)
    ensures OnlyDroppableUnpreferred(Step(cfg, s, e))
  {
    DroppableLater(s.calls, Step(cfg, s, e).calls, s.log);
  }

  lemma PreferenceStep(cfg: Config, s: State, e: Event)
    requires Enabled(cfg, s, e) && cfg.queueSize <= cfg.PreferQueueSize()
    requires |s.sh.low.ring| <= cfg.queueSize && AllGenuine(s) && OnlyDroppableUnpreferred(s)
    ensures OnlyDroppableUnpreferred(Step(cfg, s, e))
  {
    StepIsLater(cfg, s, e);
    if e.RunDiscarded? || e.RunGivenUp? {
      LoggedPreference(cfg, s, e);
    } else if e.Fetch? {
      FetchPreference(cfg, s, e.w);
    } else {
      OtherPreference(cfg, s, e);
    }
  }

  // ----- order of completion with one worker -----

  /** With one worker and no discard, the finished id, the job being run and the queue follow on from each other. */
  ghost predicate InTurn(s: State, p: Priority) {
    |s.workers| == 1 && (p == High || !s.discarded) ==> LaneInTurn(s.sh.Get(p), s.workers[0], p)
  }

  ghost predicate LaneInTurn(lane: Lane, w: Worker, p: Priority) {
    if w.Busy? && w.priority == p then
      w.job.jobId == lane.finishedId + 1 && lane.finishedId + 1 + |lane.ring| == lane.jobId
    else lane.finishedId + |lane.ring| == lane.jobId
  }

  /** An attempt leaves the workers alone, and without a discard it leaves the finished id and the ring or adds to both
      ring and ids. */
  ghost predicate LaneTurned(a: Lane, b: Lane) {
    && b.finishedId == a.finishedId
    && ((|b.ring| == |a.ring| && b.jobId == a.jobId) || (|b.ring| == |a.ring| + 1 && b.jobId == a.jobId + 1))
  }

  lemma AttemptTurns(cfg: Config, s: State, c: nat, p: Priority)
    requires Enabled(cfg, s, Attempt(c))
    ensures var t := Attempted(cfg, s, c);
      && t.workers == s.workers && (s.discarded ==> t.discarded)
      && (p == High || !t.discarded ==> LaneTurned(s.sh.Get(p), t.sh.Get(p)))
  {
  }

  lemma LaneTurnedInTurn(a: Lane, b: Lane, w: Worker, p: Priority)
    requires LaneInTurn(a, w, p) && LaneTurned(a, b)
    ensures LaneInTurn(b, w, p)
  {
  }

  lemma AttemptInTurn(cfg: Config, s: State, c: nat, p: Priority)
    requires Enabled(cfg, s, Attempt(c)) && InTurn(s, p)
    ensures InTurn(Attempted(cfg, s, c), p)
  {
    var t := Attempted(cfg, s, c);
    AttemptTurns(cfg, s, c, p);
    if |s.workers| == 1 && (p == High || !t.discarded) {
      LaneTurnedInTurn(s.sh.Get(p), t.sh.Get(p), s.workers[0], p);
    }
  }

  lemma FetchInTurn(cfg: Config, s: State, w: nat, p: Priority)
    requires Enabled(cfg, s, Fetch(w)) && InTurn(s, p) && LaneInOrder(s.sh.Get(p), cfg.Size(p))
    ensures InTurn(Fetched(cfg, s, w), p)
  {
    match GetSection(s.sh).1
    case Retry =>
    case Exit =>
    case Got(job, q, _) =>
      if q == p { assert s.sh.Get(p).ring[0].jobId == s.sh.Get(p).jobId - |s.sh.Get(p).ring| + 1; }
  }

  lemma FinishInTurn(cfg: Config, s: State, w: nat, p: Priority)
    requires Enabled(cfg, s, Finish(w)) && InTurn(s, p)
    ensures InTurn(Step(cfg, s, Finish(w)), p)
  {
  }

  lemma InTurnStep(cfg: Config, s: State, e: Event, p: Priority)
    requires Enabled(cfg, s, e) && InTurn(s, p) && LaneInOrder(s.sh.Get(p), cfg.Size(p))
    ensures InTurn(Step(cfg, s, e), p)
  {
    match e
    case Attempt(c) => AttemptInTurn(cfg, s, c, p);
    case Fetch(w) => FetchInTurn(cfg, s, w, p);
    case Finish(w) => FinishInTurn(cfg, s, w, p);
    case _ =>
  }

  // ----- every reachable state -----

  ghost predicate Counted(cfg: Config, s: State) {
    && Conserved(s, Low) && Conserved(s, High)
    && LaneInOrder(s.sh.Get(Low), cfg.Size(Low)) && LaneInOrder(s.sh.Get(High), cfg.Size(High))
  }

  ghost predicate Controlled(cfg: Config, s: State) {
    && Flags(cfg, s) && ExitsClean(s) && DiscardsNoted(s)
    && InTurn(s, Low) && InTurn(s, High)
  }

  ghost predicate Traced(cfg: Config, s: State) {
    && AllGenuine(s)
    && (cfg.queueSize <= cfg.PreferQueueSize() ==> OnlyDroppableUnpreferred(s))
    && forall c :: OnePlace(s, c)
  }

  lemma StartHolds(cfg: Config)
    ensures Counted(cfg, Started(cfg)) && Controlled(cfg, Started(cfg)) && Traced(cfg, Started(cfg))
  {
    var ws := Started(cfg).workers;
    SumZero(ws, BusyOn(Low));
    SumZero(ws, BusyOn(High));
    forall c
      ensures Sum(ws, Holds(c)) == 0
    {
      SumZero(ws, Holds(c));
    }
  }

  lemma StepHolds(cfg: Config, s: State, e: Event)
    requires Enabled(cfg, s, e) && Counted(cfg, s) && Controlled(cfg, s) && Traced(cfg, s)
    ensures Counted(cfg, Step(cfg, s, e)) && Controlled(cfg, Step(cfg, s, e)) && Traced(cfg, Step(cfg, s, e))
  {
    CountedStep(cfg, s, e, Low);
    CountedStep(cfg, s, e, High);
    FlagsStep(cfg, s, e);
    InTurnStep(cfg, s, e, Low);
    InTurnStep(cfg, s, e, High);
    GenuineStep(cfg, s, e);
    if cfg.queueSize <= cfg.PreferQueueSize() { PreferenceStep(cfg, s, e); }
    forall c
      ensures OnePlace(Step(cfg, s, e), c)
    {
      PlacesStep(cfg, s, e, c);
    }
  }

  lemma CountedStep(cfg: Config, s: State, e: Event, p: Priority)
    requires Enabled(cfg, s, e) && Conserved(s, p) && LaneInOrder(s.sh.Get(p), cfg.Size(p))
    ensures Conserved(Step(cfg, s, e), p) && LaneInOrder(Step(cfg, s, e).sh.Get(p), cfg.Size(p))
  {
    var t := Step(cfg, s, e);
    StepMoves(cfg, s, e, p);
    var held := Sum(t.workers, BusyOn(p)) - Sum(s.workers, BusyOn(p));
    LaneMoveCounts(s.sh.Get(p), t.sh.Get(p), cfg.Size(p), held);
    LaneMoveKeeps(s.sh.Get(p), t.sh.Get(p), cfg.Size(p), held);
  }

  lemma {:induction false} RunHolds(cfg: Config, events: seq<Event>)
    ensures var r := After(cfg, events);
      r.Some? ==> Counted(cfg, r.value) && Controlled(cfg, r.value) && Traced(cfg, r.value)
  {
    if events == [] {
      StartHolds(cfg);
    } else {
      var last := |events| - 1;
      RunHolds(cfg, events[..last]);
      if After(cfg, events).Some? {
        StepHolds(cfg, After(cfg, events[..last]).value, events[last]);
      }
    }
  }

  lemma ReachableHolds(cfg: Config, s: State)
    requires Reachable(cfg, s)
    ensures Counted(cfg, s) && Controlled(cfg, s) && Traced(cfg, s)
  {
    var events :| After(cfg, events) == Some(s);
    RunHolds(cfg, events);
  }

  // ----- conservation -----

  /** In every run each priority's accepted jobs are finished, dropped, queued or with a worker, and nothing else. */
  lemma JobsConserved(cfg: Config, s: State, p: Priority)
    requires Reachable(cfg, s)
    ensures var lane := s.sh.Get(p);
      lane.added == lane.finished + lane.dropped + |lane.ring| + Sum(s.workers, BusyOn(p))
  {
    ReachableHolds(cfg, s);
  }

  /** Every submitted job reaches the consume function at most once, and nothing that was not submitted ever does. */
  lemma ConsumedAtMostOnce(cfg: Config, s: State)
    requires Reachable(cfg, s)
    ensures forall i, j :: 0 <= i < j < |s.log| ==> s.log[i].job != s.log[j].job
    ensures forall i :: 0 <= i < |s.log| ==> s.log[i].job < |s.calls|
  {
    ReachableHolds(cfg, s);
    forall i, j | 0 <= i < j < |s.log|
      ensures s.log[i].job != s.log[j].job
    {
      var c := s.log[i].job;
      assert OnePlace(s, c);
      SumPair(s.log, i, j, Logs(c));
    }
    forall i | 0 <= i < |s.log|
      ensures s.log[i].job < |s.calls|
    {
      assert OnePlace(s, s.log[i].job);
      SumElement(s.log, i, Logs(s.log[i].job));
    }
  }

  /** When nothing is queued, no worker holds a job and no producer is at work, every job was consumed exactly once. */
  lemma ConsumedExactlyOnceWhenIdle(cfg: Config, s: State, c: nat)
    requires Reachable(cfg, s) && c < |s.calls|
    requires Empty(s.sh) && NoneBusy(s.workers) && forall k :: 0 <= k < |s.calls| ==> !s.calls[k].Live()
    ensures Sum(s.log, Logs(c)) == 1
  {
    ReachableHolds(cfg, s);
    assert OnePlace(s, c);
    SumZero(s.workers, Holds(c));
    SumZero(s.calls, HasVictim(c));
  }

  /** Ids leave each ring as 1, 2, 3, ...: the i-th place of the ring holds the i-th id after those that left. */
  lemma IdsLeaveInOrder(cfg: Config, s: State, p: Priority, i: nat)
    requires Reachable(cfg, s) && i < |s.sh.Get(p).ring|
    ensures s.sh.Get(p).ring[i].jobId == (s.sh.Get(p).jobId - |s.sh.Get(p).ring|) + 1 + i
    ensures |s.sh.Get(p).ring| <= cfg.Size(p)
  {
    ReachableHolds(cfg, s);
  }

  // ----- quiescence -----

  /** Once a flush_and_pause has left its loop, and until resume, both rings are empty, no worker holds a job and
      every accepted job is accounted for; what is still unconsumed is in a producer's hands. */
  lemma QuietAfterFlush(cfg: Config, s: State)
    requires Reachable(cfg, s) && s.quiet
    ensures Empty(s.sh) && NoneBusy(s.workers) && s.sh.AllAccounted()
    ensures forall c: nat :: c < |s.calls| ==> Sum(s.log, Logs(c)) + Sum(s.calls, HasVictim(c)) + Own(s.calls, c) == 1
  {
    ReachableHolds(cfg, s);
    AccountedMeansIdle(s);
    forall c: nat | c < |s.calls|
      ensures Sum(s.log, Logs(c)) + Sum(s.calls, HasVictim(c)) + Own(s.calls, c) == 1
    {
      assert OnePlace(s, c);
      SumZero(s.workers, Holds(c));
    }
  }

  /** The waiting loop's test is exact: it lets a flush through just when nothing is queued or with a worker. */
  lemma FlushTestExact(cfg: Config, s: State)
    requires Reachable(cfg, s)
    ensures s.sh.AllAccounted() <==> Empty(s.sh) && NoneBusy(s.workers)
    ensures s.sh.low.added + s.sh.high.added >=
            (s.sh.low.finished + s.sh.high.finished) + (s.sh.low.dropped + s.sh.high.dropped)
  {
    ReachableHolds(cfg, s);
    AccountedMeansIdle(s);
  }

  /** A shutdown whose workers have all left, with no producer alive and none that enqueued after it, leaves no
      accepted job behind: each one was consumed exactly once. */
  lemma ShutdownDrains(cfg: Config, s: State, c: nat)
    requires Reachable(cfg, s) && c < |s.calls| && cfg.workerNum > 0
    requires forall w :: 0 <= w < |s.workers| ==> s.workers[w].Exited?
    requires forall k :: 0 <= k < |s.calls| ==> !s.calls[k].Live()
    requires cfg.allowLog || !s.lateAdd
    ensures s.sh.shutdown && Empty(s.sh) && s.sh.AllAccounted() && Sum(s.log, Logs(c)) == 1
  {
    ReachableHolds(cfg, s);
    assert s.workers[0].Exited?;
    AccountedMeansIdle(s);
    ConsumedExactlyOnceWhenIdle(cfg, s, c);
  }
}
