/** What becomes of a call of the consumer-producer queue: what a producer's and a worker's pass decide, the codes
    returned, and what the counters count. */
module ConsumerProducerOutcomes {
  import opened Options
  import opened ConsumerProducer
  import opened ConsumerProducerRuns
  import opened ConsumerProducerProofs
  import opened ConsumerProducerExact
  import opened Sums

  // ----- what one pass decides -----

  /** The source's own terms: a call blocks when it is of high priority, may not be discarded, or the queue was given no
      preferred size. */
  ghost predicate Blocks(cfg: Config, call: Call) {
    call.priority == High || call.notDiscardable || cfg.prefer <= 0
  }

  /** Call c finds its ring full. */
  ghost predicate MeetsFull(cfg: Config, s: State, c: nat)
    requires c < |s.calls|
  {
    var p := s.calls[c].priority;
    !s.sh.paused && |s.sh.Get(p).ring| == if p == High then cfg.hiQueueSize else cfg.queueSize
  }

  /** A producer's pass, in every reachable state: it enqueues exactly when there is room and no pause, it gives its own job
      up exactly when the ring is full, it may not block, and the oldest queued job may not be discarded, and it discards
      the oldest exactly when that one may be. */
  lemma AttemptDecides(cfg: Config, s: State, c: nat)
    requires Reachable(cfg, s) && Enabled(cfg, s, Attempt(c))
    ensures var call := s.calls[c]; var ring := s.sh.Get(call.priority).ring; var phase := Step(cfg, s, Attempt(c)).calls[c].phase;
      && (phase.Returned? <==> !s.sh.paused && !MeetsFull(cfg, s, c))
      && (phase.GivingUp? <==> MeetsFull(cfg, s, c) && !Blocks(cfg, call) && ring[0].notDiscardable)
      && (phase.Discarding? <==> MeetsFull(cfg, s, c) && !Blocks(cfg, call) && !ring[0].notDiscardable)
      && (phase.Discarding? ==> phase.victim == ring[0])
      && (phase.Trying? <==> s.sh.paused || (MeetsFull(cfg, s, c) && Blocks(cfg, call)))
  {
    ReachableHolds(cfg, s);
  }

  /** A worker's pass: the oldest job of high priority first, the oldest of low priority only when there is none, and
      leaving only after shutdown with neither. */
  lemma FetchDecides(cfg: Config, s: State, w: nat)
    requires Enabled(cfg, s, Fetch(w))
    ensures var t := Step(cfg, s, Fetch(w)); var high, low := s.sh.high.ring, s.sh.low.ring;
      && (high != [] ==> t.workers[w] == Busy(high[0], High, true, false) && t.sh.low == s.sh.low)
      && (high == [] && low != [] ==>
            t.workers[w] == Busy(low[0], Low, |low| <= if cfg.prefer <= 0 then cfg.queueSize else cfg.prefer, false))
      && (high == [] && low == [] ==> t.workers[w] == (if s.sh.shutdown then Exited else Idle) && t.sh == s.sh)
  {
  }

  // ----- a blocking queue drops nothing -----

  ghost predicate DropFree(cfg: Config, s: State) {
    && s.sh.high.dropped == 0
    && (cfg.prefer <= 0 ==> s.sh.low.dropped == 0)
    && (forall w :: 0 <= w < |s.workers| && s.workers[w].Busy? && s.workers[w].priority == High ==> s.workers[w].preferred)
  }

  lemma DropFreeStep(cfg: Config, s: State, e: Event)
    requires Reachable(cfg, s) && Enabled(cfg, s, e) && DropFree(cfg, s)
    ensures DropFree(cfg, Step(cfg, s, e))
  {
    match e
    case Attempt(c) => AttemptDropFree(cfg, s, c);
    case Fetch(w) => FetchDropFree(cfg, s, w);
    case Finish(w) => FinishDropFree(cfg, s, w);
    case _ => OtherDropFree(cfg, s, e);
  }

  lemma OtherDropFree(cfg: Config, s: State, e: Event)
    requires Enabled(cfg, s, e) && !e.Attempt? && !e.Fetch? && !e.Finish? && DropFree(cfg, s)
    ensures DropFree(cfg, Step(cfg, s, e))
  {
  }

  lemma FetchDropFree(cfg: Config, s: State, w: nat)
    requires Enabled(cfg, s, Fetch(w)) && DropFree(cfg, s)
    ensures DropFree(cfg, Step(cfg, s, Fetch(w)))
  {
  }

  lemma AttemptDropFree(cfg: Config, s: State, c: nat)
    requires Reachable(cfg, s) && Enabled(cfg, s, Attempt(c)) && DropFree(cfg, s)
    ensures DropFree(cfg, Attempted(cfg, s, c))
  {
    CountedRing(cfg, s, s.calls[c].priority);
  }

  lemma FinishDropFree(cfg: Config, s: State, w: nat)
    requires Reachable(cfg, s) && Enabled(cfg, s, Finish(w)) && DropFree(cfg, s)
    ensures DropFree(cfg, Step(cfg, s, Finish(w)))
  {
    ReachableHolds(cfg, s);
    if cfg.prefer <= 0 { assert OnlyDroppableUnpreferred(s); }
  }

  lemma {:induction false} RunDropFree(cfg: Config, events: seq<Event>)
    requires After(cfg, events).Some?
    ensures DropFree(cfg, After(cfg, events).value)
  {
    if events != [] {
      var last := |events| - 1;
      assert Reachable(cfg, After(cfg, events[..last]).value);
      RunDropFree(cfg, events[..last]);
      DropFreeStep(cfg, After(cfg, events[..last]).value, events[last]);
    }
  }

  /** No job of high priority is ever dropped. */
  lemma HighNeverDropped(cfg: Config, s: State)
    requires Reachable(cfg, s)
    ensures s.sh.high.dropped == 0
  {
    var events :| After(cfg, events) == Some(s);
    RunDropFree(cfg, events);
  }

  ghost predicate NeverDrops(cfg: Config) {
    forall s :: Reachable(cfg, s) ==> s.sh.low.dropped == 0 && s.sh.high.dropped == 0
  }

  lemma FullRingDrops(cfg: Config) returns (s: State)
    requires cfg.queueSize > 0 && cfg.prefer > 0
    ensures Reachable(cfg, s) && s.sh.low.dropped > 0
  {
    StartReachable(cfg);
    var a := GrowBy(cfg, Started(cfg), cfg.queueSize, false);
    var n, e := |a.calls|, NewCall(Low, false, false);
    Extend(cfg, a, e);
    var b := Step(cfg, a, e);
    Extend(cfg, b, Attempt(n));
    s := Step(cfg, b, Attempt(n));
    assert s == Discarded(b, n);
    assert s.sh.low.dropped == a.sh.low.dropped + 1;
  }

  /** The queue drops nothing in any run if and only if it was given no preferred size. */
  lemma NeverDropsIffBlocking(cfg: Config)
    requires cfg.queueSize > 0
    ensures NeverDrops(cfg) <==> cfg.prefer <= 0
  {
    if cfg.prefer <= 0 {
      forall s | Reachable(cfg, s)
        ensures s.sh.low.dropped == 0 && s.sh.high.dropped == 0
      {
        var events :| After(cfg, events) == Some(s);
        RunDropFree(cfg, events);
      }
    } else {
      var s := FullRingDrops(cfg);
    }
  }

  // ----- what the counters count -----

  ghost function Logged(prefer: bool): Entry -> nat {
    (e: Entry) => if e.prefer == prefer then 1 else 0
  }

  /** A worker back from the consume function that has yet to record it. */
  ghost function ToRecord(prefer: bool): Worker -> nat {
    (w: Worker) => if w.Busy? && w.consumed && w.preferred == prefer then 1 else 0
  }

  /** A producer that has yet to hand a dropped job to the consume function. */
  ghost function ToHandOver(): Call -> nat {
    (k: Call) => if Dropping(k) then 1 else 0
  }

  ghost function FinishedTotal(sh: Shared): nat {
    sh.low.finished + sh.high.finished
  }

  ghost function DroppedTotal(sh: Shared): nat {
    sh.low.dropped + sh.high.dropped
  }

  ghost predicate Tallied(s: State) {
    && Sum(s.log, Logged(true)) == FinishedTotal(s.sh) + Sum(s.workers, ToRecord(true))
    && Sum(s.log, Logged(false)) + Sum(s.calls, ToHandOver()) == DroppedTotal(s.sh) + Sum(s.workers, ToRecord(false))
  }

  lemma WorkTallied(cfg: Config, s: State, e: Event, prefer: bool)
    requires Enabled(cfg, s, e) && (e.Consume? || e.Finish?)
    ensures var t := Step(cfg, s, e); var own := s.workers[e.w].preferred == prefer;
      && Sum(t.log, Logged(prefer)) == Sum(s.log, Logged(prefer)) + (if e.Consume? && own then 1 else 0)
      && Sum(t.workers, ToRecord(prefer)) == Sum(s.workers, ToRecord(prefer)) + (if !own then 0 else if e.Consume? then 1 else -1)
  {
    var t := Step(cfg, s, e);
    SumUpdate(s.workers, e.w, t.workers[e.w], ToRecord(prefer));
    if e.Consume? { SumAppend(s.log, Entry(s.workers[e.w].job.job, s.workers[e.w].preferred), Logged(prefer)); }
  }

  lemma BothTallied(cfg: Config, s: State, e: Event)
    requires Enabled(cfg, s, e) && (e.Consume? || e.Finish?) && Tallied(s)
    ensures Tallied(Step(cfg, s, e))
  {
    WorkTallied(cfg, s, e, true);
    WorkTallied(cfg, s, e, false);
    WorkTotals(cfg, s, e);
  }

  lemma WorkTotals(cfg: Config, s: State, e: Event)
    requires Enabled(cfg, s, e) && (e.Consume? || e.Finish?)
    ensures var t := Step(cfg, s, e); var own := s.workers[e.w].preferred;
      && t.calls == s.calls
      && FinishedTotal(t.sh) == FinishedTotal(s.sh) + (if e.Finish? && own then 1 else 0)
      && DroppedTotal(t.sh) == DroppedTotal(s.sh) + (if e.Finish? && !own then 1 else 0)
  {
  }

  lemma FetchTotals(cfg: Config, s: State, w: nat)
    requires Enabled(cfg, s, Fetch(w))
    ensures var t := Fetched(cfg, s, w);
      && t.log == s.log && t.calls == s.calls
      && FinishedTotal(t.sh) == FinishedTotal(s.sh) && DroppedTotal(t.sh) == DroppedTotal(s.sh)
      && t.workers == s.workers[w := t.workers[w]]
      && s.workers[w].Idle? && (t.workers[w].Busy? ==> !t.workers[w].consumed)
  {
  }

  lemma FetchTallied(cfg: Config, s: State, w: nat)
    requires Enabled(cfg, s, Fetch(w)) && Tallied(s)
    ensures Tallied(Fetched(cfg, s, w))
  {
    var t := Fetched(cfg, s, w);
    FetchTotals(cfg, s, w);
    SumUpdate(s.workers, w, t.workers[w], ToRecord(true));
    SumUpdate(s.workers, w, t.workers[w], ToRecord(false));
  }

  ghost predicate Dropping(call: Call) {
    call.phase.Discarding? || call.phase.GivingUp?
  }

  lemma AttemptFrame(cfg: Config, s: State, c: nat)
    requires Enabled(cfg, s, Attempt(c))
    ensures var t := Attempted(cfg, s, c);
      && t.log == s.log && t.workers == s.workers
      && c < |t.calls| && t.calls == s.calls[c := t.calls[c]] && !Dropping(s.calls[c])
  {
  }

  ghost predicate SameTotals(a: Shared, b: Shared, dropped: nat) {
    FinishedTotal(b) == FinishedTotal(a) && DroppedTotal(b) == DroppedTotal(a) + dropped
  }

  lemma PutTotals(sh: Shared, p: Priority, lane: Lane, dropped: nat)
    requires lane.finished == sh.Get(p).finished && lane.dropped == sh.Get(p).dropped + dropped
    ensures SameTotals(sh, sh.Put(p, lane), dropped)
  {
  }

  lemma AttemptTotals(cfg: Config, s: State, c: nat)
    requires Enabled(cfg, s, Attempt(c))
    ensures var t := Attempted(cfg, s, c);
      c < |t.calls| && SameTotals(s.sh, t.sh, if Dropping(t.calls[c]) then 1 else 0)
  {
    var call := s.calls[c];
    var p, lane := call.priority, s.sh.Get(call.priority);
    match AddSection(cfg, s.sh, p, c, call.notDiscardable).1
    case Wait =>
    case Block =>
    case GiveUp => PutTotals(s.sh, p, lane.GiveUp(), 1);
    case Discard(_) => PutTotals(s.sh, p, lane.DropHead(), 1);
    case Enqueue(_) => PutTotals(s.sh, p, lane.Enqueue(c, call.notDiscardable), 0);
  }

  lemma AttemptTallied(cfg: Config, s: State, c: nat)
    requires Enabled(cfg, s, Attempt(c)) && Tallied(s)
    ensures Tallied(Attempted(cfg, s, c))
  {
    AttemptFrame(cfg, s, c);
    AttemptTotals(cfg, s, c);
    SumUpdate(s.calls, c, Attempted(cfg, s, c).calls[c], ToHandOver());
  }

  lemma HandedOver(cfg: Config, s: State, e: Event)
    requires Enabled(cfg, s, e) && (e.RunDiscarded? || e.RunGivenUp? || e.WakeUp?) && Tallied(s)
    ensures Tallied(Step(cfg, s, e))
  {
    var t := Step(cfg, s, e);
    SumUpdate(s.calls, e.c, t.calls[e.c], ToHandOver());
    if !e.WakeUp? {
      SumAppend(s.log, t.log[|s.log|], Logged(true));
      SumAppend(s.log, t.log[|s.log|], Logged(false));
    }
  }

  lemma StepTallied(cfg: Config, s: State, e: Event)
    requires Enabled(cfg, s, e) && Tallied(s)
    ensures Tallied(Step(cfg, s, e))
  {
    match e
    case NewCall(p, nd, wait) => SumAppend(s.calls, Call(p, nd, wait, Trying(0)), ToHandOver());
    case Attempt(c) => AttemptTallied(cfg, s, c);
    case Fetch(w) => FetchTallied(cfg, s, w);
    case Consume(_) => BothTallied(cfg, s, e);
    case Finish(_) => BothTallied(cfg, s, e);
    case RunDiscarded(_) => HandedOver(cfg, s, e);
    case RunGivenUp(_) => HandedOver(cfg, s, e);
    case WakeUp(_) => HandedOver(cfg, s, e);
    case _ =>
  }

  lemma {:induction false} IdleToRecord(workers: seq<Worker>, prefer: bool)
    requires forall w :: 0 <= w < |workers| ==> workers[w] == Idle
    ensures Sum(workers, ToRecord(prefer)) == 0
  {
    if workers != [] { IdleToRecord(workers[1..], prefer); }
  }

  lemma NothingTallied(s: State)
    requires s.log == [] && s.calls == [] && s.sh.low == s.sh.high == EMPTY_LANE
    requires forall w :: 0 <= w < |s.workers| ==> s.workers[w] == Idle
    ensures Tallied(s)
  {
    IdleToRecord(s.workers, true);
    IdleToRecord(s.workers, false);
  }

  lemma StartTallied(cfg: Config)
    ensures Tallied(Started(cfg))
  {
    NothingTallied(Started(cfg));
  }

  lemma {:induction false} RunTallied(cfg: Config, events: seq<Event>)
    requires After(cfg, events).Some?
    ensures Tallied(After(cfg, events).value)
  {
    if events == [] {
      StartTallied(cfg);
    } else {
      var last := |events| - 1;
      RunTallied(cfg, events[..last]);
      StepTallied(cfg, After(cfg, events[..last]).value, events[last]);
    }
  }

  /** In every run: the finished counters count the jobs consumed as preferred, the dropped ones the jobs consumed as not
      preferred, but for workers about to record what they consumed and producers about to hand over what they dropped. */
  lemma CountersCountTheLog(cfg: Config, s: State)
    requires Reachable(cfg, s)
    ensures Tallied(s)
  {
    var events :| After(cfg, events) == Some(s);
    RunTallied(cfg, events);
  }

  // ----- the codes returned -----

  /** At some point of the run call c found its ring full. */
  ghost predicate MetFull(cfg: Config, events: seq<Event>, c: nat) {
    events != [] &&
    var last := |events| - 1;
    var before := After(cfg, events[..last]);
    MetFull(cfg, events[..last], c) ||
    (before.Some? && c < |before.value.calls| && events[last] == Attempt(c) && MeetsFull(cfg, before.value, c))
  }

  /** The code a call would return now, or has returned: 0 when it never met a full ring; 1 when it did and blocks; when it
      did and does not block, 2 if it gave up and 3 if it discarded a job. */
  ghost predicate Coded(cfg: Config, call: Call, met: bool) {
    match call.phase
    case Trying(ret) => ret == if !met then 0 else if Blocks(cfg, call) then 1 else 3
    case Discarding(_) => met && !Blocks(cfg, call)
    case GivingUp => met && !Blocks(cfg, call)
    case Returned(ret, id) => Returns(cfg, call, met, ret, id)
    case Woken(ret, id) => Returns(cfg, call, met, ret, id)
  }

  ghost predicate Returns(cfg: Config, call: Call, met: bool, ret: nat, id: nat) {
    if !met then ret == 0 && id > 0
    else if Blocks(cfg, call) then ret == 1 && id > 0
    else if id == 0 then ret == 2 else ret == 3
  }

  lemma AttemptCoded(cfg: Config, s: State, c: nat, met: bool)
    requires Reachable(cfg, s) && Enabled(cfg, s, Attempt(c)) && Coded(cfg, s.calls[c], met)
    ensures var t := Attempted(cfg, s, c); c < |t.calls| && Coded(cfg, t.calls[c], met || MeetsFull(cfg, s, c))
  {
    CountedRing(cfg, s, s.calls[c].priority);
  }

  lemma CountedRing(cfg: Config, s: State, p: Priority)
    requires Reachable(cfg, s)
    ensures |s.sh.Get(p).ring| <= cfg.Size(p)
  {
    ReachableHolds(cfg, s);
  }

  lemma OtherCoded(cfg: Config, s: State, e: Event, c: nat, met: bool)
    requires Enabled(cfg, s, e) && !e.Attempt? && c < |s.calls| && Coded(cfg, s.calls[c], met)
    ensures Coded(cfg, Step(cfg, s, e).calls[c], met)
  {
  }

  lemma {:induction false} RunCoded(cfg: Config, events: seq<Event>, c: nat)
    requires After(cfg, events).Some? && c < |After(cfg, events).value.calls|
    ensures Coded(cfg, After(cfg, events).value.calls[c], MetFull(cfg, events, c))
  {
    var last := |events| - 1;
    var before, e := events[..last], events[last];
    var s := After(cfg, before).value;
    if c < |s.calls| {
      RunCoded(cfg, before, c);
      if e.Attempt? {
        RunCoded(cfg, before, e.c);
        assert Reachable(cfg, s);
        AttemptCoded(cfg, s, e.c, MetFull(cfg, before, e.c));
        AttemptFrame(cfg, s, e.c);
      } else {
        OtherCoded(cfg, s, e, c, MetFull(cfg, before, c));
      }
    } else {
      NotMetYet(cfg, before, c);
    }
  }

  lemma {:induction false} NotMetYet(cfg: Config, events: seq<Event>, c: nat)
    requires After(cfg, events).Some? && c >= |After(cfg, events).value.calls|
    ensures !MetFull(cfg, events, c)
  {
    if events != [] {
      var last := |events| - 1;
      StepIsLater(cfg, After(cfg, events[..last]).value, events[last]);
      NotMetYet(cfg, events[..last], c);
    }
  }

  /** The codes that the source documents, over all runs: 0 for an ordinary enqueue, 1 for one that had to wait for room,
      2 for giving up, 3 for discarding another job to make room. */
  lemma ReturnCodes(cfg: Config, events: seq<Event>, c: nat)
    requires After(cfg, events).Some? && c < |After(cfg, events).value.calls|
    requires var phase := After(cfg, events).value.calls[c].phase; phase.Returned? || phase.Woken?
    ensures var call := After(cfg, events).value.calls[c]; var ret, enqueued := call.phase.ret, call.phase.id > 0;
      && (ret == 0 <==> !MetFull(cfg, events, c))
      && (ret == 1 <==> MetFull(cfg, events, c) && Blocks(cfg, call))
      && (ret == 2 <==> !enqueued)
      && (ret == 3 <==> MetFull(cfg, events, c) && !Blocks(cfg, call) && enqueued)
  {
    RunCoded(cfg, events, c);
  }

  // ----- when a wait may end -----

  /** A waiting call may leave as soon as the worker that ran its job has recorded that, however many workers there are. */
  lemma FinishEndsWait(cfg: Config, s: State, w: nat, c: nat)
    requires Reachable(cfg, s) && Enabled(cfg, s, Finish(w)) && s.workers[w].job.job == c
    requires c < |s.calls| && s.calls[c].waitDone && s.calls[c].phase.Returned?
    ensures Enabled(cfg, Step(cfg, s, Finish(w)), WakeUp(c))
  {
    ReachableHolds(cfg, s);
    assert Genuine(s.calls, s.workers[w].job, s.workers[w].priority);
  }

  /** With one worker and no head discarded it may leave from then on. */
  lemma WaitStaysOver(cfg: Config, s: State, e: Event, c: nat)
    requires Reachable(cfg, s) && cfg.workerNum == 1 && Enabled(cfg, s, WakeUp(c)) && Enabled(cfg, s, e) && e != WakeUp(c)
    requires s.calls[c].priority == High || !Step(cfg, s, e).discarded
    ensures Enabled(cfg, Step(cfg, s, e), WakeUp(c))
  {
    FinishedIdNeverDecreases(cfg, s, e, s.calls[c].priority);
    if e.Attempt? { AttemptFrame(cfg, s, e.c); }
  }

  // ----- what the flags say -----

  /** A flush has begun since the last resume. */
  ghost predicate FlushBegun(events: seq<Event>) {
    events != [] &&
    var e := events[|events| - 1];
    e.BeginFlush? || (!e.Resume? && FlushBegun(events[..|events| - 1]))
  }

  /** A flush has left its loop with the pause set, and no resume has come since, nor a flush left it without the pause. */
  ghost predicate FlushLeft(events: seq<Event>) {
    events != [] &&
    var before, e := events[..|events| - 1], events[|events| - 1];
    if e.LeaveFlush? then FlushBegun(before) else !e.Resume? && FlushLeft(before)
  }

  /** The call that made a pass now holds a job it took out of the ring. */
  ghost predicate HasVictimNow(s: State, e: Event) {
    e.Attempt? && e.c < |s.calls| && s.calls[e.c].phase.Discarding?
  }

  /** Some pass discarded a head. */
  ghost predicate DiscardMade(cfg: Config, events: seq<Event>) {
    events != [] && After(cfg, events).Some? &&
    (HasVictimNow(After(cfg, events).value, events[|events| - 1]) || DiscardMade(cfg, events[..|events| - 1]))
  }

  ghost predicate ShutDown(events: seq<Event>) {
    exists i :: 0 <= i < |events| && events[i].Shutdown?
  }

  /** In every run the queue is paused exactly from the beginning of a flush to the next resume, it is shut exactly from a
      shutdown on, it is quiet exactly from the end of a flush in the pause to the next resume, and a discard is noted exactly when a
      pass has taken a head out of its ring. */
  lemma {:induction false} FlagsExact(cfg: Config, events: seq<Event>)
    requires After(cfg, events).Some?
    ensures var s := After(cfg, events).value;
      && (s.sh.paused <==> FlushBegun(events))
      && (s.sh.shutdown <==> ShutDown(events))
      && (s.quiet <==> FlushLeft(events))
      && (s.discarded <==> DiscardMade(cfg, events))
  {
    if events != [] {
      var last := |events| - 1;
      FlagsExact(cfg, events[..last]);
      StepFlags(cfg, After(cfg, events[..last]).value, events[last]);
      ShutDownStep(events);
    }
  }

  lemma ShutDownStep(events: seq<Event>)
    requires events != []
    ensures ShutDown(events) <==> ShutDown(events[..|events| - 1]) || events[|events| - 1].Shutdown?
  {
    if ShutDown(events[..|events| - 1]) {
      var i :| 0 <= i < |events| - 1 && events[..|events| - 1][i].Shutdown?;
      assert events[i].Shutdown?;
    }
  }

  lemma StepFlags(cfg: Config, s: State, e: Event)
    requires Enabled(cfg, s, e)
    ensures var t := Step(cfg, s, e);
      && (t.sh.paused <==> e.BeginFlush? || (!e.Resume? && s.sh.paused))
      && (t.sh.shutdown <==> s.sh.shutdown || e.Shutdown?)
      && (t.quiet <==> if e.LeaveFlush? then s.sh.paused else !e.Resume? && s.quiet)
      && (t.discarded <==> s.discarded || HasVictimNow(t, e))
  {
    if e.Attempt? { AttemptNotes(cfg, s, e.c); }
    if e.Attempt? || e.Fetch? || e.Finish? { SectionsKeepFlags(cfg, s, e); }
  }

  lemma AttemptNotes(cfg: Config, s: State, c: nat)
    requires Enabled(cfg, s, Attempt(c))
    ensures var t := Attempted(cfg, s, c); t.discarded <==> s.discarded || HasVictimNow(t, Attempt(c))
  {
  }

  lemma SectionsKeepFlags(cfg: Config, s: State, e: Event)
    requires Enabled(cfg, s, e) && (e.Attempt? || e.Fetch? || e.Finish?)
    ensures var t := Step(cfg, s, e);
      t.sh.paused == s.sh.paused && t.sh.shutdown == s.sh.shutdown && t.quiet == s.quiet
  {
  }
}
