/** Runs of the consumer-producer queue: any number of producer calls and workers, every interleaving of the
    sections run under the mutex with the consume-function calls made outside it. A thread that the source puts
    to sleep may run its section again at any time, so every wake-up, spurious ones included, is covered. */
module ConsumerProducerRuns {
  import opened Options
  import opened CpQueue
  import opened ConsumerProducer
  import opened Sums

  // ----- states -----

  /** Where one call of add_job or add_job_wait_done is. ret is the code it would return now. */
  datatype Phase =
    | Trying(ret: nat)
    | Discarding(victim: Job)
    | GivingUp
    | Returned(ret: nat, id: nat)
    | Woken(ret: nat, id: nat)

  datatype Call = Call(priority: Priority, notDiscardable: bool, waitDone: bool, phase: Phase) {
    predicate Live() {
      phase.Trying? || phase.Discarding? || phase.GivingUp?
    }
  }

  datatype Worker = Idle | Busy(job: Job, priority: Priority, preferred: bool, consumed: bool) | Exited

  /** One call of the consume function. */
  datatype Entry = Entry(job: nat, prefer: bool)

  /** The job handed over by call number c is named c.
      flushers counts the flush_and_pause calls still in their loop; quiet says one has left it with the pause still
      set and no resume since; lateAdd and discarded record an enqueue after shutdown and a discarded head. */
  datatype State = State(sh: Shared, workers: seq<Worker>, calls: seq<Call>, log: seq<Entry>,
                         flushers: nat, quiet: bool, lateAdd: bool, discarded: bool)

  /** Just after start(). */
  function Started(cfg: Config): State {
    State(Shared(EMPTY_LANE, EMPTY_LANE, false, false), seq(cfg.workerNum, _ => Idle), [], [], 0, false, false, false)
  }

  // ----- steps -----

  datatype Event =
    | NewCall(priority: Priority, notDiscardable: bool, waitDone: bool)
    | Attempt(c: nat)
    | RunDiscarded(c: nat)
    | RunGivenUp(c: nat)
    | WakeUp(c: nat)
    | Fetch(w: nat)
    | Consume(w: nat)
    | Finish(w: nat)
    | BeginFlush
    | LeaveFlush
    | Resume
    | Shutdown

  /** The source's own checks (made when logging is allowed) and the positions of the threads. */
  predicate Enabled(cfg: Config, s: State, e: Event) {
    match e
    case NewCall(p, nd, wait) => cfg.Size(p) > 0 && (wait ==> nd) && (wait && cfg.allowLog ==> cfg.workerNum == 1)
    case Attempt(c) => c < |s.calls| && s.calls[c].phase.Trying? && cfg.Size(s.calls[c].priority) > 0 &&
                       (cfg.allowLog && !s.sh.paused ==> !s.sh.shutdown)
    case RunDiscarded(c) => c < |s.calls| && s.calls[c].phase.Discarding?
    case RunGivenUp(c) => c < |s.calls| && s.calls[c].phase.GivingUp?
    case WakeUp(c) => c < |s.calls| && CanWake(s, c)
    case Fetch(w) => w < |s.workers| && s.workers[w].Idle?
    case Consume(w) => w < |s.workers| && s.workers[w].Busy? && !s.workers[w].consumed
    case Finish(w) => w < |s.workers| && s.workers[w].Busy? && s.workers[w].consumed
    case BeginFlush => cfg.allowLog ==> !s.sh.paused
    case LeaveFlush => s.flushers > 0 && s.sh.AllAccounted()
    case Resume => cfg.allowLog ==> s.sh.paused
    case Shutdown => cfg.allowLog ==> !s.sh.shutdown
  }

  /** add_job_wait_done may leave its waiting loop. */
  predicate CanWake(s: State, c: nat)
    requires c < |s.calls|
  {
    var call := s.calls[c];
    call.waitDone && call.phase.Returned? && call.phase.id <= s.sh.Get(call.priority).finishedId
  }

  function SetPhase(s: State, c: nat, phase: Phase): State
    requires c < |s.calls|
  {
    s.(calls := s.calls[c := s.calls[c].(phase := phase)])
  }

  function Enqueued(s: State, c: nat): State
    requires c < |s.calls| && s.calls[c].phase.Trying?
  {
    var call := s.calls[c];
    var lane := s.sh.Get(call.priority);
    s.(sh := s.sh.Put(call.priority, lane.Enqueue(c, call.notDiscardable)),
       calls := s.calls[c := call.(phase := Returned(call.phase.ret, lane.jobId + 1))],
       lateAdd := s.lateAdd || s.sh.shutdown)
  }

  function GaveUp(s: State, c: nat): State
    requires c < |s.calls|
  {
    var call := s.calls[c];
    s.(sh := s.sh.Put(call.priority, s.sh.Get(call.priority).GiveUp()),
       calls := s.calls[c := call.(phase := GivingUp)])
  }

  function Discarded(s: State, c: nat): State
    requires c < |s.calls| && s.sh.Get(s.calls[c].priority).ring != []
  {
    var call := s.calls[c];
    var lane := s.sh.Get(call.priority);
    s.(sh := s.sh.Put(call.priority, lane.DropHead()),
       calls := s.calls[c := call.(phase := Discarding(lane.ring[0]))],
       discarded := true)
  }

  function Taken(cfg: Config, s: State, w: nat, p: Priority): State
    requires w < |s.workers| && s.sh.Get(p).ring != []
  {
    var lane := s.sh.Get(p);
    s.(sh := s.sh.Put(p, lane.TakeHead()),
       workers := s.workers[w := Busy(lane.ring[0], p, Preferred(cfg, p, |lane.ring|), false)])
  }

  /** One pass of producer call c through its locked section. */
  function Attempted(cfg: Config, s: State, c: nat): State
    requires Enabled(cfg, s, Attempt(c))
  {
    var call := s.calls[c];
    match AddSection(cfg, s.sh, call.priority, c, call.notDiscardable).1
    case Wait => s
    case Block => SetPhase(s, c, Trying(1))
    case GiveUp => GaveUp(s, c)
    case Discard(_) => Discarded(s, c)
    case Enqueue(_) => Enqueued(s, c)
  }

  /** One pass of worker w through its locked section. */
  function Fetched(cfg: Config, s: State, w: nat): State
    requires Enabled(cfg, s, Fetch(w))
  {
    match GetSection(s.sh).1
    case Retry => s
    case Exit => s.(workers := s.workers[w := Exited])
    case Got(_, p, _) => Taken(cfg, s, w, p)
  }

  /** The sections run here are the ones the class runs on the state it protects. */
  lemma SectionsAgree(cfg: Config, s: State, i: nat)
    ensures Enabled(cfg, s, Attempt(i)) ==>
      Attempted(cfg, s, i).sh == AddSection(cfg, s.sh, s.calls[i].priority, i, s.calls[i].notDiscardable).0
    ensures Enabled(cfg, s, Fetch(i)) ==> Fetched(cfg, s, i).sh == GetSection(s.sh).0
  {
  }

  function Step(cfg: Config, s: State, e: Event): State
    requires Enabled(cfg, s, e)
  {
    match e
    case NewCall(p, nd, wait) => s.(calls := s.calls + [Call(p, nd, wait, Trying(0))])
    case Attempt(c) => Attempted(cfg, s, c)
    case RunDiscarded(c) => SetPhase(s, c, Trying(3)).(log := s.log + [Entry(s.calls[c].phase.victim.job, false)])
    case RunGivenUp(c) => SetPhase(s, c, Returned(2, 0)).(log := s.log + [Entry(c, false)])
    case WakeUp(c) => SetPhase(s, c, Woken(s.calls[c].phase.ret, s.calls[c].phase.id))
    case Fetch(w) => Fetched(cfg, s, w)
    case Consume(w) => s.(log := s.log + [Entry(s.workers[w].job.job, s.workers[w].preferred)],
                          workers := s.workers[w := s.workers[w].(consumed := true)])
    case Finish(w) => s.(sh := DoneSection(s.sh, s.workers[w].priority, s.workers[w].job.jobId, s.workers[w].preferred),
                         workers := s.workers[w := Idle])
    case BeginFlush => s.(sh := s.sh.(paused := true), flushers := s.flushers + 1)
    case LeaveFlush => s.(flushers := s.flushers - 1, quiet := s.sh.paused)
    case Resume => s.(sh := s.sh.(paused := false), quiet := false)
    case Shutdown => s.(sh := s.sh.(shutdown := true))
  }

  /** The state after a sequence of events, None when one of them was not enabled. */
  ghost function After(cfg: Config, events: seq<Event>): Option<State> {
    if events == [] then Some(Started(cfg))
    else
      var last := |events| - 1;
      match After(cfg, events[..last])
      case None => None
      case Some(s) => if Enabled(cfg, s, events[last]) then Some(Step(cfg, s, events[last])) else None
  }

  ghost predicate Reachable(cfg: Config, s: State) {
    exists events :: After(cfg, events) == Some(s)
  }

  lemma Extend(cfg: Config, s: State, e: Event)
    requires Reachable(cfg, s) && Enabled(cfg, s, e)
    ensures Reachable(cfg, Step(cfg, s, e))
  {
    var events :| After(cfg, events) == Some(s);
    var longer := events + [e];
    assert longer[..|longer| - 1] == events;
    assert After(cfg, longer) == Some(Step(cfg, s, e));
  }

  // ----- one invariant of every run -----

  ghost function BusyOn(p: Priority): Worker -> nat {
    (w: Worker) => if w.Busy? && w.priority == p then 1 else 0
  }

  ghost function Logs(c: nat): Entry -> nat {
    (e: Entry) => if e.job == c then 1 else 0
  }

  ghost function Queues(c: nat): Job -> nat {
    (j: Job) => if j.job == c then 1 else 0
  }

  /** A worker that has yet to hand job c to the consume function. */
  ghost function Holds(c: nat): Worker -> nat {
    (w: Worker) => if w.Busy? && !w.consumed && w.job.job == c then 1 else 0
  }

  /** A producer that has yet to hand the discarded job c to the consume function. */
  ghost function HasVictim(c: nat): Call -> nat {
    (k: Call) => if k.phase.Discarding? && k.phase.victim.job == c then 1 else 0
  }

  /** Call c still has its own job in hand. */
  ghost function Own(calls: seq<Call>, c: nat): nat {
    if c < |calls| && calls[c].Live() then 1 else 0
  }

  ghost function Queued(sh: Shared, c: nat): nat {
    Sum(sh.low.ring, Queues(c)) + Sum(sh.high.ring, Queues(c))
  }

  /** In how many places job c is: consumed, queued, with a worker, with a discarding producer, with its caller. */
  ghost function Places(s: State, c: nat): nat {
    Sum(s.log, Logs(c)) + Queued(s.sh, c) + Sum(s.workers, Holds(c)) + Sum(s.calls, HasVictim(c)) + Own(s.calls, c)
  }

  ghost predicate OnePlace(s: State, c: nat) {
    Places(s, c) == if c < |s.calls| then 1 else 0
  }

  ghost predicate Conserved(s: State, p: Priority) {
    LaneOutstanding(s.sh.Get(p)) == Sum(s.workers, BusyOn(p))
  }

  /** Jobs accepted but neither accounted for nor queued. */
  ghost function LaneOutstanding(lane: Lane): int {
    lane.added - lane.finished - lane.dropped - |lane.ring|
  }

  /** The queued jobs carry the last ids given out, in order; the ring is within its size. */
  ghost predicate LaneInOrder(lane: Lane, size: nat) {
    && |lane.ring| <= size
    && |lane.ring| <= lane.jobId
    && forall i :: 0 <= i < |lane.ring| ==> lane.ring[i].jobId == lane.jobId - |lane.ring| + 1 + i
  }

  /** What any single event can do to a lane, and by how much it changes the number of jobs workers hold. */
  ghost predicate LaneMove(a: Lane, b: Lane, size: nat, held: int) {
    || (b == a && held == 0)
    || (|a.ring| < size && held == 0 && exists job, nd :: b == a.Enqueue(job, nd))
    || (b == a.GiveUp() && held == 0)
    || (a.ring != [] && b == a.DropHead() && held == 0)
    || (a.ring != [] && b == a.TakeHead() && held == 1)
    || (held == -1 && exists id, preferred :: b == a.Done(id, preferred))
  }

  lemma LaneMoveKeeps(a: Lane, b: Lane, size: nat, held: int)
    requires LaneMove(a, b, size, held) && LaneInOrder(a, size)
    ensures LaneInOrder(b, size)
  {
  }

  lemma LaneMoveCounts(a: Lane, b: Lane, size: nat, held: int)
    requires LaneMove(a, b, size, held)
    ensures LaneOutstanding(b) == LaneOutstanding(a) + held
  {
  }

  lemma AttemptMoves(cfg: Config, s: State, c: nat, p: Priority)
    requires Enabled(cfg, s, Attempt(c))
    ensures LaneMove(s.sh.Get(p), Attempted(cfg, s, c).sh.Get(p), cfg.Size(p), 0)
    ensures Attempted(cfg, s, c).workers == s.workers
  {
    assert p != s.calls[c].priority ==> Attempted(cfg, s, c).sh.Get(p) == s.sh.Get(p);
  }

  lemma TakenMoves(cfg: Config, s: State, w: nat, q: Priority, p: Priority)
    requires w < |s.workers| && s.workers[w].Idle? && s.sh.Get(q).ring != []
    ensures var t := Taken(cfg, s, w, q);
      LaneMove(s.sh.Get(p), t.sh.Get(p), cfg.Size(p), Sum(t.workers, BusyOn(p)) - Sum(s.workers, BusyOn(p)))
  {
    SumUpdate(s.workers, w, Taken(cfg, s, w, q).workers[w], BusyOn(p));
  }

  lemma FetchMoves(cfg: Config, s: State, w: nat, p: Priority)
    requires Enabled(cfg, s, Fetch(w))
    ensures var t := Fetched(cfg, s, w);
      LaneMove(s.sh.Get(p), t.sh.Get(p), cfg.Size(p), Sum(t.workers, BusyOn(p)) - Sum(s.workers, BusyOn(p)))
  {
    match GetSection(s.sh).1
    case Retry =>
    case Exit => SumUpdate(s.workers, w, Exited, BusyOn(p));
    case Got(_, q, _) => TakenMoves(cfg, s, w, q, p);
  }

  lemma WorkMoves(cfg: Config, s: State, e: Event, p: Priority)
    requires Enabled(cfg, s, e) && (e.Consume? || e.Finish?)
    ensures var t := Step(cfg, s, e);
      LaneMove(s.sh.Get(p), t.sh.Get(p), cfg.Size(p), Sum(t.workers, BusyOn(p)) - Sum(s.workers, BusyOn(p)))
  {
    SumUpdate(s.workers, e.w, Step(cfg, s, e).workers[e.w], BusyOn(p));
  }

  lemma StepMoves(cfg: Config, s: State, e: Event, p: Priority)
    requires Enabled(cfg, s, e)
    ensures var t := Step(cfg, s, e);
      LaneMove(s.sh.Get(p), t.sh.Get(p), cfg.Size(p), Sum(t.workers, BusyOn(p)) - Sum(s.workers, BusyOn(p)))
  {
    match e
    case Attempt(c) => AttemptMoves(cfg, s, c, p);
    case Fetch(w) => FetchMoves(cfg, s, w, p);
    case Consume(_) => WorkMoves(cfg, s, e, p);
    case Finish(_) => WorkMoves(cfg, s, e, p);
    case _ =>
  }

  lemma PhasePlaces(s: State, k: nat, phase: Phase, c: nat)
    requires k < |s.calls| && s.calls[k].phase.Trying? && (phase.Trying? || phase.GivingUp?)
    ensures Places(SetPhase(s, k, phase), c) == Places(s, c)
  {
    SumUpdate(s.calls, k, s.calls[k].(phase := phase), HasVictim(c));
  }

  lemma EnqueuedPlaces(s: State, k: nat, c: nat)
    requires k < |s.calls| && s.calls[k].phase.Trying?
    ensures Places(Enqueued(s, k), c) == Places(s, c)
  {
    var t := Enqueued(s, k);
    var lane := s.sh.Get(s.calls[k].priority);
    SumUpdate(s.calls, k, t.calls[k], HasVictim(c));
    SumAppend(lane.ring, Job(k, lane.jobId + 1, s.calls[k].notDiscardable), Queues(c));
  }

  lemma DiscardedPlaces(s: State, k: nat, c: nat)
    requires k < |s.calls| && s.calls[k].phase.Trying? && s.sh.Get(s.calls[k].priority).ring != []
    ensures Places(Discarded(s, k), c) == Places(s, c)
  {
    SumUpdate(s.calls, k, Discarded(s, k).calls[k], HasVictim(c));
  }

  lemma TakenPlaces(cfg: Config, s: State, w: nat, p: Priority, c: nat)
    requires w < |s.workers| && s.workers[w].Idle? && s.sh.Get(p).ring != []
    ensures Places(Taken(cfg, s, w, p), c) == Places(s, c)
  {
    SumUpdate(s.workers, w, Taken(cfg, s, w, p).workers[w], Holds(c));
  }

  lemma LoggedPlaces(cfg: Config, s: State, e: Event, c: nat)
    requires Enabled(cfg, s, e) && (e.RunDiscarded? || e.RunGivenUp? || e.WakeUp?)
    ensures Places(Step(cfg, s, e), c) == Places(s, c)
  {
    var t := Step(cfg, s, e);
    SumUpdate(s.calls, e.c, t.calls[e.c], HasVictim(c));
    if !e.WakeUp? {
      SumAppend(s.log, t.log[|s.log|], Logs(c));
    }
  }

  lemma WorkerPlaces(cfg: Config, s: State, e: Event, c: nat)
    requires Enabled(cfg, s, e) && (e.Consume? || e.Finish?)
    ensures Places(Step(cfg, s, e), c) == Places(s, c)
  {
    var t := Step(cfg, s, e);
    SumUpdate(s.workers, e.w, t.workers[e.w], Holds(c));
    if e.Consume? {
      SumAppend(s.log, t.log[|s.log|], Logs(c));
    }
  }

  lemma AttemptPlaces(cfg: Config, s: State, k: nat, c: nat)
    requires Enabled(cfg, s, Attempt(k))
    ensures Places(Attempted(cfg, s, k), c) == Places(s, c) && |Attempted(cfg, s, k).calls| == |s.calls|
  {
    match AddSection(cfg, s.sh, s.calls[k].priority, k, s.calls[k].notDiscardable).1
    case Wait =>
    case Block => PhasePlaces(s, k, Trying(1), c);
    case GiveUp => PhasePlaces(s, k, GivingUp, c);
    case Discard(_) => DiscardedPlaces(s, k, c);
    case Enqueue(_) => EnqueuedPlaces(s, k, c);
  }

  lemma FetchPlaces(cfg: Config, s: State, w: nat, c: nat)
    requires Enabled(cfg, s, Fetch(w))
    ensures Places(Fetched(cfg, s, w), c) == Places(s, c)
  {
    match GetSection(s.sh).1
    case Retry =>
    case Exit => SumUpdate(s.workers, w, Exited, Holds(c));
    case Got(_, p, _) => TakenPlaces(cfg, s, w, p, c);
  }

  lemma PlacesStep(cfg: Config, s: State, e: Event, c: nat)
    requires Enabled(cfg, s, e) && OnePlace(s, c)
    ensures OnePlace(Step(cfg, s, e), c)
  {
    match e
    case NewCall(p, nd, wait) => SumAppend(s.calls, Call(p, nd, wait, Trying(0)), HasVictim(c));
    case Attempt(k) => AttemptPlaces(cfg, s, k, c);
    case Fetch(w) => FetchPlaces(cfg, s, w, c);
    case Consume(w) => WorkerPlaces(cfg, s, e, c);
    case Finish(w) => WorkerPlaces(cfg, s, e, c);
    case RunDiscarded(_) => LoggedPlaces(cfg, s, e, c);
    case RunGivenUp(_) => LoggedPlaces(cfg, s, e, c);
    case WakeUp(_) => LoggedPlaces(cfg, s, e, c);
    case _ =>
  }

  /** Job j, of priority p, is the one its caller submitted, under the id its caller was given. */
  ghost predicate Genuine(calls: seq<Call>, j: Job, p: Priority) {
    && j.job < |calls|
    && calls[j.job].priority == p
    && calls[j.job].notDiscardable == j.notDiscardable
    && (calls[j.job].phase.Returned? || calls[j.job].phase.Woken?)
    && calls[j.job].phase.id == j.jobId
  }

  ghost predicate GenuineRing(calls: seq<Call>, ring: seq<Job>, p: Priority) {
    forall i :: 0 <= i < |ring| ==> Genuine(calls, ring[i], p)
  }

  ghost predicate GenuineWorkers(calls: seq<Call>, workers: seq<Worker>) {
    forall w :: 0 <= w < |workers| && workers[w].Busy? ==> Genuine(calls, workers[w].job, workers[w].priority)
  }

  /** Only a low-priority call that may be discarded drops a head or gives up, and the head may be discarded too. */
  ghost predicate GenuineDrop(calls: seq<Call>, call: Call) {
    && (call.phase.Discarding? || call.phase.GivingUp? ==> call.priority == Low && !call.notDiscardable)
    && (call.phase.Discarding? ==> Genuine(calls, call.phase.victim, Low) && !call.phase.victim.notDiscardable)
  }

  ghost predicate GenuineDrops(calls: seq<Call>) {
    forall c :: 0 <= c < |calls| ==> GenuineDrop(calls, calls[c])
  }

  ghost predicate AllGenuine(s: State) {
    && GenuineRing(s.calls, s.sh.low.ring, Low)
    && GenuineRing(s.calls, s.sh.high.ring, High)
    && GenuineWorkers(s.calls, s.workers)
    && GenuineDrops(s.calls)
  }

  /** A later list of calls that keeps every id already returned. */
  ghost predicate Later(before: seq<Call>, after: seq<Call>) {
    && |before| <= |after|
    && forall c :: 0 <= c < |before| ==>
         && after[c].priority == before[c].priority
         && after[c].notDiscardable == before[c].notDiscardable
         && (before[c].phase.Returned? || before[c].phase.Woken? ==>
               (after[c].phase.Returned? || after[c].phase.Woken?) && after[c].phase.id == before[c].phase.id)
  }

  lemma SetIsLater(calls: seq<Call>, k: nat, phase: Phase)
    requires k < |calls|
    requires calls[k].Live() || (calls[k].phase.Returned? && phase == Woken(calls[k].phase.ret, calls[k].phase.id))
    ensures Later(calls, calls[k := calls[k].(phase := phase)])
  {
  }

  lemma AttemptIsLater(cfg: Config, s: State, c: nat)
    requires Enabled(cfg, s, Attempt(c))
    ensures Later(s.calls, Attempted(cfg, s, c).calls)
  {
    var t := Attempted(cfg, s, c);
    assert t.calls == s.calls[c := s.calls[c].(phase := t.calls[c].phase)];
    SetIsLater(s.calls, c, t.calls[c].phase);
  }

  lemma StepIsLater(cfg: Config, s: State, e: Event)
    requires Enabled(cfg, s, e)
    ensures Later(s.calls, Step(cfg, s, e).calls)
  {
    match e
    case Attempt(c) => AttemptIsLater(cfg, s, c);
    case RunDiscarded(c) => SetIsLater(s.calls, c, Trying(3));
    case RunGivenUp(c) => SetIsLater(s.calls, c, Returned(2, 0));
    case WakeUp(c) => SetIsLater(s.calls, c, Woken(s.calls[c].phase.ret, s.calls[c].phase.id));
    case _ =>
  }

  lemma GenuineLater(before: seq<Call>, after: seq<Call>, low: seq<Job>, high: seq<Job>, workers: seq<Worker>)
    requires Later(before, after)
    requires GenuineRing(before, low, Low) && GenuineRing(before, high, High) && GenuineWorkers(before, workers)
    ensures GenuineRing(after, low, Low) && GenuineRing(after, high, High) && GenuineWorkers(after, workers)
  {
  }

  lemma DropsLater(calls: seq<Call>, c: nat, phase: Phase)
    requires c < |calls| && GenuineDrops(calls)
    requires Later(calls, calls[c := calls[c].(phase := phase)])
    requires GenuineDrop(calls, calls[c].(phase := phase))
    ensures GenuineDrops(calls[c := calls[c].(phase := phase)])
  {
    var after := calls[c := calls[c].(phase := phase)];
    forall k | 0 <= k < |after|
      ensures GenuineDrop(after, after[k])
    {
      if k != c { assert GenuineDrop(calls, calls[k]); }
    }
  }

  /** A call whose phase moves on, with the rings and workers as they were. */
  lemma GenuinePhase(s: State, c: nat, phase: Phase)
    requires AllGenuine(s) && c < |s.calls|
    requires Later(s.calls, s.calls[c := s.calls[c].(phase := phase)])
    requires GenuineDrop(s.calls, s.calls[c].(phase := phase))
    ensures AllGenuine(SetPhase(s, c, phase))
  {
    GenuineLater(s.calls, s.calls[c := s.calls[c].(phase := phase)], s.sh.low.ring, s.sh.high.ring, s.workers);
    DropsLater(s.calls, c, phase);
  }

  lemma GenuineEnqueued(s: State, c: nat)
    requires AllGenuine(s) && c < |s.calls| && s.calls[c].phase.Trying?
    ensures AllGenuine(Enqueued(s, c))
  {
    var p := s.calls[c].priority;
    var lane := s.sh.Get(p);
    var phase := Returned(s.calls[c].phase.ret, lane.jobId + 1);
    SetIsLater(s.calls, c, phase);
    GenuinePhase(s, c, phase);
    var t := Enqueued(s, c);
    assert t.sh.Get(p).ring == lane.ring + [Job(c, lane.jobId + 1, s.calls[c].notDiscardable)];
    assert GenuineRing(t.calls, lane.ring, p);
  }

  lemma GenuineDiscarded(s: State, c: nat)
    requires AllGenuine(s) && c < |s.calls| && s.calls[c].phase.Trying? && s.sh.Get(s.calls[c].priority).ring != []
    requires s.calls[c].priority == Low && !s.calls[c].notDiscardable && !s.sh.low.ring[0].notDiscardable
    ensures AllGenuine(Discarded(s, c))
  {
    assert Genuine(s.calls, s.sh.low.ring[0], Low);
    SetIsLater(s.calls, c, Discarding(s.sh.low.ring[0]));
    GenuinePhase(s, c, Discarding(s.sh.low.ring[0]));
  }

  lemma GenuineTaken(cfg: Config, s: State, w: nat, p: Priority)
    requires AllGenuine(s) && w < |s.workers| && s.sh.Get(p).ring != []
    ensures AllGenuine(Taken(cfg, s, w, p))
  {
    assert Genuine(s.calls, s.sh.Get(p).ring[0], p);
  }

  lemma GenuineAttempt(cfg: Config, s: State, c: nat)
    requires Enabled(cfg, s, Attempt(c)) && AllGenuine(s)
    ensures AllGenuine(Attempted(cfg, s, c))
  {
    SetIsLater(s.calls, c, Trying(1));
    SetIsLater(s.calls, c, GivingUp);
    match AddSection(cfg, s.sh, s.calls[c].priority, c, s.calls[c].notDiscardable).1
    case Wait =>
    case Block => GenuinePhase(s, c, Trying(1));
    case GiveUp => GenuinePhase(s, c, GivingUp);
    case Discard(_) => GenuineDiscarded(s, c);
    case Enqueue(_) => GenuineEnqueued(s, c);
  }

  lemma GenuineFetch(cfg: Config, s: State, w: nat)
    requires Enabled(cfg, s, Fetch(w)) && AllGenuine(s)
    ensures AllGenuine(Fetched(cfg, s, w))
  {
    match GetSection(s.sh).1
    case Retry =>
    case Exit =>
    case Got(_, p, _) => GenuineTaken(cfg, s, w, p);
  }

  lemma GenuineNewCall(s: State, call: Call)
    requires AllGenuine(s) && call.phase.Trying?
    ensures AllGenuine(s.(calls := s.calls + [call]))
  {
    GenuineLater(s.calls, s.calls + [call], s.sh.low.ring, s.sh.high.ring, s.workers);
    forall k | 0 <= k < |s.calls|
      ensures GenuineDrop(s.calls + [call], s.calls[k])
    {
      assert GenuineDrop(s.calls, s.calls[k]);
    }
  }

  lemma GenuineWork(cfg: Config, s: State, e: Event)
    requires Enabled(cfg, s, e) && AllGenuine(s) && (e.Consume? || e.Finish?)
    ensures AllGenuine(Step(cfg, s, e))
  {
  }

  lemma GenuineRun(cfg: Config, s: State, e: Event)
    requires Enabled(cfg, s, e) && AllGenuine(s) && (e.RunDiscarded? || e.RunGivenUp? || e.WakeUp?)
    ensures AllGenuine(Step(cfg, s, e))
  {
    var phase := Step(cfg, s, e).calls[e.c].phase;
    SetIsLater(s.calls, e.c, phase);
    GenuinePhase(s, e.c, phase);
  }

  lemma GenuineStep(cfg: Config, s: State, e: Event)
    requires Enabled(cfg, s, e) && AllGenuine(s)
    ensures AllGenuine(Step(cfg, s, e))
  {
    match e
    case NewCall(p, nd, wait) => GenuineNewCall(s, Call(p, nd, wait, Trying(0)));
    case Attempt(c) => GenuineAttempt(cfg, s, c);
    case Fetch(w) => GenuineFetch(cfg, s, w);
    case Consume(_) => GenuineWork(cfg, s, e);
    case Finish(_) => GenuineWork(cfg, s, e);
    case RunDiscarded(_) => GenuineRun(cfg, s, e);
    case RunGivenUp(_) => GenuineRun(cfg, s, e);
    case WakeUp(_) => GenuineRun(cfg, s, e);
    case _ =>
  }
}
