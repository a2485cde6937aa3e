/** Two promises of the consumer-producer queue that depend on how it is configured, each with the exact
    configurations that keep it. */
module ConsumerProducerExact {
  import opened Options
  import opened ConsumerProducer
  import opened ConsumerProducerRuns
  import opened ConsumerProducerProofs
  import opened Sums

  // ----- add_job_wait_done returns only after its own job was consumed -----

  ghost predicate WasConsumed(s: State, c: nat) {
    exists i :: 0 <= i < |s.log| && s.log[i].job == c
  }

  lemma NotQueued(cfg: Config, s: State, c: nat, p: Priority)
    requires Reachable(cfg, s) && |s.workers| == 1 && c < |s.calls| && CanWake(s, c)
    requires s.calls[c].priority == High || !s.discarded
    ensures Sum(s.sh.Get(p).ring, Queues(c)) == 0
  {
    ReachableHolds(cfg, s);
    var ring := s.sh.Get(p).ring;
    forall i | 0 <= i < |ring|
      ensures Queues(c)(ring[i]) == 0
    {
      assert Genuine(s.calls, ring[i], p);
    }
    SumZero(ring, Queues(c));
  }

  lemma NotHeld(cfg: Config, s: State, c: nat)
    requires Reachable(cfg, s) && |s.workers| == 1 && c < |s.calls| && CanWake(s, c)
    requires s.calls[c].priority == High || !s.discarded
    ensures Sum(s.workers, Holds(c)) == 0 && Sum(s.calls, HasVictim(c)) == 0
  {
    ReachableHolds(cfg, s);
    var w := s.workers[0];
    if w.Busy? { assert Genuine(s.calls, w.job, w.priority); }
    SumZero(s.workers, Holds(c));
    forall k | 0 <= k < |s.calls|
      ensures HasVictim(c)(s.calls[k]) == 0
    {
      assert GenuineDrop(s.calls, s.calls[k]);
    }
    SumZero(s.calls, HasVictim(c));
  }

  /** One worker, no head discarded so far (high-priority heads never are): the wait ends after the job was consumed. */
  lemma WaitEndsAfterJob(cfg: Config, s: State, c: nat)
    requires Reachable(cfg, s) && cfg.workerNum == 1 && c < |s.calls| && CanWake(s, c)
    requires s.calls[c].priority == High || !s.discarded
    ensures WasConsumed(s, c)
  {
    ReachableHolds(cfg, s);
    NotQueued(cfg, s, c, Low);
    NotQueued(cfg, s, c, High);
    NotHeld(cfg, s, c);
    assert OnePlace(s, c);
    if !WasConsumed(s, c) {
      SumZero(s.log, Logs(c));
    }
  }

  /** Under the same conditions the finished id never goes back. */
  lemma FinishedIdNeverDecreases(cfg: Config, s: State, e: Event, p: Priority)
    requires Reachable(cfg, s) && cfg.workerNum == 1 && Enabled(cfg, s, e)
    requires p == High || !Step(cfg, s, e).discarded
    ensures s.sh.Get(p).finishedId <= Step(cfg, s, e).sh.Get(p).finishedId
  {
    ReachableHolds(cfg, s);
    match e
    case Attempt(c) => AttemptKeepsFinished(cfg, s, c, p);
    case _ =>
  }

  lemma AttemptKeepsFinished(cfg: Config, s: State, c: nat, p: Priority)
    requires Enabled(cfg, s, Attempt(c)) && (p == High || !Attempted(cfg, s, c).discarded)
    ensures s.sh.Get(p).finishedId == Attempted(cfg, s, c).sh.Get(p).finishedId
  {
  }

  ghost predicate WaitSound(cfg: Config) {
    forall s, c: nat :: Reachable(cfg, s) && c < |s.calls| && CanWake(s, c) ==> WasConsumed(s, c)
  }

  /** The low-priority ring with one more job at its end, and its caller. */
  ghost predicate Grown(s: State, t: State, k: nat, nd: bool) {
    && t.workers == s.workers && t.log == s.log
    && !t.sh.paused && !t.sh.shutdown
    && s.calls <= t.calls && |t.calls| == |s.calls| + k
    && (forall c :: |s.calls| <= c < |t.calls| ==> t.calls[c].priority == Low && t.calls[c].notDiscardable == nd)
    && t.sh.high == s.sh.high
    && s.sh.low.ring <= t.sh.low.ring && |t.sh.low.ring| == |s.sh.low.ring| + k
    && (forall i :: |s.sh.low.ring| <= i < |t.sh.low.ring| ==>
          && t.sh.low.ring[i].notDiscardable == nd
          && t.sh.low.ring[i].job == |s.calls| + (i - |s.sh.low.ring|)
          && t.sh.low.ring[i].jobId == s.sh.low.jobId + 1 + (i - |s.sh.low.ring|))
    && t.sh.low.jobId == s.sh.low.jobId + k
    && t.sh.low.finishedId == s.sh.low.finishedId
  }

  ghost predicate Open(s: State) {
    !s.sh.paused && !s.sh.shutdown
  }

  lemma AttemptEnqueues(cfg: Config, s: State, c: nat)
    requires Enabled(cfg, s, Attempt(c)) && Open(s) && s.calls[c].priority == Low && |s.sh.low.ring| < cfg.queueSize
    ensures Attempted(cfg, s, c) == Enqueued(s, c)
  {
  }

  lemma EnqueuedGrows(s: State, nd: bool, wait: bool)
    requires Open(s)
    ensures var n := |s.calls|; var t := Enqueued(s.(calls := s.calls + [Call(Low, nd, wait, Trying(0))]), n);
      Grown(s, t, 1, nd) && t.calls[n] == Call(Low, nd, wait, Returned(0, s.sh.low.jobId + 1))
  {
  }

  lemma GrowByOne(cfg: Config, s: State, nd: bool, wait: bool) returns (t: State)
    requires Reachable(cfg, s) && Open(s) && |s.sh.low.ring| < cfg.queueSize
    requires wait ==> nd && cfg.workerNum == 1
    ensures Reachable(cfg, t) && Grown(s, t, 1, nd)
    ensures t.calls[|s.calls|] == Call(Low, nd, wait, Returned(0, s.sh.low.jobId + 1))
  {
    var n, e := |s.calls|, NewCall(Low, nd, wait);
    Extend(cfg, s, e);
    var u := Step(cfg, s, e);
    AttemptEnqueues(cfg, u, n);
    Extend(cfg, u, Attempt(n));
    t := Enqueued(u, n);
    assert t == Step(cfg, u, Attempt(n));
    EnqueuedGrows(s, nd, wait);
  }

  lemma {:induction false} GrowBy(cfg: Config, s: State, k: nat, nd: bool) returns (t: State)
    requires Reachable(cfg, s) && Open(s) && |s.sh.low.ring| + k <= cfg.queueSize
    ensures Reachable(cfg, t) && Grown(s, t, k, nd)
  {
    if k == 0 {
      t := s;
    } else {
      var u := GrowBy(cfg, s, k - 1, nd);
      t := GrowByOne(cfg, u, nd, false);
    }
  }

  lemma StartReachable(cfg: Config)
    ensures Reachable(cfg, Started(cfg))
  {
    assert After(cfg, []) == Some(Started(cfg));
  }

  /** A run in which the wait ends while the awaited job is still to be consumed: it is with the worker when a full
      ring's head, queued after it, is discarded. */
  lemma DiscardEndsWaitEarly(cfg: Config) returns (s: State)
    requires cfg.workerNum == 1 && cfg.queueSize > 0 && cfg.prefer > 0
    ensures Reachable(cfg, s) && |s.calls| > 0 && CanWake(s, 0) && !WasConsumed(s, 0)
    ensures |s.workers| == 1 && s.workers[0].Busy? && s.workers[0].priority == Low && !s.workers[0].consumed
    ensures s.workers[0].job.jobId == 1 && s.sh.low.finishedId == 2
  {
    StartReachable(cfg);
    var a := GrowByOne(cfg, Started(cfg), true, true);
    Extend(cfg, a, Fetch(0));
    var b := Step(cfg, a, Fetch(0));
    assert b == Taken(cfg, a, 0, Low);
    var c := GrowBy(cfg, b, cfg.queueSize, false);
    var n := |c.calls|;
    assert c.calls[0] == a.calls[0];
    var e := NewCall(Low, false, false);
    Extend(cfg, c, e);
    var d := Step(cfg, c, e);
    Extend(cfg, d, Attempt(n));
    s := Step(cfg, d, Attempt(n));
    assert s == Discarded(d, n);
  }

  /** add_job_wait_done keeps its promise exactly in blocking mode. */
  lemma WaitSoundIffBlocking(cfg: Config)
    requires cfg.workerNum == 1 && cfg.queueSize > 0
    ensures WaitSound(cfg) <==> cfg.prefer <= 0
  {
    if cfg.Blocking() {
      forall s, c: nat | Reachable(cfg, s) && c < |s.calls| && CanWake(s, c)
        ensures WasConsumed(s, c)
      {
        ReachableHolds(cfg, s);
        WaitEndsAfterJob(cfg, s, c);
      }
    } else {
      var s := DiscardEndsWaitEarly(cfg);
    }
  }

  /** No event ever lowers the finished id of a priority. */
  ghost predicate NeverBack(cfg: Config) {
    forall s, e, p :: Reachable(cfg, s) && Enabled(cfg, s, e) ==> NotLowered(cfg, s, e, p)
  }

  ghost predicate NotLowered(cfg: Config, s: State, e: Event, p: Priority)
    requires Enabled(cfg, s, e)
  {
    s.sh.Get(p).finishedId <= Step(cfg, s, e).sh.Get(p).finishedId
  }

  /** Where the wait ended early, the worker then finishes the awaited job and takes the finished id back to its own. */
  lemma FinishGoesBack(cfg: Config)
    requires cfg.workerNum == 1 && cfg.queueSize > 0 && cfg.prefer > 0
    ensures !NeverBack(cfg)
  {
    var s := DiscardEndsWaitEarly(cfg);
    Extend(cfg, s, Consume(0));
    var t := Step(cfg, s, Consume(0));
    assert Enabled(cfg, t, Finish(0));
    assert !NotLowered(cfg, t, Finish(0), Low);
  }

  lemma FetchOne(cfg: Config, s: State, w: nat) returns (t: State)
    requires Reachable(cfg, s) && Open(s) && w < |s.workers| && s.workers[w].Idle?
    requires s.sh.high.ring == [] && s.sh.low.ring != []
    ensures Reachable(cfg, t) && t == Taken(cfg, s, w, Low)
  {
    Extend(cfg, s, Fetch(w));
    t := Step(cfg, s, Fetch(w));
  }

  lemma FinishOne(cfg: Config, s: State, w: nat) returns (t: State)
    requires Reachable(cfg, s) && w < |s.workers| && s.workers[w].Busy? && s.workers[w].priority == Low && !s.workers[w].consumed
    ensures Reachable(cfg, t) && t.sh.low.finishedId == s.workers[w].job.jobId && t.workers == s.workers[w := Idle]
  {
    Extend(cfg, s, Consume(w));
    var u := Step(cfg, s, Consume(w));
    Extend(cfg, u, Finish(w));
    t := Step(cfg, u, Finish(w));
    assert t.workers == s.workers[w := Idle];
  }

  /** With two workers the second job may be finished before the first. */
  lemma TwoWorkersGoBack(cfg: Config)
    requires cfg.workerNum > 1 && cfg.queueSize > 0
    ensures !NeverBack(cfg)
  {
    StartReachable(cfg);
    var a := GrowByOne(cfg, Started(cfg), true, false);
    var b := FetchOne(cfg, a, 0);
    var c := GrowByOne(cfg, b, true, false);
    var d := FetchOne(cfg, c, 1);
    assert d.workers[0].job.jobId == 1 && d.workers[1].job.jobId == 2;
    var e := FinishOne(cfg, d, 1);
    Extend(cfg, e, Consume(0));
    var f := Step(cfg, e, Consume(0));
    assert Enabled(cfg, f, Finish(0));
    assert !NotLowered(cfg, f, Finish(0), Low);
  }

  /** The finished ids never go back exactly with a single worker in blocking mode. */
  lemma NeverBackIffBlocking(cfg: Config)
    requires cfg.workerNum > 0 && cfg.queueSize > 0
    ensures NeverBack(cfg) <==> cfg.workerNum == 1 && cfg.prefer <= 0
  {
    if cfg.workerNum > 1 {
      TwoWorkersGoBack(cfg);
    } else if cfg.Blocking() {
      forall s, e, p | Reachable(cfg, s) && Enabled(cfg, s, e)
        ensures NotLowered(cfg, s, e, p)
      {
        StaysUndiscarded(cfg, s, e);
        FinishedIdNeverDecreases(cfg, s, e, p);
      }
    } else {
      FinishGoesBack(cfg);
    }
  }

  lemma StaysUndiscarded(cfg: Config, s: State, e: Event)
    requires cfg.Blocking() && Reachable(cfg, s) && Enabled(cfg, s, e)
    ensures !Step(cfg, s, e).discarded
  {
    Extend(cfg, s, e);
    ReachableHolds(cfg, Step(cfg, s, e));
  }

  // ----- jobs that may not be discarded are consumed as preferred -----

  ghost predicate PreferenceKept(cfg: Config) {
    forall s, i: nat :: Reachable(cfg, s) && i < |s.log| && !s.log[i].prefer ==> Droppable(s.calls, s.log[i].job)
  }

  lemma LongQueueLosesPreference(cfg: Config) returns (s: State)
    requires cfg.workerNum > 0 && cfg.queueSize > cfg.PreferQueueSize()
    ensures Reachable(cfg, s) && s.log == [Entry(0, false)] && !Droppable(s.calls, 0)
  {
    StartReachable(cfg);
    var a := GrowBy(cfg, Started(cfg), cfg.queueSize, true);
    Extend(cfg, a, Fetch(0));
    var b := Step(cfg, a, Fetch(0));
    assert b == Taken(cfg, a, 0, Low);
    Extend(cfg, b, Consume(0));
    s := Step(cfg, b, Consume(0));
  }

  /** A job of high priority, or one that may not be discarded, is never consumed with prefer = false: this holds
      exactly when the preferred size reaches the queue size. */
  lemma PreferenceKeptIffSizes(cfg: Config)
    requires cfg.workerNum > 0
    ensures PreferenceKept(cfg) <==> cfg.prefer <= 0 || cfg.queueSize <= cfg.prefer
  {
    if cfg.queueSize <= cfg.PreferQueueSize() {
      forall s, i: nat | Reachable(cfg, s) && i < |s.log| && !s.log[i].prefer
        ensures Droppable(s.calls, s.log[i].job)
      {
        ReachableHolds(cfg, s);
      }
    } else {
      var s := LongQueueLosesPreference(cfg);
      assert !s.log[0].prefer;
    }
  }
}
