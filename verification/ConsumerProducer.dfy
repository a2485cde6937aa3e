/** The two-priority consumer-producer queue: the sections run under its mutex, as functions on the state the
    mutex protects, and the class that runs them. */
module ConsumerProducer {
  import opened CpQueue

  datatype Priority = Low | High

  /** prefer is the constructor's prefer_queue_size; a value of 0 or less selects blocking mode. */
  datatype Config = Config(queueSize: nat, hiQueueSize: nat, prefer: int, workerNum: nat, allowLog: bool) {
    predicate Blocking() {
      prefer <= 0
    }

    function PreferQueueSize(): int {
      if prefer <= 0 then queueSize else prefer
    }

    function Size(p: Priority): nat {
      if p == Low then queueSize else hiQueueSize
    }
  }

  /** One priority's ring, counters and ids. */
  datatype Lane = Lane(ring: seq<Job>, added: nat, finished: nat, dropped: nat, jobId: nat, finishedId: nat) {
    function Enqueue(job: nat, notDiscardable: bool): Lane {
      Lane(ring + [Job(job, jobId + 1, notDiscardable)], added + 1, finished, dropped, jobId + 1, finishedId)
    }

    function GiveUp(): Lane {
      this.(added := added + 1, dropped := dropped + 1)
    }

    function DropHead(): Lane
      requires ring != []
    {
      Lane(ring[1..], added, finished, dropped + 1, jobId, ring[0].jobId)
    }

    function TakeHead(): Lane
      requires ring != []
    {
      this.(ring := ring[1..])
    }

    function Done(id: nat, preferred: bool): Lane {
      if preferred then this.(finished := finished + 1, finishedId := id)
      else this.(dropped := dropped + 1, finishedId := id)
    }
  }

  const EMPTY_LANE := Lane([], 0, 0, 0, 0, 0)

  /** Everything the mutex protects. */
  datatype Shared = Shared(low: Lane, high: Lane, paused: bool, shutdown: bool) {
    function Get(p: Priority): Lane {
      if p == Low then low else high
    }

    function Put(p: Priority, lane: Lane): Shared {
      if p == Low then this.(low := lane) else this.(high := lane)
    }

    predicate AllAccounted() {
      low.added + high.added == (low.finished + high.finished) + (low.dropped + high.dropped)
    }
  }

  datatype AddOutcome = Wait | Block | GiveUp | Discard(victim: Job) | Enqueue(id: nat)

  /** One pass of a producer through its locked section. */
  function AddSection(cfg: Config, sh: Shared, p: Priority, job: nat, notDiscardable: bool): (Shared, AddOutcome)
    requires cfg.Size(p) > 0
  {
    var lane := sh.Get(p);
    if sh.paused then (sh, Wait)
    else if |lane.ring| >= cfg.Size(p) then
      if p == High || cfg.Blocking() || notDiscardable then (sh, Block)
      else if lane.ring[0].notDiscardable then (sh.Put(p, lane.GiveUp()), GiveUp)
      else (sh.Put(p, lane.DropHead()), Discard(lane.ring[0]))
    else (sh.Put(p, lane.Enqueue(job, notDiscardable)), Enqueue(lane.jobId + 1))
  }

  datatype GetOutcome = Retry | Exit | Got(job: Job, priority: Priority, length: nat)

  /** One pass of a worker through its locked section: the high-priority ring goes first. */
  function GetSection(sh: Shared): (Shared, GetOutcome) {
    if sh.high.ring != [] then
      (sh.(high := sh.high.TakeHead()), Got(sh.high.ring[0], High, |sh.high.ring|))
    else if sh.low.ring != [] then
      (sh.(low := sh.low.TakeHead()), Got(sh.low.ring[0], Low, |sh.low.ring|))
    else if sh.shutdown then (sh, Exit)
    else (sh, Retry)
  }

  /** A job just taken is preferred unless more than the preferred number were queued with low priority. */
  predicate Preferred(cfg: Config, p: Priority, length: nat) {
    p == High || length <= cfg.PreferQueueSize()
  }

  /** What a worker records after its call of the consume function. */
  function DoneSection(sh: Shared, p: Priority, id: nat, preferred: bool): Shared {
    sh.Put(p, sh.Get(p).Done(id, preferred))
  }

  /** The counters of one priority. */
  class Counters {
    var added: nat
    var finished: nat
    var dropped: nat
    var jobId: nat
    var finishedId: nat

    constructor ()
      ensures added == finished == dropped == jobId == finishedId == 0
    {
      added, finished, dropped, jobId, finishedId := 0, 0, 0, 0, 0;
    }
  }

  class ConsumerProducer {
    const cfg: Config
    const queue: CpQueue
    const hiQueue: CpQueue
    const counters: Counters
    const hiCounters: Counters
    var paused: bool
    var shutdown: bool
    var started: nat
    var threads: nat

    ghost const Repr: set<object>

    ghost predicate Valid()
      reads this, Repr
    {
      && Repr == {this, queue, queue.jobs, hiQueue, hiQueue.jobs, counters, hiCounters}
      && queue != hiQueue && queue.jobs != hiQueue.jobs && counters != hiCounters
      && queue.Valid() && hiQueue.Valid()
      && queue.queueSize == cfg.queueSize && hiQueue.queueSize == cfg.hiQueueSize
    }

    ghost function View(): Shared
      requires Valid()
      reads this, Repr
    {
      Shared(
        Lane(queue.Contents(), counters.added, counters.finished, counters.dropped, counters.jobId, counters.finishedId),
        Lane(hiQueue.Contents(), hiCounters.added, hiCounters.finished, hiCounters.dropped, hiCounters.jobId,
             hiCounters.finishedId),
        paused, shutdown)
    }

    constructor (cfg: Config)
      ensures Valid() && this.cfg == cfg && fresh(Repr)
      ensures View() == Shared(EMPTY_LANE, EMPTY_LANE, false, true) && started == threads == 0
    {
      this.cfg := cfg;
      var q := new CpQueue(cfg.queueSize);
      var h := new CpQueue(cfg.hiQueueSize);
      var c := new Counters();
      var d := new Counters();
      queue, hiQueue, counters, hiCounters := q, h, c, d;
      paused, shutdown, started, threads := false, true, 0, 0;
      Repr := {this, q, q.jobs, h, h.jobs, c, d};
    }

    /** The low-priority ring is full and the producer may not block: the head goes, or the new job itself. */
    method MakeRoom() returns (out: AddOutcome)
      requires Valid() && queue.Contents() != []
      modifies queue, queue.jobs, counters
      ensures Valid()
      ensures var lane := old(View()).low;
        if lane.ring[0].notDiscardable then out == GiveUp && View() == old(View()).(low := lane.GiveUp())
        else out == Discard(lane.ring[0]) && View() == old(View()).(low := lane.DropHead())
    {
      var _, head := queue.Pop(true);
      if head.value.notDiscardable {
        counters.added := counters.added + 1;
        counters.dropped := counters.dropped + 1;
        return GiveUp;
      }
      var _, victim := queue.Pop(false);
      counters.dropped := counters.dropped + 1;
      counters.finishedId := victim.value.jobId;
      return Discard(victim.value);
    }

    /** There is room in the ring: the job gets the next id and goes to its end. */
    method Enqueue(job: nat, high: bool, notDiscardable: bool) returns (id: nat)
      requires Valid() && |View().Get(if high then High else Low).ring| < cfg.Size(if high then High else Low)
      modifies Repr
      ensures Valid() && id == old(View()).Get(if high then High else Low).jobId + 1
      ensures var p := if high then High else Low;
        View() == old(View()).Put(p, old(View()).Get(p).Enqueue(job, notDiscardable))
    {
      var q := if high then hiQueue else queue;
      var c := if high then hiCounters else counters;
      c.jobId := c.jobId + 1;
      q.Add(Job(job, c.jobId, notDiscardable));
      c.added := c.added + 1;
      return c.jobId;
    }

    /** The locked part of one iteration of the producer's loop. */
    method AddJobSection(job: nat, high: bool, notDiscardable: bool) returns (out: AddOutcome)
      requires Valid() && cfg.Size(if high then High else Low) > 0
      modifies Repr
      ensures Valid()
      ensures (View(), out) == AddSection(cfg, old(View()), if high then High else Low, job, notDiscardable)
    {
      if paused {
        return Wait;
      }
      var full := if high then hiQueue.full else queue.full;
      if full {
        if high || cfg.Blocking() || notDiscardable {
          return Block;
        }
        out := MakeRoom();
      } else {
        var id := Enqueue(job, high, notDiscardable);
        out := AddOutcome.Enqueue(id);
      }
    }

    /** The locked part of one iteration of the worker's fetch loop. */
    method GetJobSection() returns (out: GetOutcome)
      requires Valid()
      modifies Repr
      ensures Valid()
      ensures (View(), out) == GetSection(old(View()))
    {
      var priority := High;
      var ret, job := hiQueue.Pop(false);
      if ret == 0 {
        priority := Low;
        ret, job := queue.Pop(false);
      }
      if ret != 0 {
        return Got(job.value, priority, ret);
      }
      return if shutdown then Exit else Retry;
    }

    /** The locked part that follows a worker's call of the consume function. */
    method DoneJobSection(high: bool, id: nat, preferred: bool)
      requires Valid()
      modifies Repr
      ensures Valid()
      ensures View() == DoneSection(old(View()), if high then High else Low, id, preferred)
    {
      var c := if high then hiCounters else counters;
      if preferred {
        c.finished := c.finished + 1;
      } else {
        c.dropped := c.dropped + 1;
      }
      c.finishedId := id;
    }

    /** One more start: the queue is open, with its number of workers added to the running ones. */
    method Start()
      requires Valid()
      modifies this`shutdown, this`started, this`threads
      ensures Valid() && View() == old(View()).(shutdown := false)
      ensures started == old(started) + 1 && threads == old(threads) + cfg.workerNum
    {
      started := started + 1;
      shutdown := false;
      for i := 0 to cfg.workerNum
        invariant threads == old(threads) + i && started == old(started) + 1
        invariant Valid() && View() == old(View()).(shutdown := false)
      {
        threads := threads + 1;
      }
    }

    /** The queue is shut; the workers are joined, so that none runs on. */
    method Shutdown()
      requires Valid()
      modifies this`shutdown, this`threads
      ensures Valid() && View() == old(View()).(shutdown := true) && threads == 0
    {
      shutdown := true;
      threads := 0;
    }

    method SetPaused(value: bool)
      requires Valid()
      modifies this`paused
      ensures Valid() && View() == old(View()).(paused := value)
    {
      paused := value;
    }

    /** The test of flush_and_pause's waiting loop. */
    method FlushDone() returns (done: bool)
      requires Valid()
      ensures done == View().AllAccounted()
    {
      var added := counters.added + hiCounters.added;
      var finished := counters.finished + hiCounters.finished;
      var dropped := counters.dropped + hiCounters.dropped;
      return added == finished + dropped;
    }
  }
}
