/** The bounded ring of jobs under the consumer-producer queue. */
module CpQueue {
  import opened Options

  /** A queued job: the caller's handle, the id given on enqueue, and whether it may be discarded when full. */
  datatype Job = Job(job: nat, jobId: nat, notDiscardable: bool)

  class CpQueue {
    const queueSize: nat
    const jobs: array<Job>
    var head: nat
    var tail: nat
    var full: bool
    var empty: bool
    var count: nat

    /** Index i places after the head. */
    function At(i: nat): nat
      reads this
    {
      if head + i < queueSize then head + i else head + i - queueSize
    }

    ghost predicate Valid()
      reads this
    {
      && jobs.Length == queueSize
      && count <= queueSize
      && (if queueSize == 0 then head == 0 && tail == 0 else head < queueSize && tail == At(count))
      && (full <==> queueSize > 0 && count == queueSize)
      && (empty <==> count == 0)
    }

    /** The queued jobs, oldest first. */
    ghost function Contents(): seq<Job>
      requires Valid()
      reads this, jobs
    {
      seq(count, i requires 0 <= i < count reads this, jobs requires Valid() => jobs[At(i)])
    }

    constructor (queueSize: nat)
      ensures Valid() && Contents() == [] && this.queueSize == queueSize && fresh(jobs)
    {
      this.queueSize := queueSize;
      jobs := new Job[queueSize](_ => Job(0, 0, false));
      head, tail, count := 0, 0, 0;
      full, empty := false, true;
    }

    method Add(job: Job)
      requires Valid() && |Contents()| < queueSize
      modifies this, jobs
      ensures Valid() && Contents() == old(Contents()) + [job]
    {
      ghost var was := Contents();
      jobs[tail] := job;
      tail := tail + 1;
      if tail == queueSize {
        tail := 0;
      }
      if tail == head {
        full := true;
      }
      empty := false;
      count := count + 1;
      assert forall i :: 0 <= i < |was| ==> Contents()[i] == was[i];
    }

    /** Returns the length before the call, 0 when there is nothing to take; a peek changes nothing. */
    method Pop(peekOnly: bool) returns (ret: nat, job: Option<Job>)
      requires Valid()
      modifies this
      ensures Valid()
      ensures ret == |old(Contents())|
      ensures old(Contents()) == [] ==> job == None && Contents() == []
      ensures old(Contents()) != [] ==> job == Some(old(Contents())[0])
      ensures old(Contents()) != [] ==> Contents() == if peekOnly then old(Contents()) else old(Contents())[1..]
    {
      ret := count;
      if empty {
        return 0, None;
      }
      job := Some(jobs[head]);
      if peekOnly {
        return;
      }
      ghost var was := Contents();
      head := head + 1;
      if head == queueSize {
        head := 0;
      }
      count := count - 1;
      if head == tail {
        empty := true;
      }
      full := false;
      assert forall i :: 0 <= i < count ==> Contents()[i] == was[i + 1];
    }
  }
}
