/** The readers-writer lock built on one mutex and two condition variables. */
module RwLock {
  import opened Options
  import opened Sums

  // ----- the fields, and the sections run under the mutex -----

  datatype Fields = Fields(readers: nat, writerActive: bool, writeRequests: nat)

  /** What a release signals: nothing, one waiting writer, or every waiting reader. */
  datatype Signal = Nobody | OneWriter | AllReaders

  predicate MayRead(f: Fields) {
    !f.writerActive && f.writeRequests == 0
  }

  predicate MayWrite(f: Fields) {
    !f.writerActive && f.readers == 0
  }

  /** The fields after a test of the reader's wait predicate; a reader that passes is counted. */
  function ReadTested(f: Fields): Fields {
    if MayRead(f) then f.(readers := f.readers + 1) else f
  }

  function ReadReleased(f: Fields): (Fields, Signal)
    requires f.readers > 0
  {
    (f.(readers := f.readers - 1), if f.readers > 1 then Nobody else if f.writeRequests > 0 then OneWriter else AllReaders)
  }

  /** The fields after a test of the writer's wait predicate; a writer that passes is no longer a request. */
  function WriteTested(f: Fields): Fields
    requires f.writeRequests > 0
  {
    if MayWrite(f) then Fields(f.readers, true, f.writeRequests - 1) else f
  }

  function WriteReleased(f: Fields): (Fields, Signal) {
    (f.(writerActive := false), if f.writeRequests > 0 then OneWriter else AllReaders)
  }

  class RWLock {
    var readersCount: nat
    var writerActive: bool
    var writeRequests: nat

    ghost function View(): Fields
      reads this
    {
      Fields(readersCount, writerActive, writeRequests)
    }

    constructor ()
      ensures View() == Fields(0, false, 0)
    {
      readersCount, writerActive, writeRequests := 0, false, 0;
    }

    /** One evaluation of acquire_read's wait predicate, and what follows when it holds. */
    method TryRead() returns (acquired: bool)
      modifies this
      ensures acquired == MayRead(old(View()))
      ensures View() == ReadTested(old(View()))
    {
      acquired := !writerActive && writeRequests == 0;
      if acquired {
        readersCount := readersCount + 1;
      }
    }

    method ReleaseRead() returns (signal: Signal)
      requires readersCount > 0
      modifies this
      ensures (View(), signal) == ReadReleased(old(View()))
    {
      readersCount := readersCount - 1;
      if readersCount == 0 {
        signal := if writeRequests > 0 then OneWriter else AllReaders;
      } else {
        signal := Nobody;
      }
    }

    method RequestWrite()
      modifies this
      ensures View() == old(View()).(writeRequests := old(writeRequests) + 1)
    {
      writeRequests := writeRequests + 1;
    }

    /** One evaluation of acquire_write's wait predicate, and what follows when it holds. */
    method TryWrite() returns (acquired: bool)
      requires writeRequests > 0
      modifies this
      ensures acquired == MayWrite(old(View()))
      ensures View() == WriteTested(old(View()))
    {
      acquired := !writerActive && readersCount == 0;
      if acquired {
        writeRequests := writeRequests - 1;
        writerActive := true;
      }
    }

    method ReleaseWrite() returns (signal: Signal)
      modifies this
      ensures (View(), signal) == WriteReleased(old(View()))
    {
      writerActive := false;
      signal := if writeRequests > 0 then OneWriter else AllReaders;
    }
  }

  // ----- any number of threads -----

  /** A waiting thread is asleep on its condition variable, or awake and about to test its predicate again. */
  datatype Thread = Outside | ReadAsleep | ReadAwake | Reading | WriteAsleep | WriteAwake | Writing

  datatype State = State(f: Fields, threads: seq<Thread>)

  /** w names the writer a signal to one writer wakes, when one is asleep. SpuriousWake is the wake-up for no reason
      that condition variables may give. */
  datatype Event =
    | EnterRead(t: nat)
    | RetryRead(t: nat)
    | LeaveRead(t: nat, w: nat)
    | EnterWrite(t: nat)
    | RetryWrite(t: nat)
    | LeaveWrite(t: nat, w: nat)
    | SpuriousWake(t: nat)

  predicate Enabled(s: State, e: Event) {
    && e.t < |s.threads|
    && match e
       case EnterRead(t) => s.threads[t] == Outside
       case RetryRead(t) => s.threads[t] == ReadAwake
       case LeaveRead(t, w) => s.threads[t] == Reading && Wakeable(s.threads, w)
       case EnterWrite(t) => s.threads[t] == Outside
       case RetryWrite(t) => s.threads[t] == WriteAwake && s.f.writeRequests > 0
       case LeaveWrite(t, w) => s.threads[t] == Writing && Wakeable(s.threads, w)
       case SpuriousWake(t) => s.threads[t] == ReadAsleep || s.threads[t] == WriteAsleep
  }

  /** A sleeping writer is chosen when there is one. */
  predicate Wakeable(threads: seq<Thread>, w: nat) {
    WriteAsleep in threads ==> w < |threads| && threads[w] == WriteAsleep
  }

  function Signalled(threads: seq<Thread>, signal: Signal, w: nat): seq<Thread> {
    match signal
    case Nobody => threads
    case OneWriter => if w < |threads| && threads[w] == WriteAsleep then threads[w := WriteAwake] else threads
    case AllReaders => seq(|threads|, i requires 0 <= i < |threads| => if threads[i] == ReadAsleep then ReadAwake else threads[i])
  }

  function TestRead(s: State, t: nat): State
    requires t < |s.threads|
  {
    State(ReadTested(s.f), s.threads[t := if MayRead(s.f) then Reading else ReadAsleep])
  }

  function TestWrite(s: State, t: nat): State
    requires t < |s.threads| && s.f.writeRequests > 0
  {
    State(WriteTested(s.f), s.threads[t := if MayWrite(s.f) then Writing else WriteAsleep])
  }

  function AfterRead(s: State, t: nat, w: nat): State
    requires t < |s.threads| && s.f.readers > 0
  {
    var (f, signal) := ReadReleased(s.f);
    State(f, Signalled(s.threads[t := Outside], signal, w))
  }

  function AfterWrite(s: State, t: nat, w: nat): State
    requires t < |s.threads|
  {
    var (f, signal) := WriteReleased(s.f);
    State(f, Signalled(s.threads[t := Outside], signal, w))
  }

  function Step(s: State, e: Event): State
    requires Enabled(s, e) && (e.LeaveRead? ==> s.f.readers > 0)
  {
    match e
    case EnterRead(t) => TestRead(s, t)
    case RetryRead(t) => TestRead(s, t)
    case LeaveRead(t, w) => AfterRead(s, t, w)
    case EnterWrite(t) => TestWrite(s.(f := s.f.(writeRequests := s.f.writeRequests + 1)), t)
    case RetryWrite(t) => TestWrite(s, t)
    case LeaveWrite(t, w) => AfterWrite(s, t, w)
    case SpuriousWake(t) => s.(threads := s.threads[t := if s.threads[t] == ReadAsleep then ReadAwake else WriteAwake])
  }

  // ----- the fields count the threads -----

  ghost function CountReading(): Thread -> nat {
    (x: Thread) => if x == Reading then 1 else 0
  }

  ghost function CountWriting(): Thread -> nat {
    (x: Thread) => if x == Writing then 1 else 0
  }

  ghost function CountPending(): Thread -> nat {
    (x: Thread) => if x == WriteAsleep || x == WriteAwake then 1 else 0
  }

  ghost predicate Counted(s: State) {
    && s.f.readers == Sum(s.threads, CountReading())
    && (if s.f.writerActive then 1 else 0) == Sum(s.threads, CountWriting())
    && s.f.writeRequests == Sum(s.threads, CountPending())
    && (s.f.writerActive ==> s.f.readers == 0)
  }

  /** No wake-up is lost: a free lock with pending writers has a writer awake; with no writer active or pending no
      reader is asleep. */
  ghost predicate NoWakeupLost(s: State) {
    && (MayWrite(s.f) && s.f.writeRequests > 0 ==> WriteAwake in s.threads)
    && (MayRead(s.f) ==> ReadAsleep !in s.threads)
  }

  lemma Positions(s: State, t: nat)
    requires Counted(s) && t < |s.threads|
    ensures s.threads[t] == Reading ==> s.f.readers > 0
    ensures s.threads[t] == Writing ==> s.f.writerActive
    ensures s.threads[t] == WriteAsleep || s.threads[t] == WriteAwake ==> s.f.writeRequests > 0
  {
    SumElement(s.threads, t, CountReading());
    SumElement(s.threads, t, CountWriting());
    SumElement(s.threads, t, CountPending());
  }

  lemma SetCounts(threads: seq<Thread>, t: nat, x: Thread)
    requires t < |threads|
    ensures Sum(threads[t := x], CountReading()) == Sum(threads, CountReading()) + CountReading()(x) - CountReading()(threads[t])
    ensures Sum(threads[t := x], CountWriting()) == Sum(threads, CountWriting()) + CountWriting()(x) - CountWriting()(threads[t])
    ensures Sum(threads[t := x], CountPending()) == Sum(threads, CountPending()) + CountPending()(x) - CountPending()(threads[t])
  {
    SumUpdate(threads, t, x, CountReading());
    SumUpdate(threads, t, x, CountWriting());
    SumUpdate(threads, t, x, CountPending());
  }

  lemma {:induction false} SameCount(a: seq<Thread>, b: seq<Thread>, f: Thread -> nat)
    requires |a| == |b| && forall i :: 0 <= i < |a| ==> f(a[i]) == f(b[i])
    ensures Sum(a, f) == Sum(b, f)
  {
    if a != [] {
      assert forall i :: 0 <= i < |a| - 1 ==> a[1..][i] == a[i + 1] && b[1..][i] == b[i + 1];
      SameCount(a[1..], b[1..], f);
    }
  }

  lemma SignalKeepsCounts(threads: seq<Thread>, signal: Signal, w: nat)
    ensures var r := Signalled(threads, signal, w);
      && Sum(r, CountReading()) == Sum(threads, CountReading())
      && Sum(r, CountWriting()) == Sum(threads, CountWriting())
      && Sum(r, CountPending()) == Sum(threads, CountPending())
  {
    var r := Signalled(threads, signal, w);
    SameCount(r, threads, CountReading());
    SameCount(r, threads, CountWriting());
    SameCount(r, threads, CountPending());
  }

  /** Some writer is pending, so some thread is asleep or awake as a writer. */
  lemma PendingExists(threads: seq<Thread>)
    requires Sum(threads, CountPending()) > 0
    ensures WriteAsleep in threads || WriteAwake in threads
  {
    SumZero(threads, CountPending());
    var i :| 0 <= i < |threads| && CountPending()(threads[i]) != 0;
  }

  lemma OneWriterWakes(threads: seq<Thread>, w: nat)
    requires Sum(threads, CountPending()) > 0 && Wakeable(threads, w)
    ensures WriteAwake in Signalled(threads, OneWriter, w)
  {
    PendingExists(threads);
    var r := Signalled(threads, OneWriter, w);
    if WriteAsleep in threads {
      assert r[w] == WriteAwake;
    }
  }

  lemma LeaveCounted(s: State, e: Event)
    requires Counted(s) && Enabled(s, e) && (e.LeaveRead? || e.LeaveWrite?)
    ensures (e.LeaveRead? ==> s.f.readers > 0) && Counted(Step(s, e))
  {
    Positions(s, e.t);
    SetCounts(s.threads, e.t, Outside);
    var out := s.threads[e.t := Outside];
    SignalKeepsCounts(out, Nobody, e.w);
    SignalKeepsCounts(out, OneWriter, e.w);
    SignalKeepsCounts(out, AllReaders, e.w);
  }

  lemma TestCounted(s: State, e: Event)
    requires Counted(s) && Enabled(s, e) && !e.LeaveRead? && !e.LeaveWrite?
    ensures Counted(Step(s, e))
  {
    SetCounts(s.threads, e.t, Step(s, e).threads[e.t]);
  }

  lemma StepCounted(s: State, e: Event)
    requires Counted(s) && Enabled(s, e)
    ensures (e.LeaveRead? ==> s.f.readers > 0) && Counted(Step(s, e))
  {
    if e.LeaveRead? || e.LeaveWrite? { LeaveCounted(s, e); } else { TestCounted(s, e); }
  }

  lemma LeaveNotLost(s: State, e: Event)
    requires Counted(s) && NoWakeupLost(s) && Enabled(s, e) && (e.LeaveRead? || e.LeaveWrite?)
    ensures (e.LeaveRead? ==> s.f.readers > 0) && NoWakeupLost(Step(s, e))
  {
    Positions(s, e.t);
    var out := s.threads[e.t := Outside];
    SetCounts(s.threads, e.t, Outside);
    assert Wakeable(out, e.w);
    if s.f.writeRequests > 0 { OneWriterWakes(out, e.w); }
  }

  lemma TestNotLost(s: State, e: Event)
    requires Counted(s) && NoWakeupLost(s) && Enabled(s, e) && !e.LeaveRead? && !e.LeaveWrite?
    ensures NoWakeupLost(Step(s, e))
  {
    var r := Step(s, e);
    assert r.threads == s.threads[e.t := r.threads[e.t]];
    if WriteAwake in s.threads && (e.EnterRead? || e.RetryRead? || e.SpuriousWake?) {
      var k :| 0 <= k < |s.threads| && s.threads[k] == WriteAwake;
      assert r.threads[k] == WriteAwake;
    }
  }

  // ----- every run -----

  ghost function After(n: nat, events: seq<Event>): Option<State> {
    if events == [] then Some(State(Fields(0, false, 0), seq(n, _ => Outside)))
    else
      var last := |events| - 1;
      match After(n, events[..last])
      case None => None
      case Some(s) =>
        if Enabled(s, events[last]) && (events[last].LeaveRead? ==> s.f.readers > 0) then Some(Step(s, events[last]))
        else None
  }

  lemma {:induction false} RunHolds(n: nat, events: seq<Event>)
    requires After(n, events).Some?
    ensures Counted(After(n, events).value) && NoWakeupLost(After(n, events).value)
  {
    if events == [] {
      var idle := seq(n, _ => Outside);
      SumZero(idle, CountReading());
      SumZero(idle, CountWriting());
      SumZero(idle, CountPending());
    } else {
      var last := |events| - 1;
      RunHolds(n, events[..last]);
      var s := After(n, events[..last]).value;
      StepCounted(s, events[last]);
      if events[last].LeaveRead? || events[last].LeaveWrite? {
        LeaveNotLost(s, events[last]);
      } else {
        TestNotLost(s, events[last]);
      }
    }
  }

  /** In every run a writer shares the lock with nobody. */
  lemma WriterIsAlone(n: nat, events: seq<Event>, i: nat, j: nat)
    requires After(n, events).Some?
    requires var threads := After(n, events).value.threads;
      i < |threads| && j < |threads| && i != j && threads[i] == Writing
    ensures After(n, events).value.threads[j] != Writing && After(n, events).value.threads[j] != Reading
  {
    RunHolds(n, events);
    var s := After(n, events).value;
    Positions(s, i);
    Positions(s, j);
    SumPair(s.threads, if i < j then i else j, if i < j then j else i, CountWriting());
  }

  ghost predicate NoWriter(threads: seq<Thread>) {
    forall i :: 0 <= i < |threads| ==> threads[i] != Writing && threads[i] != WriteAsleep && threads[i] != WriteAwake
  }

  ghost predicate NobodyInside(threads: seq<Thread>) {
    forall i :: 0 <= i < |threads| ==> threads[i] != Reading && threads[i] != Writing
  }

  /** In every run a reader that asks gets in if and only if no writer is inside or waiting, whoever else is reading; if not
      it sleeps. No other thread moves. */
  lemma ReadersEnterIff(n: nat, events: seq<Event>, e: Event)
    requires After(n, events).Some? && Enabled(After(n, events).value, e) && (e.EnterRead? || e.RetryRead?)
    ensures var s := After(n, events).value;
      Step(s, e).threads == s.threads[e.t := if NoWriter(s.threads) then Reading else ReadAsleep]
  {
    RunHolds(n, events);
    var s := After(n, events).value;
    SumZero(s.threads, CountWriting());
    SumZero(s.threads, CountPending());
  }

  /** In every run a writer that asks gets in if and only if no thread is inside; if not it sleeps. No other thread moves. */
  lemma WritersEnterIff(n: nat, events: seq<Event>, e: Event)
    requires After(n, events).Some? && Enabled(After(n, events).value, e) && (e.EnterWrite? || e.RetryWrite?)
    ensures var s := After(n, events).value;
      Step(s, e).threads == s.threads[e.t := if NobodyInside(s.threads) then Writing else WriteAsleep]
  {
    RunHolds(n, events);
    var s := After(n, events).value;
    SumZero(s.threads, CountWriting());
    SumZero(s.threads, CountReading());
  }

  /** The first k threads ask to read, one after the other. */
  ghost function Readers(k: nat): (events: seq<Event>)
    ensures |events| == k
  {
    if k == 0 then [] else Readers(k - 1) + [EnterRead(k - 1)]
  }

  /** Any number of readers can be inside together. */
  lemma {:induction false} ReadersShare(n: nat, k: nat)
    requires k <= n
    ensures After(n, Readers(k)).Some?
    ensures var threads := After(n, Readers(k)).value.threads;
      |threads| == n && forall i :: 0 <= i < n ==> threads[i] == if i < k then Reading else Outside
  {
    if k > 0 {
      ReadersShare(n, k - 1);
      assert Readers(k)[..k - 1] == Readers(k - 1);
      ReadersEnterIff(n, Readers(k - 1), EnterRead(k - 1));
    }
  }

  /** A thread that is inside and can leave, or is awake and would get in now. */
  ghost predicate CanProceed(s: State, t: nat) {
    t < |s.threads| &&
    match s.threads[t]
    case Reading => true
    case Writing => true
    case ReadAwake => MayRead(s.f)
    case WriteAwake => MayWrite(s.f)
    case _ => false
  }

  /** In every run, whenever some thread waits, some thread can proceed without any further wake-up. */
  lemma NeverStuck(n: nat, events: seq<Event>, t: nat) returns (u: nat)
    requires After(n, events).Some? && t < |After(n, events).value.threads|
    requires After(n, events).value.threads[t] != Outside
    ensures CanProceed(After(n, events).value, u)
  {
    RunHolds(n, events);
    var s := After(n, events).value;
    Positions(s, t);
    if s.f.writerActive {
      SumZero(s.threads, CountWriting());
      u :| u < |s.threads| && CountWriting()(s.threads[u]) != 0;
    } else if s.f.readers > 0 {
      SumZero(s.threads, CountReading());
      u :| u < |s.threads| && CountReading()(s.threads[u]) != 0;
    } else if s.f.writeRequests > 0 {
      u :| u < |s.threads| && s.threads[u] == WriteAwake;
    } else {
      u := t;
    }
  }
}
