/** Misorder correction: packets that arrive early wait in a bounded priority queue until the expected one comes. */
module Misorder {

  /** The frame index is an unbounded natural number here; the source compares frame indices as signed 64-bit
      numbers, so the model speaks of indices below 2^63 - 1. tag tells apart buffers with equal headers. */
  datatype Packet = Packet(idx: nat, subIdx: nat, last: bool, tag: nat)

  predicate Less(a: Packet, b: Packet) {
    a.idx < b.idx || (a.idx == b.idx && a.subIdx < b.subIdx)
  }

  const MAX_QUEUE_LEN: nat := 10
  const RESET_MISORDER_QUEUE_FRAME_IDX_DIFF: int := 10

  ghost predicate Sorted(q: seq<Packet>) {
    forall i, j :: 0 <= i < j < |q| ==> !Less(q[j], q[i])
  }

  /** Putting p at place `at` keeps the order; which place among equal keys is left open, as a heap leaves it open. */
  ghost predicate Fits(q: seq<Packet>, p: Packet, at: nat) {
    && at <= |q|
    && (forall i :: 0 <= i < at ==> !Less(p, q[i]))
    && (forall i :: at <= i < |q| ==> !Less(q[i], p))
  }

  function Inserted(q: seq<Packet>, p: Packet, at: nat): seq<Packet>
    requires at <= |q|
  {
    q[..at] + [p] + q[at..]
  }

  /** expIdx and expSubIdx are the key awaited; delivered and freed list the packets passed on and given back. */
  datatype State = State(expIdx: int, expSubIdx: int, first: bool, queue: seq<Packet>,
                         delivered: seq<Packet>, freed: seq<Packet>)

  const UINT64_MAX := 0xFFFF_FFFF_FFFF_FFFF

  const INITIAL := State(UINT64_MAX, UINT64_MAX, true, [], [], [])

  function NextIdx(p: Packet): int {
    if p.last then p.idx + 1 else p.idx
  }

  function NextSubIdx(p: Packet): int {
    if p.last then 0 else p.subIdx + 1
  }

  predicate Expected(s: State, p: Packet) {
    p.idx == s.expIdx && p.subIdx == s.expSubIdx
  }

  predicate Ahead(s: State, p: Packet) {
    (p.idx == s.expIdx && p.subIdx > s.expSubIdx) || p.idx > s.expIdx
  }

  predicate FarOff(s: State, p: Packet) {
    p.idx - s.expIdx > RESET_MISORDER_QUEUE_FRAME_IDX_DIFF || s.expIdx - p.idx > RESET_MISORDER_QUEUE_FRAME_IDX_DIFF
  }

  function Deliver(s: State, p: Packet): State {
    s.(delivered := s.delivered + [p], expIdx := NextIdx(p), expSubIdx := NextSubIdx(p))
  }

  function DeliverTop(s: State): State
    requires s.queue != []
  {
    Deliver(s.(queue := s.queue[1..]), s.queue[0])
  }

  function Drain(s: State): State
    decreases |s.queue|
  {
    if s.queue != [] && Expected(s, s.queue[0]) then Drain(DeliverTop(s)) else s
  }

  function FreeCached(s: State): State {
    s.(freed := s.freed + s.queue, queue := [])
  }

  predicate Resets(s: State, p: Packet) {
    s.first || FarOff(s, p)
  }

  /** One call of add_deliver_packet_after_correct_; `at` is where the packet is queued, if it is. */
  function Receive(s: State, p: Packet, at: nat): State
    requires !Resets(s, p) ==> at <= |s.queue|
  {
    if Resets(s, p) then Drain(Deliver(FreeCached(s).(first := false), p))
    else if Expected(s, p) then Drain(Deliver(s, p))
    else
      var t := if Ahead(s, p) then s.(queue := Inserted(s.queue, p, at)) else s.(freed := s.freed + [p]);
      if |t.queue| > MAX_QUEUE_LEN then Drain(DeliverTop(t)) else t
  }

  /** The queue of early packets: a priority queue whose top has the least key. */
  class MisorderBufQueue {
    var pq: seq<Packet>
    const maxQLen: nat

    constructor (qLen: nat)
      requires qLen > 0
      ensures pq == [] && maxQLen == qLen
    {
      pq := [];
      maxQLen := qLen;
    }

    method Push(job: Packet) returns (ghost at: nat)
      requires Sorted(pq)
      modifies this
      ensures Fits(old(pq), job, at) && pq == Inserted(old(pq), job, at) && Sorted(pq)
    {
      PlaceExists(pq, job);
      var k: nat :| k <= |pq| && (forall i :: 0 <= i < k ==> !Less(job, pq[i])) && (forall i :: k <= i < |pq| ==> !Less(pq[i], job));
      at := k;
      InsertedSorted(pq, job, at);
      pq := Inserted(pq, job, k);
    }

    method Pop()
      requires pq != []
      modifies this
      ensures pq == old(pq)[1..]
    {
      pq := pq[1..];
    }

    function Top(): Packet
      requires pq != []
      reads this
    {
      pq[0]
    }

    predicate Full()
      reads this
    {
      |pq| > maxQLen
    }
  }

  lemma {:induction false} PlaceExists(q: seq<Packet>, p: Packet)
    requires Sorted(q)
    ensures exists at: nat :: Fits(q, p, at)
  {
    if q == [] || !Less(p, q[|q| - 1]) {
      assert forall i :: 0 <= i < |q| ==> !Less(p, q[i]);
      assert Fits(q, p, |q|);
    } else {
      var front := q[..|q| - 1];
      PlaceExists(front, p);
      var at: nat :| Fits(front, p, at);
      assert Fits(q, p, at);
    }
  }

  lemma InsertedSorted(q: seq<Packet>, p: Packet, at: nat)
    requires Sorted(q) && Fits(q, p, at)
    ensures Sorted(Inserted(q, p, at))
  {
  }

  class StageClientRead {
    const misorderQue: MisorderBufQueue
    var expectedIdx: int
    var expectedSubIdx: int
    var firstStep: bool
    var delivered: seq<Packet>
    var freed: seq<Packet>

    ghost predicate Valid()
      reads this, misorderQue
    {
      misorderQue.maxQLen == MAX_QUEUE_LEN && Sorted(misorderQue.pq)
    }

    ghost function View(): State
      reads this, misorderQue
    {
      State(expectedIdx, expectedSubIdx, firstStep, misorderQue.pq, delivered, freed)
    }

    constructor ()
      ensures Valid() && View() == INITIAL && fresh(misorderQue)
    {
      misorderQue := new MisorderBufQueue(MAX_QUEUE_LEN);
      expectedIdx, expectedSubIdx, firstStep := UINT64_MAX, UINT64_MAX, true;
      delivered, freed := [], [];
    }

    method SetFirstStep(value: bool)
      requires Valid()
      modifies this`firstStep
      ensures Valid() && View() == old(View()).(first := value)
    {
      firstStep := value;
    }

    method FreeCachedPacket()
      requires Valid()
      modifies this`freed, misorderQue
      ensures Valid() && View() == FreeCached(old(View()))
    {
      while misorderQue.pq != []
        invariant Valid()
        invariant FreeCached(View()) == FreeCached(old(View()))
        invariant unchanged(this`expectedIdx, this`expectedSubIdx, this`firstStep, this`delivered)
        decreases |misorderQue.pq|
      {
        var candidate := misorderQue.Top();
        misorderQue.Pop();
        freed := freed + [candidate];
      }
    }

    method DeliverAndExpectNext(candidate: Packet)
      requires Valid()
      modifies this`delivered, this`expectedIdx, this`expectedSubIdx
      ensures Valid() && View() == Deliver(old(View()), candidate)
    {
      delivered := delivered + [candidate];
      if candidate.last {
        expectedIdx := candidate.idx + 1;
        expectedSubIdx := 0;
      } else {
        expectedIdx := candidate.idx;
        expectedSubIdx := candidate.subIdx + 1;
      }
    }

    method DeliverExpected()
      requires Valid()
      modifies this`delivered, this`expectedIdx, this`expectedSubIdx, misorderQue
      ensures Valid() && View() == Drain(old(View()))
    {
      while |misorderQue.pq| > 0
        invariant Valid()
        invariant Drain(View()) == Drain(old(View()))
        decreases |misorderQue.pq|
      {
        var candidate := misorderQue.Top();
        if candidate.idx == expectedIdx && candidate.subIdx == expectedSubIdx {
          misorderQue.Pop();
          DeliverAndExpectNext(candidate);
        } else {
          break;
        }
      }
    }

    method AddDeliverPacketAfterCorrect(dataPacket: Packet) returns (ghost at: nat)
      requires Valid()
      modifies this, misorderQue
      ensures Valid()
      ensures !Resets(old(View()), dataPacket) ==> Fits(old(misorderQue.pq), dataPacket, at)
      ensures View() == Receive(old(View()), dataPacket, at)
    {
      PlaceExists(misorderQue.pq, dataPacket);
      at :| Fits(misorderQue.pq, dataPacket, at);
      var diff := dataPacket.idx - expectedIdx;
      if firstStep || (if diff < 0 then -diff else diff) > RESET_MISORDER_QUEUE_FRAME_IDX_DIFF {
        FreeCachedPacket();
        SetFirstStep(true);
      }
      if firstStep || (dataPacket.idx == expectedIdx && dataPacket.subIdx == expectedSubIdx) {
        SetFirstStep(false);
        DeliverAndExpectNext(dataPacket);
        DeliverExpected();
      } else {
        if (dataPacket.idx == expectedIdx && dataPacket.subIdx > expectedSubIdx) || dataPacket.idx > expectedIdx {
          at := misorderQue.Push(dataPacket);
        } else {
          freed := freed + [dataPacket];
        }
        if misorderQue.Full() {
          var candidate := misorderQue.Top();
          misorderQue.Pop();
          DeliverAndExpectNext(candidate);
          DeliverExpected();
        }
      }
    }
  }
}
