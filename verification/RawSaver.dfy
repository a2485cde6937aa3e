/** Recording of raw data: packets are cached by sequence id and flushed to a file in order, by a thread of its own. */
module RawSaver {
  import opened Options

  type Bytes = seq<int>

  /** A raw-data packet: its sequence id (below 2^31 - 1, where the source's signed and unsigned ids agree), its
      payload, and whether it closes the recording. */
  datatype Packet = Packet(sid: nat, payload: Bytes, isEnd: bool)

  datatype Status = Working | Stopped | Destroyed

  // ----- the sections, as functions on what each works on -----

  datatype Cached = Cached(expectId: nat, cache: map<nat, Packet>)

  /** add_data, under the cache mutex: ids already passed are dropped, and a second packet with a cached id too. */
  function Insert(c: Cached, p: Packet): Cached {
    if p.sid >= c.expectId && p.sid !in c.cache then c.(cache := c.cache[p.sid := p]) else c
  }

  function Skip(c: Cached, budget: nat): nat
    decreases budget
  {
    if c.expectId in c.cache || budget == 0 then c.expectId else Skip(c.(expectId := c.expectId + 1), budget - 1)
  }

  /** The flush thread's choice: the expected packet, or none and the expectation moved on by at most the number cached. */
  function Pick(c: Cached): (Cached, Option<Packet>) {
    if c.expectId in c.cache then (c.(expectId := c.expectId + 1), Some(c.cache[c.expectId]))
    else (c.(expectId := Skip(c, |c.cache|)), None)
  }

  function Erase(c: Cached, sid: nat): Cached {
    c.(cache := c.cache - {sid})
  }

  /** The file and what is known of its completeness. */
  datatype File = File(data: Bytes, lastFlushSid: int, incomplete: bool)

  const NEW_FILE := File([], -1, false)

  /** What a write takes of a payload: the first bytes of it, or nothing when it fails. */
  function Taken(payload: Bytes, written: Option<nat>): Bytes {
    match written
    case None => []
    case Some(n) => if n <= |payload| then payload[..n] else payload
  }

  /** save_to_tmp_file_; written is the number of bytes written, None when the write failed. */
  function Save(f: File, p: Packet, written: Option<nat>): File {
    File(f.data + Taken(p.payload, written), p.sid, f.incomplete || p.sid != f.lastFlushSid + 1)
  }

  class RawSaver {
    var expectId: nat
    var cache: map<nat, Packet>
    var tmpFile: Bytes
    var tmpFileOpen: bool
    var lastFlushSid: int
    var incomplete: bool
    var status: Status

    ghost function Waiting(): Cached
      reads this
    {
      Cached(expectId, cache)
    }

    ghost function Written(): File
      reads this
    {
      File(tmpFile, lastFlushSid, incomplete)
    }

    constructor ()
      ensures Waiting() == Cached(0, map[]) && Written() == NEW_FILE && status == Working && !tmpFileOpen
    {
      expectId, cache, tmpFile, lastFlushSid, incomplete, status := 0, map[], [], -1, false, Working;
      tmpFileOpen := false;
    }

    method InsertRawData(p: Packet)
      modifies this`cache
      ensures Waiting() == Insert(old(Waiting()), p)
    {
      if p.sid >= expectId {
        if p.sid !in cache {
          cache := cache[p.sid := p];
        }
      }
    }

    method PickNext() returns (dataBuf: Option<Packet>)
      modifies this`expectId
      ensures (Waiting(), dataBuf) == Pick(old(Waiting()))
    {
      if expectId in cache {
        dataBuf := Some(cache[expectId]);
        expectId := expectId + 1;
      } else {
        dataBuf := None;
        var i := 0;
        while expectId !in cache && i < |cache|
          invariant i <= |cache|
          invariant Skip(Waiting(), |cache| - i) == Skip(old(Waiting()), |cache|)
        {
          i := i + 1;
          expectId := expectId + 1;
        }
      }
    }

    /** The file is opened for the first packet and closed with the last one or when a write fails. */
    method SaveToTmpFile(dataBuf: Packet, written: Option<nat>) returns (done: bool)
      modifies this`tmpFile, this`tmpFileOpen, this`lastFlushSid, this`incomplete
      ensures Written() == Save(old(Written()), dataBuf, written)
      ensures done == (dataBuf.isEnd || written == None) && tmpFileOpen == !done
    {
      if dataBuf.sid != lastFlushSid + 1 {
        incomplete := true;
      }
      lastFlushSid := dataBuf.sid;
      if !tmpFileOpen {
        tmpFileOpen := true;
      }
      tmpFile := tmpFile + Taken(dataBuf.payload, written);
      if dataBuf.isEnd || written == None {
        tmpFileOpen := false;
        return true;
      }
      return false;
    }

    method ClearCacheBySid(sid: nat)
      modifies this`cache
      ensures Waiting() == Erase(old(Waiting()), sid)
    {
      if sid in cache {
        cache := cache - {sid};
      }
    }

    method StopWhenFinished()
      modifies this`status
      ensures status == if old(status) == Working then Stopped else old(status)
    {
      if status == Working {
        status := Stopped;
      }
    }
  }

  // ----- the receiver, the flush thread and the timer together -----

  /** Where the flush thread is. Top: before its wait; Choosing: about to pick; the rest follow a picked packet. */
  datatype Place =
    | Top(seen: Status)
    | Choosing
    | Saving(p: Packet)
    | Clearing(sid: nat)
    | Finishing
    | Reading
    | Closing
    | Emptying
    | Ended

  /** tmpFileDone is the flush loop's variable of that name; receiver is the packet add_data has let past its status
      test; kept and flushed list the packets put in the cache and handed to write, pieces what each write took,
      finished counts the calls of finish_. */
  datatype State = State(c: Cached, f: File, status: Status, place: Place, tmpFileDone: bool, receiver: Option<Packet>,
                         kept: seq<Packet>, flushed: seq<Packet>, pieces: seq<Bytes>, finished: nat)

  const START := State(Cached(0, map[]), NEW_FILE, Working, Top(Working), false, None, [], [], [], 0)

  datatype Event =
    | Receive(p: Packet)
    | PutInCache
    | WaitOver
    | PickOne
    | WriteOut(written: Option<nat>)
    | ClearOne
    | Finish
    | ReadStatus
    | EmptyCache
    | TimerStop
    | Destroy

  /** The flush thread goes round again while the status it last read is Working. */
  function Round(status: Status): Place {
    if status == Working then Top(status) else Closing
  }

  predicate Enabled(s: State, e: Event) {
    match e
    case Receive(_) => s.receiver == None && s.status == Working
    case PutInCache => s.receiver.Some?
    case WaitOver => s.place.Top?
    case PickOne => s.place.Choosing?
    case WriteOut(_) => s.place.Saving?
    case ClearOne => s.place.Clearing?
    case Finish => s.place.Finishing? || (s.place.Closing? && !s.tmpFileDone)
    case ReadStatus => s.place.Reading?
    case EmptyCache => s.place.Emptying? || (s.place.Closing? && s.tmpFileDone)
    case TimerStop => true
    case Destroy => true
  }

  function Step(s: State, e: Event): State
    requires Enabled(s, e)
  {
    match e
    case Receive(p) => s.(receiver := Some(p))
    case PutInCache =>
      var c := Insert(s.c, s.receiver.value);
      s.(receiver := None, c := c, kept := if c == s.c then s.kept else s.kept + [s.receiver.value])
    case WaitOver => s.(place := if s.c.cache == map[] then Round(s.status) else Choosing)
    case PickOne =>
      var (c, p) := Pick(s.c);
      s.(c := c, place := if p.Some? then Saving(p.value) else Reading)
    case WriteOut(written) =>
      s.(f := Save(s.f, s.place.p, written), flushed := s.flushed + [s.place.p],
         pieces := s.pieces + [Taken(s.place.p.payload, written)], place := Clearing(s.place.p.sid),
         tmpFileDone := s.place.p.isEnd || written == None)
    case ClearOne => s.(c := Erase(s.c, s.place.sid), place := if s.tmpFileDone then Finishing else Reading)
    case Finish =>
      s.(finished := s.finished + 1, status := if s.status == Working then Stopped else s.status,
         place := if s.place.Finishing? then Reading else Emptying)
    case ReadStatus => s.(place := Round(s.status))
    case EmptyCache => s.(c := s.c.(cache := map[]), place := Ended)
    case TimerStop => s.(status := Stopped)
    case Destroy => s.(status := Destroyed)
  }

  ghost function After(events: seq<Event>): Option<State> {
    if events == [] then Some(START)
    else
      var last := |events| - 1;
      match After(events[..last])
      case None => None
      case Some(s) => if Enabled(s, events[last]) then Some(Step(s, events[last])) else None
  }

  // ----- what every run keeps -----

  /** The id picked and not yet erased. */
  ghost function InHand(place: Place): set<nat> {
    match place
    case Saving(p) => {p.sid}
    case Clearing(sid) => {sid}
    case _ => {}
  }

  /** Every cached id is still to come, except the one in hand, which is just behind. */
  ghost predicate NothingPassed(s: State) {
    && (forall id :: id in s.c.cache ==> s.c.cache[id].sid == id && (id >= s.c.expectId || id in InHand(s.place)))
    && (forall id :: id in InHand(s.place) ==> id < s.c.expectId && id in s.c.cache)
    && (s.place.Saving? ==> s.c.cache[s.place.p.sid] == s.place.p)
  }

  ghost predicate Ascending(ps: seq<Packet>) {
    forall i, j :: 0 <= i < j < |ps| ==> ps[i].sid < ps[j].sid
  }

  /** What was flushed is in ascending order, before what is in hand, which is before what is expected. */
  ghost predicate FlushOrder(s: State) {
    && Ascending(s.flushed)
    && (forall i :: 0 <= i < |s.flushed| ==> s.flushed[i].sid < s.c.expectId)
    && (s.place.Saving? ==> forall i :: 0 <= i < |s.flushed| ==> s.flushed[i].sid < s.place.p.sid)
  }

  ghost function Concat(pieces: seq<Bytes>): Bytes {
    if pieces == [] then [] else Concat(pieces[..|pieces| - 1]) + pieces[|pieces| - 1]
  }

  ghost function Payloads(ps: seq<Packet>): seq<Bytes> {
    seq(|ps|, i requires 0 <= i < |ps| => ps[i].payload)
  }

  /** Each piece is a beginning of its packet's payload. */
  ghost predicate Beginnings(pieces: seq<Bytes>, ps: seq<Packet>) {
    |pieces| == |ps| && forall i :: 0 <= i < |ps| ==> pieces[i] <= ps[i].payload
  }

  ghost predicate Contiguous(ps: seq<Packet>) {
    forall i :: 0 <= i < |ps| ==> ps[i].sid == i
  }

  /** The file holds what the writes took, one after the other. */
  ghost predicate FileMatches(s: State) {
    && Beginnings(s.pieces, s.flushed)
    && s.f.data == Concat(s.pieces)
    && s.f.lastFlushSid == (if s.flushed == [] then -1 else s.flushed[|s.flushed| - 1].sid)
    && (!s.f.incomplete <==> Contiguous(s.flushed))
  }

  /** Every packet put in the cache is cached still or was flushed, until the cache is emptied at the end. */
  ghost predicate Kept(s: State) {
    s.place != Ended ==>
      && (forall i :: 0 <= i < |s.kept| ==>
            (s.kept[i].sid in s.c.cache && s.c.cache[s.kept[i].sid] == s.kept[i]) || s.kept[i] in s.flushed)
      && (forall id :: id in s.c.cache ==> s.c.cache[id] in s.kept)
      && (forall i :: 0 <= i < |s.flushed| ==> s.flushed[i] in s.kept)
      && (s.place.Clearing? && s.place.sid in s.c.cache ==> s.c.cache[s.place.sid] in s.flushed)
  }

  /** finish_ runs once: at the end of the file, or after the loop if the end was not reached. */
  ghost predicate FinishedOnce(s: State) {
    match s.place
    case Top(_) => s.finished == 0 && !s.tmpFileDone
    case Choosing => s.finished == 0 && !s.tmpFileDone
    case Saving(_) => s.finished == 0 && !s.tmpFileDone
    case Clearing(_) => s.finished == 0
    case Finishing => s.finished == 0 && s.tmpFileDone
    case Reading => s.finished == (if s.tmpFileDone then 1 else 0) && (s.tmpFileDone ==> s.status != Working)
    case Closing => s.finished == (if s.tmpFileDone then 1 else 0)
    case Emptying => s.finished == 1
    case Ended => s.finished == 1
  }

  lemma {:induction false} SkipStops(c: Cached, budget: nat)
    ensures c.expectId <= Skip(c, budget) <= c.expectId + budget
    ensures forall id :: c.expectId <= id < Skip(c, budget) ==> id !in c.cache
    ensures Skip(c, budget) in c.cache || Skip(c, budget) == c.expectId + budget
    decreases budget
  {
    if !(c.expectId in c.cache || budget == 0) { SkipStops(c.(expectId := c.expectId + 1), budget - 1); }
  }

  lemma PickPassesNothing(s: State)
    requires s.place.Choosing? && NothingPassed(s)
    ensures NothingPassed(Step(s, PickOne))
  {
    SkipStops(s.c, |s.c.cache|);
    assert InHand(s.place) == {};
  }

  lemma StepNothingPassed(s: State, e: Event)
    requires Enabled(s, e) && NothingPassed(s)
    ensures NothingPassed(Step(s, e))
  {
    if e.PickOne? { PickPassesNothing(s); }
  }

  lemma StepFlushOrder(s: State, e: Event)
    requires Enabled(s, e) && NothingPassed(s) && FlushOrder(s)
    ensures FlushOrder(Step(s, e))
  {
    if e.PickOne? { SkipStops(s.c, |s.c.cache|); }
  }

  lemma ContiguousOneMore(ps: seq<Packet>, p: Packet)
    ensures Contiguous(ps + [p]) <==> Contiguous(ps) && p.sid == |ps|
    ensures Contiguous(ps) && ps != [] ==> ps[|ps| - 1].sid == |ps| - 1
  {
    var qs := ps + [p];
    if Contiguous(qs) {
      assert forall i :: 0 <= i < |ps| ==> ps[i] == qs[i];
      assert qs[|ps|] == p;
    }
  }

  lemma OneMorePiece(pieces: seq<Bytes>, ps: seq<Packet>, p: Packet, written: Option<nat>)
    requires Beginnings(pieces, ps)
    ensures var piece := Taken(p.payload, written);
      Beginnings(pieces + [piece], ps + [p]) && Concat(pieces + [piece]) == Concat(pieces) + piece
  {
    assert (pieces + [Taken(p.payload, written)])[..|pieces|] == pieces;
  }

  lemma WriteMatches(s: State, written: Option<nat>)
    requires s.place.Saving? && FileMatches(s)
    ensures FileMatches(Step(s, WriteOut(written)))
  {
    ContiguousOneMore(s.flushed, s.place.p);
    OneMorePiece(s.pieces, s.flushed, s.place.p, written);
  }

  lemma StepFileMatches(s: State, e: Event)
    requires Enabled(s, e) && FileMatches(s)
    ensures FileMatches(Step(s, e))
  {
    if e.WriteOut? {
      WriteMatches(s, e.written);
    } else {
      var r := Step(s, e);
      assert r.f == s.f && r.flushed == s.flushed && r.pieces == s.pieces;
    }
  }

  lemma StepFinishedOnce(s: State, e: Event)
    requires Enabled(s, e) && FinishedOnce(s)
    ensures FinishedOnce(Step(s, e))
  {
  }

  lemma StepKept(s: State, e: Event)
    requires Enabled(s, e) && NothingPassed(s) && Kept(s)
    ensures Kept(Step(s, e))
  {
    match e
    case PutInCache => PutKeeps(s);
    case WriteOut(written) => WriteKeeps(s, written);
    case ClearOne => ClearKeeps(s);
    case _ =>
  }

  lemma PutKeeps(s: State)
    requires s.receiver.Some? && NothingPassed(s) && Kept(s)
    ensures Kept(Step(s, PutInCache))
  {
  }

  lemma WriteKeeps(s: State, written: Option<nat>)
    requires s.place.Saving? && NothingPassed(s) && Kept(s)
    ensures Kept(Step(s, WriteOut(written)))
  {
  }

  lemma ClearKeeps(s: State)
    requires s.place.Clearing? && NothingPassed(s) && Kept(s)
    ensures Kept(Step(s, ClearOne))
  {
  }

  ghost predicate Holds(s: State) {
    NothingPassed(s) && FlushOrder(s) && FileMatches(s) && FinishedOnce(s) && Kept(s)
  }

  lemma {:induction false} RunHolds(events: seq<Event>)
    requires After(events).Some?
    ensures Holds(After(events).value)
  {
    if events != [] {
      var last := |events| - 1;
      RunHolds(events[..last]);
      var s := After(events[..last]).value;
      StepNothingPassed(s, events[last]);
      StepFlushOrder(s, events[last]);
      StepFileMatches(s, events[last]);
      StepFinishedOnce(s, events[last]);
      StepKept(s, events[last]);
    }
  }

  /** Pieces that are beginnings give no more bytes than the payloads, and the same bytes exactly when each is whole. */
  lemma {:induction false} PiecesExact(pieces: seq<Bytes>, ps: seq<Packet>)
    requires Beginnings(pieces, ps)
    ensures |Concat(pieces)| <= |Concat(Payloads(ps))|
    ensures |Concat(pieces)| == |Concat(Payloads(ps))| <==> pieces == Payloads(ps)
  {
    if ps != [] {
      var n := |ps| - 1;
      assert Payloads(ps)[..n] == Payloads(ps[..n]);
      PiecesExact(pieces[..n], ps[..n]);
      assert pieces == pieces[..n] + [pieces[n]] && Payloads(ps) == Payloads(ps)[..n] + [ps[n].payload];
      assert pieces[n] == ps[n].payload[..|pieces[n]|];
      if |Concat(pieces)| == |Concat(Payloads(ps))| {
        assert |pieces[n]| == |ps[n].payload|;
        assert pieces[n] == ps[n].payload;
      }
    }
  }

  /** In every interleaving the packets are flushed in strictly ascending sequence id, the file is what the writes took of
      their payloads, one after the other, and it is marked incomplete exactly when their ids are not 0, 1, 2, ...; it is
      the payloads themselves exactly when each write took all it was given. */
  lemma RecordedInOrder(events: seq<Event>)
    requires After(events).Some?
    ensures var s := After(events).value;
      && Ascending(s.flushed)
      && Beginnings(s.pieces, s.flushed) && s.f.data == Concat(s.pieces)
      && (s.f.data == Concat(Payloads(s.flushed)) <==> s.pieces == Payloads(s.flushed))
      && (!s.f.incomplete <==> Contiguous(s.flushed))
  {
    RunHolds(events);
    PiecesExact(After(events).value.pieces, After(events).value.flushed);
  }

  /** However often the expected id is given up, no packet in the cache is passed over: each one put there is cached
      still, no earlier than the expected id unless it is being written, or was flushed. */
  lemma NothingPassedOver(events: seq<Event>, p: Packet)
    requires After(events).Some? && After(events).value.place != Ended && p in After(events).value.kept
    ensures var s := After(events).value;
      || p in s.flushed
      || (p.sid in s.c.cache && s.c.cache[p.sid] == p && (p.sid >= s.c.expectId || p.sid in InHand(s.place)))
  {
    RunHolds(events);
  }

  lemma {:induction false} RunPrefix(events: seq<Event>, n: nat)
    requires After(events).Some? && n <= |events|
    ensures After(events[..n]).Some?
    ensures forall p :: p in After(events[..n]).value.kept ==> p in After(events).value.kept
    ensures After(events[..n]).value.place == Ended ==> After(events).value.place == Ended
  {
    if n == |events| {
      assert events[..n] == events;
    } else {
      var last := |events| - 1;
      assert events[..last][..n] == events[..n];
      RunPrefix(events[..last], n);
    }
  }

  /** Whatever happens before and after: a packet that reaches the cache is in it, or was flushed, at every later time until
      the end, unless its id was already passed or already cached when it came; then it leaves the cache as it was. */
  lemma HandedOver(events: seq<Event>, n: nat)
    requires After(events).Some? && n < |events| && events[n] == PutInCache
    ensures After(events[..n]).Some? && After(events[..n + 1]).Some?
    ensures var was, s := After(events[..n]).value, After(events).value;
      was.receiver.Some? && var p := was.receiver.value;
      if p.sid < was.c.expectId || p.sid in was.c.cache then After(events[..n + 1]).value.c == was.c
      else s.place == Ended || p in s.flushed || (p.sid in s.c.cache && s.c.cache[p.sid] == p)
  {
    RunPrefix(events, n);
    RunPrefix(events, n + 1);
    assert events[..n + 1][..n] == events[..n];
    var was, put := After(events[..n]).value, After(events[..n + 1]).value;
    assert put == Step(was, PutInCache);
    var p := was.receiver.value;
    if p.sid >= was.c.expectId && p.sid !in was.c.cache {
      assert p.sid in put.c.cache;
      assert p in put.kept;
      if After(events).value.place != Ended { NothingPassedOver(events, p); }
    }
  }

  /** The flush thread takes the expected packet as soon as it is cached; otherwise it moves on over ids that are not
      cached, to the first that is, but no further than the number of packets cached. */
  lemma PickExact(c: Cached)
    ensures var (d, p) := Pick(c);
      && d.cache == c.cache
      && (if c.expectId in c.cache then p == Some(c.cache[c.expectId]) && d.expectId == c.expectId + 1
          else
            && p == None && c.expectId <= d.expectId <= c.expectId + |c.cache|
            && (forall id :: c.expectId <= id < d.expectId ==> id !in c.cache)
            && (d.expectId in c.cache || d.expectId == c.expectId + |c.cache|))
  {
    SkipStops(c, |c.cache|);
  }

  /** The expectation after so many choices in vain while nothing is put in the cache. */
  ghost function InVain(c: Cached, rounds: nat): Cached {
    if rounds == 0 then c
    else
      var d := InVain(c, rounds - 1);
      if d.expectId in d.cache then d else Pick(d).0
  }

  /** With a cached packet ahead the expectation reaches the first one, n packets being cached, in steps of n. */
  lemma {:induction false} ReachesNext(c: Cached, next: nat, rounds: nat)
    requires next in c.cache && c.expectId <= next && forall id :: c.expectId <= id < next ==> id !in c.cache
    ensures InVain(c, rounds).cache == c.cache
    ensures InVain(c, rounds).expectId == if c.expectId + rounds * |c.cache| < next then c.expectId + rounds * |c.cache| else next
  {
    if rounds > 0 {
      ReachesNext(c, next, rounds - 1);
      assert rounds * |c.cache| == (rounds - 1) * |c.cache| + |c.cache|;
      PickExact(InVain(c, rounds - 1));
    }
  }

  /** What the write calls of a run reported. */
  ghost function Writes(events: seq<Event>): seq<Option<nat>> {
    if events == [] then []
    else
      var e := events[|events| - 1];
      Writes(events[..|events| - 1]) + if e.WriteOut? then [e.written] else []
  }

  /** As many bytes as the write reported, no more than there are; none when it failed. */
  ghost predicate Took(piece: Bytes, p: Packet, written: Option<nat>) {
    && piece <= p.payload
    && |piece| == if written == None then 0 else if written.value < |p.payload| then written.value else |p.payload|
  }

  ghost predicate IsLast(p: Packet, written: Option<nat>) {
    p.isEnd || written == None
  }

  /** Each packet flushed had one write, which took what it reported; nothing is flushed after a packet that closes the
      recording or a failed write. */
  ghost predicate WritesMatch(s: State, writes: seq<Option<nat>>) {
    && |s.flushed| == |s.pieces| == |writes|
    && (forall i :: 0 <= i < |writes| ==> Took(s.pieces[i], s.flushed[i], writes[i]))
    && (forall i :: 0 <= i < |writes| - 1 ==> !IsLast(s.flushed[i], writes[i]))
    && (s.tmpFileDone <==> writes != [] && IsLast(s.flushed[|writes| - 1], writes[|writes| - 1]))
  }

  lemma OneMoreWrite(s: State, writes: seq<Option<nat>>, written: Option<nat>)
    requires s.place.Saving? && FinishedOnce(s) && WritesMatch(s, writes)
    ensures WritesMatch(Step(s, WriteOut(written)), writes + [written])
  {
    var r, ws := Step(s, WriteOut(written)), writes + [written];
    var n := |writes|;
    assert r.flushed[n] == s.place.p && r.pieces[n] == Taken(s.place.p.payload, written) && ws[n] == written;
    assert forall i :: 0 <= i < n ==> r.flushed[i] == s.flushed[i] && r.pieces[i] == s.pieces[i] && ws[i] == writes[i];
    assert Took(r.pieces[n], r.flushed[n], written);
    assert n > 0 ==> !IsLast(s.flushed[n - 1], writes[n - 1]);
  }

  lemma OtherStep(s: State, writes: seq<Option<nat>>, e: Event)
    requires Enabled(s, e) && !e.WriteOut? && WritesMatch(s, writes)
    ensures WritesMatch(Step(s, e), writes)
  {
    var r := Step(s, e);
    assert r.flushed == s.flushed && r.pieces == s.pieces && r.tmpFileDone == s.tmpFileDone;
  }

  lemma {:induction false} FlushedAsWritten(events: seq<Event>)
    requires After(events).Some?
    ensures WritesMatch(After(events).value, Writes(events))
  {
    if events != [] {
      var last := |events| - 1;
      var writes := Writes(events[..last]);
      FlushedAsWritten(events[..last]);
      RunHolds(events[..last]);
      var s := After(events[..last]).value;
      if events[last].WriteOut? {
        OneMoreWrite(s, writes, events[last].written);
      } else {
        OtherStep(s, writes, events[last]);
        assert writes + [] == writes;
      }
    }
  }

  predicate Stops(e: Event) {
    e.Finish? || e.TimerStop? || e.Destroy?
  }

  ghost predicate NeverStopped(events: seq<Event>) {
    forall i :: 0 <= i < |events| ==> !Stops(events[i])
  }

  /** The recorder works until it is first stopped, by the end of the recording, the timer or its destruction. The flush
      thread leaves its loop only after that, and from then on no packet is received any more. */
  lemma {:induction false} WorksUntilStopped(events: seq<Event>)
    requires After(events).Some?
    ensures var s := After(events).value;
      && (s.status == Working <==> NeverStopped(events))
      && (s.place.Closing? || s.place.Emptying? || s.place.Ended? ==> !NeverStopped(events))
      && forall i :: 0 <= i < |events| && events[i].Receive? ==> NeverStopped(events[..i])
  {
    if events != [] {
      var last := |events| - 1;
      WorksUntilStopped(events[..last]);
      assert NeverStopped(events) <==> NeverStopped(events[..last]) && !Stops(events[last]);
      forall i | 0 <= i < |events| && events[i].Receive?
        ensures NeverStopped(events[..i])
      {
        if i < last { assert events[..last][..i] == events[..i]; }
      }
    }
  }

  /** The recording is finished at most once, and exactly once when the flush thread has ended. */
  lemma FinishedExactlyOnce(events: seq<Event>)
    requires After(events).Some?
    ensures After(events).value.finished <= 1
    ensures After(events).value.place == Ended ==> After(events).value.finished == 1
  {
    RunHolds(events);
  }
}
