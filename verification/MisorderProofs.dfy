/** Whole runs of the misorder correction: no packet is lost track of, deliveries between resets are in order, and
    a stream disturbed by at most ten places is restored exactly. */
module MisorderProofs {
  import opened Options
  import opened Misorder
  import opened Sums

  // ----- runs -----

  /** What reaches the correction: a packet, a rewind of the input, or the freeing of all cached packets. */
  datatype Input = Arrive(p: Packet, at: nat) | Rewind | FreeAll

  /** start is how many packets had been delivered when the last reset delivered its own. */
  datatype Trace = Trace(s: State, start: nat)

  ghost predicate Legal(s: State, e: Input) {
    e.Arrive? && !Resets(s, e.p) ==> Fits(s.queue, e.p, e.at)
  }

  ghost function Apply(t: Trace, e: Input): Trace
    requires Legal(t.s, e)
  {
    match e
    case Arrive(p, at) => Trace(Receive(t.s, p, at), if Resets(t.s, p) then |t.s.delivered| else t.start)
    case Rewind => t.(s := t.s.(first := true))
    case FreeAll => t.(s := FreeCached(t.s))
  }

  ghost function After(inputs: seq<Input>): Option<Trace> {
    if inputs == [] then Some(Trace(INITIAL, 0))
    else
      var last := |inputs| - 1;
      match After(inputs[..last])
      case None => None
      case Some(t) => if Legal(t.s, inputs[last]) then Some(Apply(t, inputs[last])) else None
  }

  ghost function Arrivals(inputs: seq<Input>): seq<Packet> {
    if inputs == [] then []
    else
      var last := |inputs| - 1;
      Arrivals(inputs[..last]) + if inputs[last].Arrive? then [inputs[last].p] else []
  }

  // ----- nothing is lost track of -----

  ghost function Tracked(s: State): multiset<Packet> {
    multiset(s.delivered) + multiset(s.queue) + multiset(s.freed)
  }

  lemma DeliverTopTracked(s: State)
    requires s.queue != []
    ensures Tracked(DeliverTop(s)) == Tracked(s)
  {
    assert s.queue == [s.queue[0]] + s.queue[1..];
  }

  lemma {:induction false} DrainTracked(s: State)
    ensures Tracked(Drain(s)) == Tracked(s) && |Drain(s).queue| <= |s.queue|
    ensures Drain(s).first == s.first
    decreases |s.queue|
  {
    if s.queue != [] && Expected(s, s.queue[0]) {
      DeliverTopTracked(s);
      DrainTracked(DeliverTop(s));
    }
  }

  lemma InsertedTracked(q: seq<Packet>, p: Packet, at: nat)
    requires at <= |q|
    ensures multiset(Inserted(q, p, at)) == multiset(q) + multiset{p}
  {
    assert q == q[..at] + q[at..];
  }

  lemma ReceiveTracked(s: State, p: Packet, at: nat)
    requires |s.queue| <= MAX_QUEUE_LEN && (!Resets(s, p) ==> at <= |s.queue|)
    ensures Tracked(Receive(s, p, at)) == Tracked(s) + multiset{p}
    ensures |Receive(s, p, at).queue| <= MAX_QUEUE_LEN && !Receive(s, p, at).first
  {
    if Resets(s, p) {
      DrainTracked(Deliver(FreeCached(s).(first := false), p));
    } else if Expected(s, p) {
      DrainTracked(Deliver(s, p));
    } else {
      if Ahead(s, p) { InsertedTracked(s.queue, p, at); }
      var t := if Ahead(s, p) then s.(queue := Inserted(s.queue, p, at)) else s.(freed := s.freed + [p]);
      assert Tracked(t) == Tracked(s) + multiset{p};
      if |t.queue| > MAX_QUEUE_LEN {
        DeliverTopTracked(t);
        DrainTracked(DeliverTop(t));
      }
    }
  }

  /** In every run the packets that arrived are those delivered, cached and freed, each as often as it arrived;
      at most ten are cached. */
  lemma {:induction false} EveryPacketTracked(inputs: seq<Input>)
    requires After(inputs).Some?
    ensures Tracked(After(inputs).value.s) == multiset(Arrivals(inputs))
    ensures |After(inputs).value.s.queue| <= 10
  {
    if inputs != [] {
      var last := |inputs| - 1;
      EveryPacketTracked(inputs[..last]);
      var t := After(inputs[..last]).value;
      if inputs[last].Arrive? {
        ReceiveTracked(t.s, inputs[last].p, inputs[last].at);
      }
    }
  }

  // ----- when the correction starts anew -----

  /** No packet has arrived since the beginning or the last rewind. */
  ghost predicate Fresh(inputs: seq<Input>) {
    inputs == [] || inputs[|inputs| - 1].Rewind? || (inputs[|inputs| - 1].FreeAll? && Fresh(inputs[..|inputs| - 1]))
  }

  lemma {:induction false} FirstMeansFresh(inputs: seq<Input>)
    requires After(inputs).Some?
    ensures After(inputs).value.s.first <==> Fresh(inputs)
  {
    if inputs != [] {
      var last := |inputs| - 1;
      FirstMeansFresh(inputs[..last]);
      EveryPacketTracked(inputs[..last]);
      if inputs[last].Arrive? { ReceiveTracked(After(inputs[..last]).value.s, inputs[last].p, inputs[last].at); }
    }
  }

  /** More than ten frames before or after the one awaited. */
  ghost predicate FramesAway(s: State, p: Packet) {
    p.idx < s.expIdx - 10 || p.idx > s.expIdx + 10
  }

  lemma {:induction false} DrainEmpty(s: State)
    requires s.queue == []
    ensures Drain(s) == s
  {
  }

  /** The correction starts anew exactly with the first packet of all, the first one after a rewind, and one more than ten
      frames from the awaited frame, in either direction: that packet is delivered at once and everything cached given
      back. Every other packet is counted with those delivered since. */
  lemma StartsAnewExactly(inputs: seq<Input>, p: Packet, at: nat)
    requires After(inputs).Some? && Legal(After(inputs).value.s, Arrive(p, at))
    ensures var t := After(inputs).value; var r := Apply(t, Arrive(p, at));
      if Fresh(inputs) || FramesAway(t.s, p) then
        r.start == |t.s.delivered| && r.s.delivered == t.s.delivered + [p] && r.s.freed == t.s.freed + t.s.queue && r.s.queue == []
      else r.start == t.start && (r.s.freed == t.s.freed || r.s.freed == t.s.freed + [p])
  {
    var t := After(inputs).value;
    FirstMeansFresh(inputs);
    DrainFrees(Deliver(t.s, p));
    DrainEmpty(Deliver(FreeCached(t.s).(first := false), p));
    if !Resets(t.s, p) && Ahead(t.s, p) {
      var u := t.s.(queue := Inserted(t.s.queue, p, at));
      DrainFrees(DeliverTop(u));
    } else if t.s.queue != [] {
      DrainFrees(DeliverTop(t.s.(freed := t.s.freed + [p])));
    }
  }

  lemma {:induction false} DrainFrees(s: State)
    ensures Drain(s).freed == s.freed
    decreases |s.queue|
  {
    if s.queue != [] && Expected(s, s.queue[0]) { DrainFrees(DeliverTop(s)); }
  }

  /** A packet that comes after its turn, of the awaited frame or one at most ten before it, is given back undelivered and
      nothing else changes. */
  lemma LateIsFreed(s: State, p: Packet, at: nat)
    requires !s.first && |s.queue| <= 10 && at <= |s.queue|
    requires 0 <= s.expIdx - p.idx <= 10 && (p.idx == s.expIdx ==> p.subIdx < s.expSubIdx)
    ensures Receive(s, p, at) == s.(freed := s.freed + [p])
  {
  }

  // ----- deliveries between resets are in order -----

  /** Two packets of one stream: different keys, and a frame's last packet has its greatest sub-index. */
  ghost predicate Compatible(a: Packet, b: Packet) {
    && (Less(a, b) || Less(b, a))
    && (a.idx == b.idx && a.last ==> Less(b, a))
    && (a.idx == b.idx && b.last ==> Less(a, b))
  }

  ghost predicate AllCompatible(q: seq<Packet>) {
    forall i, j :: 0 <= i < j < |q| ==> Compatible(q[i], q[j])
  }

  ghost predicate Increasing(q: seq<Packet>, start: nat) {
    forall i, j :: start <= i < j < |q| ==> Less(q[i], q[j])
  }

  /** The awaited key follows the last packet delivered, and nothing cached is before it. */
  ghost predicate InOrder(s: State, start: nat) {
    && start < |s.delivered|
    && s.expIdx == NextIdx(s.delivered[|s.delivered| - 1]) && s.expSubIdx == NextSubIdx(s.delivered[|s.delivered| - 1])
    && Increasing(s.delivered, start)
    && Sorted(s.queue) && AllCompatible(s.queue)
    && forall i :: 0 <= i < |s.queue| ==> Expected(s, s.queue[i]) || Ahead(s, s.queue[i])
  }

  ghost predicate AllAhead(s: State) {
    forall i :: 0 <= i < |s.queue| ==> Ahead(s, s.queue[i])
  }

  lemma DeliverInOrder(s: State, start: nat, p: Packet)
    requires InOrder(s, start) && (Expected(s, p) || Ahead(s, p))
    requires forall i :: 0 <= i < |s.queue| ==> Compatible(p, s.queue[i]) && Less(p, s.queue[i])
    ensures InOrder(Deliver(s, p), start)
  {
    var d, d' := s.delivered, s.delivered + [p];
    var final := d[|d| - 1];
    assert Less(final, p);
    forall i, j | start <= i < j < |d'|
      ensures Less(d'[i], d'[j])
    {
      if j == |d| && i < |d| - 1 { assert Less(d[i], final); }
    }
  }

  lemma DeliverTopInOrder(s: State, start: nat)
    requires InOrder(s, start) && s.queue != []
    ensures InOrder(DeliverTop(s), start)
  {
    var rest := s.(queue := s.queue[1..]);
    assert InOrder(rest, start);
    forall i | 0 <= i < |rest.queue|
      ensures Compatible(s.queue[0], rest.queue[i]) && Less(s.queue[0], rest.queue[i])
    {
      assert rest.queue[i] == s.queue[i + 1];
    }
    DeliverInOrder(rest, start, s.queue[0]);
  }

  lemma {:induction false} DrainInOrder(s: State, start: nat)
    requires InOrder(s, start)
    ensures InOrder(Drain(s), start) && AllAhead(Drain(s))
    decreases |s.queue|
  {
    if s.queue != [] && Expected(s, s.queue[0]) {
      DeliverTopInOrder(s, start);
      DrainInOrder(DeliverTop(s), start);
    }
  }

  ghost predicate CompatibleWith(q: seq<Packet>, p: Packet) {
    forall i :: 0 <= i < |q| ==> Compatible(p, q[i])
  }

  lemma InsertedInOrder(s: State, start: nat, p: Packet, at: nat)
    requires InOrder(s, start) && Ahead(s, p) && Fits(s.queue, p, at) && CompatibleWith(s.queue, p)
    ensures InOrder(s.(queue := Inserted(s.queue, p, at)), start)
  {
    InsertedSorted(s.queue, p, at);
  }

  /** A packet that goes with those cached keeps the order, and afterwards every cached packet is after the awaited one. */
  lemma ReceiveInOrder(s: State, start: nat, p: Packet, at: nat)
    requires !Resets(s, p) && InOrder(s, start) && AllAhead(s) && |s.queue| <= MAX_QUEUE_LEN
    requires Fits(s.queue, p, at) && CompatibleWith(s.queue, p)
    ensures InOrder(Receive(s, p, at), start) && AllAhead(Receive(s, p, at))
  {
    if Expected(s, p) {
      DeliverInOrder(s, start, p);
      DrainInOrder(Deliver(s, p), start);
    } else if Ahead(s, p) {
      var t := s.(queue := Inserted(s.queue, p, at));
      InsertedInOrder(s, start, p, at);
      if |t.queue| > MAX_QUEUE_LEN {
        DeliverTopInOrder(t, start);
        DrainInOrder(DeliverTop(t), start);
      }
    }
  }

  lemma ResetInOrder(s: State, p: Packet, at: nat)
    requires Resets(s, p)
    ensures InOrder(Receive(s, p, at), |s.delivered|) && AllAhead(Receive(s, p, at))
    ensures Receive(s, p, at).delivered == s.delivered + [p] && Receive(s, p, at).freed == s.freed + s.queue
  {
  }

  /** The packets that arrived since the last reset, the one that caused it first. */
  ghost function Since(inputs: seq<Input>): seq<Packet>
    requires After(inputs).Some?
  {
    if inputs == [] then []
    else
      var last := |inputs| - 1;
      match inputs[last]
      case Arrive(p, _) =>
        var anew := Fresh(inputs[..last]) || FramesAway(After(inputs[..last]).value.s, p);
        (if anew then [] else Since(inputs[..last])) + [p]
      case _ => Since(inputs[..last])
  }

  lemma {:induction false} DrainCaches(s: State, q: Packet)
    requires q in Drain(s).queue
    ensures q in s.queue
    decreases |s.queue|
  {
    if s.queue != [] && Expected(s, s.queue[0]) { DrainCaches(DeliverTop(s), q); }
  }

  /** A call caches nothing but what was cached and the packet itself; a reset leaves nothing cached. */
  lemma ReceiveCaches(s: State, p: Packet, at: nat, q: Packet)
    requires !Resets(s, p) ==> at <= |s.queue|
    requires q in Receive(s, p, at).queue
    ensures !Resets(s, p) && (q == p || q in s.queue)
  {
    if Resets(s, p) {
      DrainCaches(Deliver(FreeCached(s).(first := false), p), q);
    } else if Expected(s, p) {
      DrainCaches(Deliver(s, p), q);
    } else {
      var t := if Ahead(s, p) then s.(queue := Inserted(s.queue, p, at)) else s.(freed := s.freed + [p]);
      if |t.queue| > MAX_QUEUE_LEN { DrainCaches(DeliverTop(t), q); }
    }
  }

  lemma {:induction false} CachedSince(inputs: seq<Input>, q: Packet)
    requires After(inputs).Some? && q in After(inputs).value.s.queue
    ensures q in Since(inputs)
  {
    if inputs != [] {
      var last := |inputs| - 1;
      var s := After(inputs[..last]).value.s;
      match inputs[last]
      case Arrive(p, at) =>
        ReceiveCaches(s, p, at, q);
        FirstMeansFresh(inputs[..last]);
        if q in s.queue { CachedSince(inputs[..last], q); }
      case Rewind => CachedSince(inputs[..last], q);
      case FreeAll =>
    }
  }

  lemma CompatibleBefore(before: seq<Packet>, p: Packet)
    requires AllCompatible(before + [p])
    ensures AllCompatible(before) && CompatibleWith(before, p)
  {
    forall i, j | 0 <= i < j < |before|
      ensures Compatible(before[i], before[j])
    {
      assert (before + [p])[i] == before[i] && (before + [p])[j] == before[j];
    }
    forall i | 0 <= i < |before|
      ensures Compatible(p, before[i])
    {
      assert (before + [p])[i] == before[i] && (before + [p])[|before|] == p;
    }
  }

  /** Whatever order the packets of one stream arrive in, whatever gaps they leave, and whatever went before the last
      reset: since then the delivered keys strictly increase, and after each call every cached packet is after the
      awaited key. */
  lemma {:induction false} DeliveriesInOrder(inputs: seq<Input>)
    requires After(inputs).Some? && AllCompatible(Since(inputs))
    ensures var t := After(inputs).value;
      !t.s.first ==> InOrder(t.s, t.start) && AllAhead(t.s)
  {
    if inputs != [] {
      var last := |inputs| - 1;
      var before := inputs[..last];
      var s := After(before).value.s;
      match inputs[last]
      case Arrive(p, at) =>
        FirstMeansFresh(before);
        if Resets(s, p) {
          ResetInOrder(s, p, at);
        } else {
          CompatibleBefore(Since(before), p);
          DeliveriesInOrder(before);
          ArrivalInOrder(before, p, at);
        }
      case _ => DeliveriesInOrder(before);
    }
  }

  lemma ArrivalInOrder(before: seq<Input>, p: Packet, at: nat)
    requires After(before).Some? && CompatibleWith(Since(before), p)
    requires var t := After(before).value;
      !Resets(t.s, p) && InOrder(t.s, t.start) && AllAhead(t.s) && Fits(t.s.queue, p, at)
    ensures var t := After(before).value;
      InOrder(Receive(t.s, p, at), t.start) && AllAhead(Receive(t.s, p, at))
  {
    var t := After(before).value;
    EveryPacketTracked(before);
    forall i | 0 <= i < |t.s.queue|
      ensures Compatible(p, t.s.queue[i])
    {
      CachedSince(before, t.s.queue[i]);
      var k :| 0 <= k < |Since(before)| && Since(before)[k] == t.s.queue[i];
    }
    ReceiveInOrder(t.s, t.start, p, at);
  }

  // ----- which arrival orders are restored -----

  /** Every packet is followed by the one that comes next: the sub-index counts up, a last packet ends its frame. */
  ghost predicate GapFree(str: seq<Packet>) {
    forall j :: 0 <= j < |str| - 1 ==> Follows(str[j], str[j + 1])
  }

  ghost predicate Follows(a: Packet, b: Packet) {
    if a.last then b.idx == a.idx + 1 && b.subIdx == 0 else b.idx == a.idx && b.subIdx == a.subIdx + 1
  }

  lemma {:induction false} GapFreeSpread(str: seq<Packet>, i: nat, j: nat)
    requires GapFree(str) && i < j < |str|
    ensures Less(str[i], str[j]) && str[i].idx <= str[j].idx <= str[i].idx + (j - i)
    decreases j
  {
    assert Follows(str[j - 1], str[j]);
    if i < j - 1 { GapFreeSpread(str, i, j - 1); }
  }

  ghost function At(str: seq<Packet>, js: seq<nat>): seq<Packet>
    requires forall k :: 0 <= k < |js| ==> js[k] < |str|
  {
    seq(|js|, k requires 0 <= k < |js| => str[js[k]])
  }

  /** The first m packets are delivered, in order; those at js, further on, are cached. */
  ghost predicate Restoring(str: seq<Packet>, s: State, m: nat, js: seq<nat>) {
    && 0 < m <= |str|
    && (forall k :: 0 <= k < |js| ==> m < js[k] < |str|)
    && (forall k, l :: 0 <= k < l < |js| ==> js[k] < js[l])
    && s.queue == At(str, js)
    && s.delivered == str[..m]
    && s.expIdx == NextIdx(str[m - 1]) && s.expSubIdx == NextSubIdx(str[m - 1])
    && !s.first
  }

  lemma {:induction false} DrainRestores(str: seq<Packet>, s: State, m: nat, js: seq<nat>) returns (m': nat, js': seq<nat>)
    requires GapFree(str) && 0 < m <= |str| && |s.queue| == |js|
    requires (forall k :: 0 <= k < |js| ==> m <= js[k] < |str|) && (forall k, l :: 0 <= k < l < |js| ==> js[k] < js[l])
    requires s.queue == At(str, js) && s.delivered == str[..m] && !s.first
    requires s.expIdx == NextIdx(str[m - 1]) && s.expSubIdx == NextSubIdx(str[m - 1])
    ensures Restoring(str, Drain(s), m', js') && Drain(s).freed == s.freed
    ensures m <= m' && forall j: nat :: (j < m || j in js) <==> (j < m' || j in js')
    decreases |js|
  {
    if js == [] {
      m', js' := m, js;
    } else if js[0] == m {
      assert Follows(str[m - 1], str[m]);
      var t := DeliverTop(s);
      assert t.queue == At(str, js[1..]);
      m', js' := DrainRestores(str, t, m + 1, js[1..]);
      assert js == [m] + js[1..];
    } else {
      GapFreeSpread(str, m - 1, js[0]);
      if m < js[0] { assert Follows(str[m - 1], str[m]); GapFreeSpread(str, m, js[0]); }
      m', js' := m, js;
    }
  }

  lemma InsertedIndex(str: seq<Packet>, js: seq<nat>, j: nat, at: nat)
    requires GapFree(str) && j < |str| && j !in js
    requires (forall k :: 0 <= k < |js| ==> js[k] < |str|) && (forall k, l :: 0 <= k < l < |js| ==> js[k] < js[l])
    requires Fits(At(str, js), str[j], at)
    ensures var js' := js[..at] + [j] + js[at..];
      && Inserted(At(str, js), str[j], at) == At(str, js')
      && forall k, l :: 0 <= k < l < |js'| ==> js'[k] < js'[l]
  {
    forall k | 0 <= k < at
      ensures js[k] < j
    {
      assert At(str, js)[k] == str[js[k]];
      if js[k] > j { GapFreeSpread(str, j, js[k]); }
    }
    forall k | at <= k < |js|
      ensures js[k] > j
    {
      assert At(str, js)[k] == str[js[k]];
      if js[k] < j { GapFreeSpread(str, js[k], j); }
    }
  }

  /** A packet that is not the awaited one is ahead of it, and put in the queue unless its frame is too far. */
  lemma EarlyIsAhead(str: seq<Packet>, s: State, m: nat, js: seq<nat>, j: nat)
    requires GapFree(str) && Restoring(str, s, m, js) && m < j < |str|
    ensures Ahead(s, str[j]) && !Expected(s, str[j])
    ensures Resets(s, str[j]) <==> str[j].idx - str[m].idx > RESET_MISORDER_QUEUE_FRAME_IDX_DIFF
  {
    assert Follows(str[m - 1], str[m]);
    GapFreeSpread(str, m, j);
  }

  /** The awaited packet is delivered; another one is cached when there is room and its frame is near; none is freed. */
  lemma ReceiveRestores(str: seq<Packet>, s: State, m: nat, js: seq<nat>, j: nat, at: nat)
    returns (m': nat, js': seq<nat>)
    requires GapFree(str) && Restoring(str, s, m, js) && m <= j < |str| && j !in js
    requires j == m || (|js| < MAX_QUEUE_LEN && str[j].idx - str[m].idx <= RESET_MISORDER_QUEUE_FRAME_IDX_DIFF)
    requires !Resets(s, str[j]) ==> Fits(s.queue, str[j], at)
    ensures !Resets(s, str[j])
    ensures Restoring(str, Receive(s, str[j], at), m', js') && Receive(s, str[j], at).freed == s.freed
    ensures forall i: nat :: (i < m || i in js || i == j) <==> (i < m' || i in js')
  {
    if j == m {
      assert Follows(str[m - 1], str[m]);
      assert str[..m + 1] == str[..m] + [str[m]];
      m', js' := DrainRestores(str, Deliver(s, str[j]), m + 1, js);
    } else {
      EarlyIsAhead(str, s, m, js, j);
      InsertedIndex(str, js, j, at);
      m', js' := m, js[..at] + [j] + js[at..];
      assert Receive(s, str[j], at) == s.(queue := At(str, js'));
      assert js == js[..at] + js[at..];
    }
  }

  /** Packet m of the stream is the first that has not arrived. */
  ghost predicate Awaited(arr: seq<nat>, m: nat) {
    m !in arr && forall i: nat :: i < m ==> i in arr
  }

  /** With the packets numbered arr already there, packet j is the awaited one, or fewer than ten of those wait for the
      awaited one and j is at most ten frames after it. */
  ghost predicate Manageable(str: seq<Packet>, arr: seq<nat>, j: nat)
    requires j < |str|
  {
    forall m: nat :: Awaited(arr, m) && m < |str| ==>
      j == m || (|arr| - m < 10 && str[j].idx - str[m].idx <= 10)
  }

  /** The packets of the stream arrive in the order given by arr, the first one first, none twice. */
  ghost predicate Arranged(str: seq<Packet>, arr: seq<nat>, inputs: seq<Input>) {
    && |inputs| == |arr| > 0
    && (forall t :: 0 <= t < |arr| ==> arr[t] < |str| && inputs[t].Arrive? && inputs[t].p == str[arr[t]])
    && (forall t, u :: 0 <= t < u < |arr| ==> arr[t] != arr[u])
    && arr[0] == 0
  }

  ghost predicate AlwaysManageable(str: seq<Packet>, arr: seq<nat>)
    requires forall t :: 0 <= t < |arr| ==> arr[t] < |str|
  {
    forall t :: 0 < t < |arr| ==> Manageable(str, arr[..t], arr[t])
  }

  lemma ManageablePrefix(str: seq<Packet>, arr: seq<nat>)
    requires |arr| > 1 && forall t :: 0 <= t < |arr| ==> arr[t] < |str|
    ensures var n := |arr| - 1;
      AlwaysManageable(str, arr) <==> AlwaysManageable(str, arr[..n]) && Manageable(str, arr[..n], arr[n])
  {
    var n := |arr| - 1;
    assert forall t :: 0 <= t < n ==> arr[..n][..t] == arr[..t] && arr[..n][t] == arr[t];
  }

  lemma ArrangedPrefix(str: seq<Packet>, arr: seq<nat>, inputs: seq<Input>)
    requires Arranged(str, arr, inputs) && |arr| > 1
    ensures Arranged(str, arr[..|arr| - 1], inputs[..|arr| - 1])
  {
  }

  ghost predicate ArrivedAre(arr: seq<nat>, m: nat, js: seq<nat>) {
    forall i: nat :: i in arr <==> (i < m || i in js)
  }

  lemma FirstRestores(str: seq<Packet>, inputs: seq<Input>)
    requires |str| > 0 && |inputs| == 1 && inputs[0].Arrive? && inputs[0].p == str[0]
    ensures After(inputs) == Some(Trace(State(NextIdx(str[0]), NextSubIdx(str[0]), false, [], [str[0]], []), 0))
    ensures Restoring(str, After(inputs).value.s, 1, [])
  {
    assert After(inputs[..0]) == Some(Trace(INITIAL, 0));
    var d := Deliver(FreeCached(INITIAL).(first := false), str[0]);
    assert d == State(NextIdx(str[0]), NextSubIdx(str[0]), false, [], [str[0]], []);
    assert Receive(INITIAL, str[0], inputs[0].at) == d;
    assert str[..1] == [str[0]];
  }

  /** What is cached is what has arrived and not been delivered. */
  lemma CachedCount(str: seq<Packet>, arr: seq<nat>, inputs: seq<Input>, m: nat, js: seq<nat>)
    requires Arranged(str, arr, inputs) && After(inputs).Some?
    requires Restoring(str, After(inputs).value.s, m, js) && After(inputs).value.s.freed == []
    ensures |js| == |arr| - m
  {
    var s := After(inputs).value.s;
    EveryPacketTracked(inputs);
    ArrivalCount(inputs);
    assert |Tracked(s)| == |s.delivered| + |s.queue| + |s.freed|;
  }

  lemma {:induction false} RunRestores(str: seq<Packet>, arr: seq<nat>, inputs: seq<Input>) returns (m: nat, js: seq<nat>)
    requires GapFree(str) && Arranged(str, arr, inputs) && AlwaysManageable(str, arr) && After(inputs).Some?
    ensures Restoring(str, After(inputs).value.s, m, js)
    ensures After(inputs).value.s.freed == [] && After(inputs).value.start == 0
    ensures ArrivedAre(arr, m, js) && Awaited(arr, m) && |js| == |arr| - m
    decreases |arr|
  {
    var n := |arr| - 1;
    if n == 0 {
      FirstRestores(str, inputs);
      m, js := 1, [];
      assert arr == [0];
    } else {
      ManageablePrefix(str, arr);
      ArrangedPrefix(str, arr, inputs);
      m, js := RunRestores(str, arr[..n], inputs[..n]);
      m, js := LastRestores(str, arr, inputs, m, js);
    }
    CachedCount(str, arr, inputs, m, js);
  }

  lemma LastRestores(str: seq<Packet>, arr: seq<nat>, inputs: seq<Input>, m0: nat, js0: seq<nat>)
    returns (m: nat, js: seq<nat>)
    requires GapFree(str) && Arranged(str, arr, inputs) && |arr| > 1 && After(inputs).Some?
    requires Manageable(str, arr[..|arr| - 1], arr[|arr| - 1])
    requires var t := After(inputs[..|arr| - 1]).value; Restoring(str, t.s, m0, js0) && t.s.freed == [] && t.start == 0
    requires var before := arr[..|arr| - 1]; ArrivedAre(before, m0, js0) && Awaited(before, m0) && |js0| == |before| - m0
    ensures var t := After(inputs).value; Restoring(str, t.s, m, js) && t.s.freed == [] && t.start == 0
    ensures ArrivedAre(arr, m, js)
  {
    var n := |arr| - 1;
    assert arr == arr[..n] + [arr[n]] && arr[n] !in arr[..n];
    m, js := ReceiveRestores(str, After(inputs[..n]).value.s, m0, js0, arr[n], inputs[n].at);
  }

  // ----- no other order is -----

  lemma {:induction false} DrainDelivers(s: State)
    ensures s.delivered <= Drain(s).delivered
    decreases |s.queue|
  {
    if s.queue != [] && Expected(s, s.queue[0]) { DrainDelivers(DeliverTop(s)); }
  }

  lemma ReceiveDelivers(s: State, p: Packet, at: nat)
    requires !Resets(s, p) ==> at <= |s.queue|
    ensures s.delivered <= Receive(s, p, at).delivered
  {
    DrainDelivers(Deliver(FreeCached(s).(first := false), p));
    DrainDelivers(Deliver(s, p));
    if !Resets(s, p) && !Expected(s, p) {
      var t := if Ahead(s, p) then s.(queue := Inserted(s.queue, p, at)) else s.(freed := s.freed + [p]);
      if |t.queue| > MAX_QUEUE_LEN { DrainDelivers(DeliverTop(t)); }
    }
  }

  /** Once a packet has been delivered in another's place the stream is not restored. */
  lemma OutOfPlace(str: seq<Packet>, m: nat, k: nat, d: seq<Packet>)
    requires GapFree(str) && m < k < |str| && str[..m] + [str[k]] <= d
    ensures !(d <= str)
  {
    GapFreeSpread(str, m, k);
    assert d[m] == str[k];
  }

  /** A packet that is too many places or frames early is delivered, or forces another out, before its turn. */
  lemma EarlyBreaks(str: seq<Packet>, s: State, m: nat, js: seq<nat>, j: nat, at: nat)
    requires GapFree(str) && Restoring(str, s, m, js) && m < j < |str| && j !in js
    requires |js| >= MAX_QUEUE_LEN || str[j].idx - str[m].idx > RESET_MISORDER_QUEUE_FRAME_IDX_DIFF
    requires !Resets(s, str[j]) ==> Fits(s.queue, str[j], at)
    ensures !(Receive(s, str[j], at).delivered <= str)
  {
    EarlyIsAhead(str, s, m, js, j);
    if Resets(s, str[j]) {
      DrainDelivers(Deliver(FreeCached(s).(first := false), str[j]));
      OutOfPlace(str, m, j, Receive(s, str[j], at).delivered);
    } else {
      InsertedIndex(str, js, j, at);
      var js' := js[..at] + [j] + js[at..];
      var t := s.(queue := Inserted(s.queue, str[j], at));
      DrainDelivers(DeliverTop(t));
      assert t.queue[0] == str[js'[0]];
      OutOfPlace(str, m, js'[0], Receive(s, str[j], at).delivered);
    }
  }

  lemma FirstBreak(str: seq<Packet>, arr: seq<nat>, inputs: seq<Input>)
    requires GapFree(str) && Arranged(str, arr, inputs) && |arr| > 1 && After(inputs).Some?
    requires AlwaysManageable(str, arr[..|arr| - 1]) && Arranged(str, arr[..|arr| - 1], inputs[..|arr| - 1])
    requires !Manageable(str, arr[..|arr| - 1], arr[|arr| - 1])
    ensures !(After(inputs).value.s.delivered <= str)
  {
    var n := |arr| - 1;
    var before, j := arr[..n], arr[n];
    var m, js := RunRestores(str, before, inputs[..n]);
    var m': nat :| Awaited(before, m') && m' < |str| && j != m' &&
      (n - m' >= 10 || str[j].idx - str[m'].idx > 10);
    assert m' == m;
    assert j !in before;
    EarlyBreaks(str, After(inputs[..n]).value.s, m, js, j, inputs[n].at);
  }

  lemma {:induction false} OtherOrdersBreak(str: seq<Packet>, arr: seq<nat>, inputs: seq<Input>)
    requires GapFree(str) && Arranged(str, arr, inputs) && !AlwaysManageable(str, arr) && After(inputs).Some?
    ensures !(After(inputs).value.s.delivered <= str)
    decreases |arr|
  {
    var n := |arr| - 1;
    ManageablePrefix(str, arr);
    ArrangedPrefix(str, arr, inputs);
    if AlwaysManageable(str, arr[..n]) {
      FirstBreak(str, arr, inputs);
    } else {
      OtherOrdersBreak(str, arr[..n], inputs[..n]);
      ReceiveDelivers(After(inputs[..n]).value.s, str[arr[n]], inputs[n].at);
    }
  }

  lemma CachedAreLater(str: seq<Packet>, s: State, m: nat, js: seq<nat>)
    requires Restoring(str, s, m, js)
    ensures js != [] ==> m < |str|
  {
    if js != [] { assert m < js[0] < |str|; }
  }

  lemma AllDelivered(str: seq<Packet>, arr: seq<nat>, s: State, m: nat, js: seq<nat>)
    requires Restoring(str, s, m, js) && Awaited(arr, m) && forall i: nat :: i < |str| ==> i in arr
    ensures s.delivered == str && s.queue == []
  {
    CachedAreLater(str, s, m, js);
    assert m == |str|;
    assert str[..|str|] == str;
  }

  /** A gap-free stream whose first packet comes first is restored by exactly those arrival orders in which no packet
      finds ten others waiting, or is more than ten frames early: in them nothing is freed, and once every packet has
      arrived exactly the stream has been delivered; in all others something is delivered out of its place. */
  lemma RestoredIff(str: seq<Packet>, arr: seq<nat>, inputs: seq<Input>)
    requires GapFree(str) && Arranged(str, arr, inputs) && After(inputs).Some?
    ensures var t := After(inputs).value;
      && (t.s.delivered <= str <==> AlwaysManageable(str, arr))
      && (AlwaysManageable(str, arr) ==>
            t.s.freed == [] && t.start == 0 && |t.s.delivered| + |t.s.queue| == |arr|)
      && (AlwaysManageable(str, arr) && (forall i: nat :: i < |str| ==> i in arr) ==>
            t.s.delivered == str && t.s.queue == [])
  {
    if AlwaysManageable(str, arr) {
      var m, js := RunRestores(str, arr, inputs);
      if forall i: nat :: i < |str| ==> i in arr { AllDelivered(str, arr, After(inputs).value.s, m, js); }
    } else {
      OtherOrdersBreak(str, arr, inputs);
    }
  }

  // ----- ten places are safe -----

  /** Each packet arrives only after every one that is more than ten places before it. */
  ghost predicate Disturbed(arr: seq<nat>) {
    forall t, i: nat :: 0 <= t < |arr| && i + 11 <= arr[t] ==> i in arr[..t]
  }

  lemma DisturbedManageable(str: seq<Packet>, arr: seq<nat>, t: nat)
    requires GapFree(str) && Disturbed(arr) && t < |arr| && forall t :: 0 <= t < |arr| ==> arr[t] < |str|
    requires forall t, u :: 0 <= t < u < |arr| ==> arr[t] != arr[u]
    ensures Manageable(str, arr[..t], arr[t])
  {
    forall m: nat | Awaited(arr[..t], m) && m < |str| && arr[t] != m
      ensures t - m < 10 && str[arr[t]].idx - str[m].idx <= 10
    {
      assert arr[t] !in arr[..t];
      GapFreeSpread(str, m, arr[t]);
      var all := arr[..t] + [arr[t], m];
      forall k | 0 <= k < |all|
        ensures all[k] < m + 11
      {
        if k <= t {
          assert arr[..k] <= arr[..t];
          assert m !in arr[..k];
        }
      }
      DistinctBelow(all, m + 11);
    }
  }

  /** A stream that starts with its first packet, and in which no packet overtakes another by more than ten places,
      is passed on in its own order: what has been delivered is always its beginning, and nothing is ever freed.
      Once every packet has arrived, exactly the stream has been delivered. */
  lemma StreamRestored(str: seq<Packet>, arr: seq<nat>, inputs: seq<Input>)
    requires GapFree(str) && Arranged(str, arr, inputs) && Disturbed(arr) && After(inputs).Some?
    ensures var s := After(inputs).value.s;
      && s.freed == [] && After(inputs).value.start == 0
      && s.delivered <= str && |s.delivered| + |s.queue| == |arr|
      && ((forall i: nat :: i < |str| ==> i in arr) ==> s.delivered == str && s.queue == [])
  {
    forall t | 0 < t < |arr|
      ensures Manageable(str, arr[..t], arr[t])
    {
      DisturbedManageable(str, arr, t);
    }
    RestoredIff(str, arr, inputs);
  }

  lemma {:induction false} ArrivalCount(inputs: seq<Input>)
    requires forall i :: 0 <= i < |inputs| ==> inputs[i].Arrive?
    ensures |Arrivals(inputs)| == |inputs|
  {
    if inputs != [] { ArrivalCount(inputs[..|inputs| - 1]); }
  }

  // ----- ten places are the limit -----

  /** The second packet arrives twelve places late: when the eleventh early one comes, ten others are waiting. So of every
      gap-free stream, whatever its frames, some packet is delivered out of its place. */
  lemma TenPlacesAreTheLimit(str: seq<Packet>, inputs: seq<Input>)
    requires GapFree(str) && Arranged(str, [0, 2, 3, 4, 5, 6, 7, 8, 9, 10, 11, 12, 1], inputs) && After(inputs).Some?
    ensures !(After(inputs).value.s.delivered <= str)
  {
    var arr := [0, 2, 3, 4, 5, 6, 7, 8, 9, 10, 11, 12, 1];
    assert arr[12] == 1 && 1 < |str|;
    assert arr[..11] == [0, 2, 3, 4, 5, 6, 7, 8, 9, 10, 11] && Awaited(arr[..11], 1);
    assert !Manageable(str, arr[..11], arr[11]);
    RestoredIff(str, arr, inputs);
  }

  /** The key awaited only moves forward. */
  ghost predicate AwaitsAfter(s: State, p: Packet) {
    p.idx < s.expIdx || (p.idx == s.expIdx && p.subIdx < s.expSubIdx)
  }

  lemma {:induction false} DrainAwaitsAfter(s: State, p: Packet)
    requires AwaitsAfter(s, p)
    ensures AwaitsAfter(Drain(s), p)
    decreases |s.queue|
  {
    if s.queue != [] && Expected(s, s.queue[0]) { DrainAwaitsAfter(DeliverTop(s), p); }
  }

  /** What becomes of the packet passed over when the full queue forces another one out: coming later, and no more than
      ten frames late, it is given back undelivered, and nothing else changes. */
  lemma SkippedIsFreed(str: seq<Packet>, s: State, m: nat, js: seq<nat>, j: nat, at: nat, later: nat)
    requires GapFree(str) && Restoring(str, s, m, js) && m < j < |str| && j !in js && |js| == 10
    requires str[j].idx <= str[m].idx + 10 && Fits(s.queue, str[j], at)
    ensures var r := Receive(s, str[j], at);
      |r.queue| <= 10 && (r.expIdx - str[m].idx <= 10 && later <= |r.queue| ==>
        Receive(r, str[m], later) == r.(freed := r.freed + [str[m]]))
  {
    EarlyIsAhead(str, s, m, js, j);
    InsertedIndex(str, js, j, at);
    var js' := js[..at] + [j] + js[at..];
    var t := s.(queue := Inserted(s.queue, str[j], at));
    assert t.queue[0] == str[js'[0]];
    GapFreeSpread(str, m, js'[0]);
    DrainAwaitsAfter(DeliverTop(t), str[m]);
    DrainTracked(DeliverTop(t));
    var r := Receive(s, str[j], at);
    assert r == Drain(DeliverTop(t));
    if r.expIdx - str[m].idx <= 10 && later <= |r.queue| { LateIsFreed(r, str[m], later); }
  }
}
