/** The byte stream of a capture made of interleaved, in-order fragment trains is the datagrams' payloads. */
module PcapProofs {
  import opened Options
  import opened Pcap
  import opened PcapFormats

  // ----- slots between fetches, for any capture -----

  /** A slot is empty, or its offset counts its data and the UDP header. */
  ghost predicate SlotConsistent(s: PcapBuffer) {
    if s.offset == 0 then s.len == 0 else s.offset == s.len + UDP_HEADER_SIZE
  }

  ghost predicate CacheConsistent(cache: seq<PcapBuffer>) {
    forall k :: 0 <= k < |cache| ==> SlotConsistent(cache[k])
  }

  lemma FetchKeepsSlots(ports: set<nat>, st: Store, f: Frame)
    requires |st.cache| == PCAP_CACHE_LENGTH && WellFormed(f) && CacheConsistent(st.cache)
    ensures CacheConsistent(Fetch(ports, st, f).0.cache)
  {
  }

  ghost function Stored(ports: set<nat>, st: Store, capture: seq<Frame>): Store
    requires |st.cache| == PCAP_CACHE_LENGTH && AllWellFormed(capture)
    decreases |capture|
  {
    if capture == [] then st else Stored(ports, Fetch(ports, st, capture[0]).0, capture[1..])
  }

  /** Whatever is captured: whenever a frame is fetched every slot has offset = len = 0 or offset = len + 8. */
  lemma {:induction false} SlotsAlwaysConsistent(ports: set<nat>, st: Store, capture: seq<Frame>)
    requires |st.cache| == PCAP_CACHE_LENGTH && AllWellFormed(capture) && CacheConsistent(st.cache)
    ensures CacheConsistent(Stored(ports, st, capture).cache)
    decreases |capture|
  {
    if capture != [] {
      FetchKeepsSlots(ports, st, capture[0]);
      SlotsAlwaysConsistent(ports, Fetch(ports, st, capture[0]).0, capture[1..]);
    }
  }

  // ----- what a packet is made of, for any capture -----

  ghost predicate IsFragment(f: Frame) {
    f.Ip? && f.version == 4 && f.protocol == 17 && WellFormed(f) && !f.df && (f.mf || f.offset != 0)
  }

  /** Fragments of one id that follow on from each other, from offset 0 of an accepted datagram on, with more to follow
      after each but perhaps the last. */
  ghost predicate Contiguous(ports: set<nat>, fs: seq<Frame>) {
    && fs != [] && AllFragments(fs) && AllFollowOn(fs)
    && fs[0].offset == 0 && DestPort(fs[0].data) in ports
  }

  ghost predicate FollowsOn(f: Frame, g: Frame)
    requires f.Ip? && g.Ip?
  {
    g.id == f.id && f.mf && g.offset == End(f)
  }

  ghost function End(f: Frame): nat
    requires f.Ip?
  {
    f.offset + |f.data|
  }

  ghost function Joined(fs: seq<Frame>): seq<Byte> {
    if fs == [] then [] else Joined(fs[..|fs| - 1]) + if IsFragment(fs[|fs| - 1]) then Payload(fs[|fs| - 1]) else []
  }

  /** The slot holds just what these fragments carry; with none of them it is empty. */
  ghost predicate Collected(ports: set<nat>, s: PcapBuffer, fs: seq<Frame>) {
    if fs == [] then Vacant(s)
    else
      var f := fs[|fs| - 1];
      Contiguous(ports, fs) && f.mf && End(f) >= UDP_HEADER_SIZE && InUse(s, f.id, End(f), Joined(fs))
  }

  lemma JoinedOneMore(fs: seq<Frame>, f: Frame)
    requires IsFragment(f)
    ensures Joined(fs + [f]) == Joined(fs) + Payload(f)
  {
    assert (fs + [f])[..|fs|] == fs;
  }

  ghost predicate AllFragments(fs: seq<Frame>) {
    forall k :: 0 <= k < |fs| ==> IsFragment(fs[k])
  }

  ghost predicate AllFollowOn(fs: seq<Frame>)
    requires AllFragments(fs)
  {
    forall k :: 0 <= k < |fs| - 1 ==> FollowsOn(fs[k], fs[k + 1])
  }

  lemma AllFragmentsOneMore(fs: seq<Frame>, f: Frame)
    requires AllFragments(fs) && IsFragment(f)
    ensures AllFragments(fs + [f])
  {
  }

  lemma AllFollowOnOneMore(fs: seq<Frame>, f: Frame)
    requires AllFragments(fs) && IsFragment(f) && AllFragments(fs + [f])
    requires AllFollowOn(fs) && (fs != [] ==> FollowsOn(fs[|fs| - 1], f))
    ensures AllFollowOn(fs + [f])
  {
    forall k | 0 <= k < |fs|
      ensures FollowsOn((fs + [f])[k], (fs + [f])[k + 1])
    {
      if k < |fs| - 1 { assert FollowsOn(fs[k], fs[k + 1]); }
    }
  }

  lemma ExtendTrain(ports: set<nat>, fs: seq<Frame>, f: Frame)
    requires Contiguous(ports, fs) && IsFragment(f) && FollowsOn(fs[|fs| - 1], f)
    ensures Contiguous(ports, fs + [f]) && Joined(fs + [f]) == Joined(fs) + Payload(f)
  {
    AllFragmentsOneMore(fs, f);
    AllFollowOnOneMore(fs, f);
    JoinedOneMore(fs, f);
    assert (fs + [f])[0] == fs[0];
  }

  lemma StartTrain(ports: set<nat>, f: Frame)
    requires IsFragment(f) && f.offset == 0 && DestPort(f.data) in ports
    ensures Contiguous(ports, [f]) && Joined([f]) == Payload(f) && f.mf && End(f) >= UDP_HEADER_SIZE
  {
    assert [f][..0] == [];
  }

  /** What a fragment makes of the fragments kept in its slot: a first one starts anew; another one throws those of
      another id away, is ignored when it does not follow on, throws all away when the payload grows too long, and
      follows on otherwise. */
  ghost function Kept(fs: seq<Frame>, f: Frame): seq<Frame>
    requires AllFragments(fs) && IsFragment(f)
  {
    if f.offset == 0 then [f]
    else if fs == [] || fs[|fs| - 1].id != f.id then []
    else if f.offset != End(fs[|fs| - 1]) then fs
    else if |Joined(fs)| + |f.data| > 65536 then []
    else fs + [f]
  }

  /** The last fragment of the datagram is there. */
  ghost predicate Complete(fs: seq<Frame>)
    requires AllFragments(fs)
  {
    fs != [] && !fs[|fs| - 1].mf
  }

  /** A slot that holds what these fragments carry holds, after one more, what is kept of them; the payload is finished
      exactly when its last fragment has come. */
  lemma FragmentCollected(ports: set<nat>, s: PcapBuffer, fs: seq<Frame>, f: Frame)
    requires Collected(ports, s, fs) && IsFragment(f) && Wanted(ports, f)
    ensures AllFragments(fs)
    ensures var (t, done) := Absorb(s, f); var gs := Kept(fs, f);
      && AllFragments(gs) && done == Complete(gs)
      && (if done then Contiguous(ports, gs) && Data(t) == Joined(gs) else Collected(ports, t, gs))
  {
    if f.offset == 0 {
      StartTrain(ports, f);
      var t := Found(s, f);
      FragmentAbsorbed(t.(id := f.id), f);
    } else if s.id == f.id && s.offset == f.offset {
      ExtendTrain(ports, fs, f);
      if s.len + |Payload(f)| <= UDP_PACKET_MAX_SIZE { FragmentAbsorbed(s, f); }
    }
  }

  /** The frames of a capture at given places. */
  ghost function FramesAt(capture: seq<Frame>, places: seq<nat>): seq<Frame>
    requires forall k :: 0 <= k < |places| ==> places[k] < |capture|
  {
    seq(|places|, k requires 0 <= k < |places| => capture[places[k]])
  }

  ghost predicate InOrder(places: seq<nat>, n: nat) {
    (forall k :: 0 <= k < |places| ==> places[k] < n) && forall k, l :: 0 <= k < l < |places| ==> places[k] < places[l]
  }

  /** For each slot, the places of the captured fragments it holds. */
  ghost predicate Accounted(ports: set<nat>, st: Store, capture: seq<Frame>, places: seq<seq<nat>>) {
    && |st.cache| == |places| == PCAP_CACHE_LENGTH
    && forall k :: 0 <= k < PCAP_CACHE_LENGTH ==>
         InOrder(places[k], |capture|) && Collected(ports, st.cache[k], FramesAt(capture, places[k]))
  }

  /** The bytes are the payloads of the frames at the places, joined: contiguous fragments of one accepted datagram from
      its first on, the last of which is the last frame captured and has none to follow. */
  ghost predicate MadeOf(ports: set<nat>, capture: seq<Frame>, places: seq<nat>, bytes: seq<Byte>) {
    InOrder(places, |capture|) &&
    var fs := FramesAt(capture, places);
    Contiguous(ports, fs) && places[|places| - 1] == |capture| - 1 && !fs[|fs| - 1].mf && bytes == Joined(fs)
  }

  /** One more frame, in terms of the places of the frames captured before it. */
  lemma PlacesAfter(capture: seq<Frame>, places: seq<nat>, f: Frame, gs: seq<Frame>) returns (after: seq<nat>)
    requires InOrder(places, |capture|)
    requires var fs := FramesAt(capture, places); gs == fs || gs == [] || gs == fs + [f] || gs == [f]
    ensures InOrder(after, |capture| + 1) && FramesAt(capture + [f], after) == gs
    ensures gs == FramesAt(capture, places) + [f] ==> after == places + [|capture|]
  {
    var fs, n := FramesAt(capture, places), |capture|;
    after := if gs == fs + [f] then places + [n] else if gs == fs then places else if gs == [] then [] else [n];
    assert FramesAt(capture + [f], after) == gs;
  }

  lemma SlotAccounted(ports: set<nat>, s: PcapBuffer, capture: seq<Frame>, places: seq<nat>, f: Frame) returns (after: seq<nat>)
    requires InOrder(places, |capture|) && Collected(ports, s, FramesAt(capture, places)) && IsFragment(f) && Wanted(ports, f)
    ensures InOrder(after, |capture| + 1)
    ensures var (t, done) := Absorb(s, f);
      if done then MadeOf(ports, capture + [f], after, Data(t)) else Collected(ports, t, FramesAt(capture + [f], after))
  {
    var fs := FramesAt(capture, places);
    FragmentCollected(ports, s, fs, f);
    after := PlacesAfter(capture, places, f, Kept(fs, f));
  }

  lemma StillAccounted(ports: set<nat>, s: PcapBuffer, capture: seq<Frame>, places: seq<nat>, f: Frame)
    requires InOrder(places, |capture|) && Collected(ports, s, FramesAt(capture, places))
    ensures InOrder(places, |capture| + 1) && Collected(ports, s, FramesAt(capture + [f], places))
  {
    assert FramesAt(capture + [f], places) == FramesAt(capture, places);
  }

  lemma FrameAccounted(ports: set<nat>, st: Store, capture: seq<Frame>, places: seq<seq<nat>>, f: Frame) returns (after: seq<seq<nat>>)
    requires Accounted(ports, st, capture, places) && WellFormed(f)
    ensures Accounted(ports, Fetch(ports, st, f).0, capture + [f], after)
  {
    after := places;
    forall k | 0 <= k < PCAP_CACHE_LENGTH
      ensures InOrder(places[k], |capture| + 1) && Collected(ports, st.cache[k], FramesAt(capture + [f], places[k]))
    {
      StillAccounted(ports, st.cache[k], capture, places[k], f);
    }
    if Wanted(ports, f) && !IsWhole(f) {
      var k := SlotOf(f.id);
      var mine := SlotAccounted(ports, st.cache[k], capture, places[k], f);
      var (t, done) := Absorb(st.cache[k], f);
      after := places[k := if done then [] else mine];
    }
  }

  lemma {:induction false} StoredOneMore(ports: set<nat>, st: Store, capture: seq<Frame>, f: Frame)
    requires |st.cache| == PCAP_CACHE_LENGTH && AllWellFormed(capture + [f])
    ensures AllWellFormed(capture) && WellFormed(f) && |Stored(ports, st, capture).cache| == PCAP_CACHE_LENGTH
    ensures Stored(ports, st, capture + [f]) == Fetch(ports, Stored(ports, st, capture), f).0
    decreases |capture|
  {
    assert (capture + [f])[|capture|] == f;
    assert forall i :: 0 <= i < |capture| ==> (capture + [f])[i] == capture[i];
    if capture == [] {
      assert [f][1..] == [];
    } else {
      assert (capture + [f])[1..] == capture[1..] + [f];
      StoredOneMore(ports, Fetch(ports, st, capture[0]).0, capture[1..], f);
    }
  }

  lemma {:induction false} CaptureAccounted(ports: set<nat>, capture: seq<Frame>) returns (places: seq<seq<nat>>)
    requires AllWellFormed(capture)
    ensures Accounted(ports, Stored(ports, NewStore(), capture), capture, places)
    decreases |capture|
  {
    if capture == [] {
      places := seq(PCAP_CACHE_LENGTH, _ => []);
    } else {
      var n := |capture| - 1;
      var before, f := capture[..n], capture[n];
      assert capture == before + [f];
      places := CaptureAccounted(ports, before);
      StoredOneMore(ports, NewStore(), before, f);
      places := FrameAccounted(ports, Stored(ports, NewStore(), before), before, places, f);
    }
  }

  /** Whatever is captured, in whatever order and with whatever losses: a packet is either the payload of the whole
      datagram just captured, or the payloads of captured fragments of one id, joined, whose offsets follow on from each
      other from 0 on, the last of them without more to follow. */
  lemma EveryPacketWhole(ports: set<nat>, capture: seq<Frame>, f: Frame) returns (places: seq<nat>)
    requires AllWellFormed(capture + [f])
    ensures AllWellFormed(capture) && WellFormed(f) && |Stored(ports, NewStore(), capture).cache| == PCAP_CACHE_LENGTH
    ensures var pkt := Fetch(ports, Stored(ports, NewStore(), capture), f).1;
      pkt.Some? ==>
        && Wanted(ports, f)
        && (IsWhole(f) ==> Data(pkt.value) == f.data[UDP_HEADER_SIZE..])
        && (!IsWhole(f) ==> MadeOf(ports, capture + [f], places, Data(pkt.value)))
  {
    StoredOneMore(ports, NewStore(), capture, f);
    var st := Stored(ports, NewStore(), capture);
    places := [];
    if Wanted(ports, f) {
      if IsWhole(f) {
        WrittenData(st.single.buf, 0, f.data[UDP_HEADER_SIZE..]);
      } else {
        var all := CaptureAccounted(ports, capture);
        places := SlotAccounted(ports, st.cache[SlotOf(f.id)], capture, all[SlotOf(f.id)], f);
      }
    }
  }

  // ----- exactly which packets, for any capture -----

  /** The accepted fragments a slot keeps, from the capture alone. */
  ghost function Train(ports: set<nat>, capture: seq<Frame>, k: nat): seq<Frame>
    requires AllWellFormed(capture)
    ensures AllFragments(Train(ports, capture, k))
  {
    if capture == [] then []
    else
      var n := |capture| - 1;
      var before, f := Train(ports, capture[..n], k), capture[n];
      if IsFragment(f) && Wanted(ports, f) && f.id % 64 == k then
        if Complete(Kept(before, f)) then [] else Kept(before, f)
      else before
  }

  lemma SlotExact(ports: set<nat>, s: PcapBuffer, capture: seq<Frame>, f: Frame)
    requires AllWellFormed(capture + [f]) && AllWellFormed(capture) && IsFragment(f) && Wanted(ports, f)
    requires Collected(ports, s, Train(ports, capture, f.id % 64))
    ensures var (t, done) := Absorb(s, f);
      Collected(ports, if done then Emptied(t) else t, Train(ports, capture + [f], f.id % 64))
  {
    FragmentCollected(ports, s, Train(ports, capture, f.id % 64), f);
    assert (capture + [f])[..|capture|] == capture;
  }

  lemma {:induction false} CaptureExact(ports: set<nat>, capture: seq<Frame>, k: nat)
    requires AllWellFormed(capture) && k < 64
    ensures |Stored(ports, NewStore(), capture).cache| == 64
    ensures Collected(ports, Stored(ports, NewStore(), capture).cache[k], Train(ports, capture, k))
  {
    if capture != [] {
      var n := |capture| - 1;
      var before, f := capture[..n], capture[n];
      assert capture == before + [f];
      CaptureExact(ports, before, k);
      StoredOneMore(ports, NewStore(), before, f);
      if IsFragment(f) && Wanted(ports, f) && f.id % 64 == k {
        SlotExact(ports, Stored(ports, NewStore(), before).cache[k], before, f);
      }
    }
  }

  /** Whatever has been captured, a frame yields a packet exactly when it is an accepted whole datagram, whose payload the
      packet is, or the fragment that completes those kept in its slot, whose payloads joined it is. */
  lemma PacketExact(ports: set<nat>, capture: seq<Frame>, f: Frame)
    requires AllWellFormed(capture + [f])
    ensures AllWellFormed(capture) && WellFormed(f) && |Stored(ports, NewStore(), capture).cache| == 64
    ensures var pkt := Fetch(ports, Stored(ports, NewStore(), capture), f).1;
      if f.Other? || f.version != 4 || f.protocol != 17 || (f.offset == 0 && DestPort(f.data) !in ports) then pkt == None
      else if f.df || (f.offset == 0 && !f.mf) then pkt.Some? && Data(pkt.value) == f.data[8..]
      else
        var gs := Kept(Train(ports, capture, f.id % 64), f);
        pkt.Some? == Complete(gs) && (pkt.Some? ==> Data(pkt.value) == Joined(gs))
  {
    StoredOneMore(ports, NewStore(), capture, f);
    var st := Stored(ports, NewStore(), capture);
    if IsFragment(f) {
      CaptureExact(ports, capture, f.id % 64);
      if Wanted(ports, f) { FragmentCollected(ports, st.cache[f.id % 64], Train(ports, capture, f.id % 64), f); }
    } else if Wanted(ports, f) {
      WrittenData(st.single.buf, 0, f.data[UDP_HEADER_SIZE..]);
    }
  }

  // ----- fragment trains -----

  ghost function Concat(pieces: seq<seq<Byte>>): seq<Byte> {
    if pieces == [] then [] else Concat(pieces[..|pieces| - 1]) + pieces[|pieces| - 1]
  }

  /** A UDP datagram with its header h, as IP data (the header's bytes and the payload) cut into pieces; df is the
      don't-fragment flag. */
  datatype Datagram = Datagram(id: nat, df: bool, h: UdpHeader, pieces: seq<seq<Byte>>)

  /** Section 3.2 of RFC 791: pieces before the last are non-empty multiples of eight bytes; the whole fits an IP packet. */
  ghost predicate Proper(d: Datagram) {
    && d.h.Encodable() && |d.pieces| > 0 && d.h.Bytes() <= d.pieces[0]
    && (d.df ==> |d.pieces| == 1)
    && (forall k :: 0 <= k < |d.pieces| - 1 ==> |d.pieces[k]| > 0 && |d.pieces[k]| % 8 == 0)
    && |Concat(d.pieces)| <= 65536 - 20
  }

  /** The first k pieces, and the part of the payload they carry. */
  ghost function Sent(d: Datagram, k: nat): seq<Byte>
    requires k <= |d.pieces|
  {
    Concat(d.pieces[..k])
  }

  ghost function PayloadOf(d: Datagram): seq<Byte>
    requires Proper(d)
  {
    SentLength(d, |d.pieces|);
    Sent(d, |d.pieces|)[8..]
  }

  lemma {:induction false} SentLength(d: Datagram, k: nat)
    requires Proper(d) && k <= |d.pieces|
    ensures k > 0 ==> |Sent(d, k)| >= UDP_HEADER_SIZE && Sent(d, k) == Sent(d, k - 1) + d.pieces[k - 1]
    ensures k > 0 ==> Sent(d, k)[..UDP_HEADER_SIZE] == d.pieces[0][..UDP_HEADER_SIZE]
    ensures k == 0 ==> Sent(d, k) == []
    ensures |Sent(d, k)| <= UDP_PACKET_MAX_SIZE - 20
    decreases k
  {
    if k > 0 {
      SentLength(d, k - 1);
      assert d.pieces[..k][..k - 1] == d.pieces[..k - 1];
    }
    SentShorter(d, k);
  }

  lemma {:induction false} SentShorter(d: Datagram, k: nat)
    requires k <= |d.pieces|
    ensures |Sent(d, k)| <= |Concat(d.pieces)|
    decreases |d.pieces| - k
  {
    if k == |d.pieces| {
      assert d.pieces[..k] == d.pieces;
    } else {
      SentShorter(d, k + 1);
      assert d.pieces[..k + 1][..k] == d.pieces[..k];
    }
  }

  /** Piece k of a datagram as the frame captured for it. */
  ghost function PieceFrame(d: Datagram, k: nat): Frame
    requires k < |d.pieces|
  {
    Ip(4, 17, d.id, d.df, k + 1 < |d.pieces|, |Sent(d, k)|, d.pieces[k])
  }

  ghost predicate Accepted(ports: set<nat>, d: Datagram) {
    d.h.dst in ports
  }

  /** One captured frame: a piece of datagram number d, or a frame the replay has no use for. */
  datatype Event = Piece(d: nat, k: nat) | Noise(f: Frame)

  ghost predicate AllProper(grams: seq<Datagram>) {
    forall d :: 0 <= d < |grams| ==> Proper(grams[d])
  }

  /** seen[d] is how many pieces of datagram d have been captured. */
  ghost predicate InProgress(grams: seq<Datagram>, seen: seq<nat>, d: nat)
    requires |seen| == |grams|
  {
    d < |grams| && 0 < seen[d] < |grams[d].pieces|
  }

  /** The next frame: each datagram's pieces come in order, once, and a fragmented datagram does not start while another
      one in progress has the same id modulo 64. A whole datagram may come at any time. */
  ghost predicate Admissible(grams: seq<Datagram>, seen: seq<nat>, e: Event)
    requires |seen| == |grams|
  {
    match e
    case Noise(f) => !(f.Ip? && f.version == 4 && f.protocol == 17)
    case Piece(d, k) =>
      && d < |grams| && k == seen[d] && k < |grams[d].pieces|
      && (k == 0 && |grams[d].pieces| > 1 ==>
            forall o: nat :: InProgress(grams, seen, o) ==> grams[o].id % 64 != grams[d].id % 64)
  }

  ghost function Advance(seen: seq<nat>, e: Event): seq<nat>
    requires e.Piece? ==> e.d < |seen|
  {
    if e.Piece? then seen[e.d := seen[e.d] + 1] else seen
  }

  ghost predicate Interleaving(grams: seq<Datagram>, seen: seq<nat>, events: seq<Event>)
    requires |seen| == |grams|
    decreases |events|
  {
    events == [] ||
    (Admissible(grams, seen, events[0]) && Interleaving(grams, Advance(seen, events[0]), events[1..]))
  }

  ghost function EventFrame(grams: seq<Datagram>, e: Event): Frame
    requires e.Piece? ==> e.d < |grams| && e.k < |grams[e.d].pieces|
  {
    if e.Piece? then PieceFrame(grams[e.d], e.k) else e.f
  }

  ghost function Frames(grams: seq<Datagram>, seen: seq<nat>, events: seq<Event>): seq<Frame>
    requires |seen| == |grams| && Interleaving(grams, seen, events)
    decreases |events|
  {
    if events == [] then []
    else [EventFrame(grams, events[0])] + Frames(grams, Advance(seen, events[0]), events[1..])
  }

  /** The payloads of the accepted datagrams, each cut to the size its header states, in the order they complete. */
  ghost function Payloads(ports: set<nat>, grams: seq<Datagram>, seen: seq<nat>, events: seq<Event>): seq<Byte>
    requires |seen| == |grams| && AllProper(grams) && Interleaving(grams, seen, events)
    decreases |events|
  {
    if events == [] then []
    else
      (if Completes(ports, grams, events[0]) then Cut(PayloadOf(grams[events[0].d])) else []) +
      Payloads(ports, grams, Advance(seen, events[0]), events[1..])
  }

  ghost predicate Completes(ports: set<nat>, grams: seq<Datagram>, e: Event)
    requires AllProper(grams)
  {
    e.Piece? && e.d < |grams| && e.k + 1 == |grams[e.d].pieces| && Accepted(ports, grams[e.d])
  }

  // ----- what the slots hold while trains are under way -----

  /** Slot k holds what has been seen of the accepted datagram in progress there, and is empty when there is none. */
  ghost predicate Holds(ports: set<nat>, grams: seq<Datagram>, seen: seq<nat>, cache: seq<PcapBuffer>)
    requires |seen| == |grams| && AllProper(grams) && |cache| == PCAP_CACHE_LENGTH
  {
    && (forall d: nat :: InProgress(grams, seen, d) && Accepted(ports, grams[d]) ==> HeldFor(grams[d], seen[d], cache))
    && (forall k :: 0 <= k < |cache| ==> Vacant(cache[k]) || Occupied(ports, grams, seen, k))
    && (forall d: nat, o: nat :: InProgress(grams, seen, d) && InProgress(grams, seen, o) && d != o ==>
          SlotOf(grams[d].id) != SlotOf(grams[o].id))
  }

  ghost predicate Vacant(s: PcapBuffer) {
    s.offset == 0 && s.len == 0
  }

  ghost predicate Occupied(ports: set<nat>, grams: seq<Datagram>, seen: seq<nat>, k: nat)
    requires |seen| == |grams| && AllProper(grams)
  {
    exists d: nat :: InProgress(grams, seen, d) && Accepted(ports, grams[d]) && SlotOf(grams[d].id) == k
  }

  ghost predicate HeldFor(d: Datagram, k: nat, cache: seq<PcapBuffer>)
    requires Proper(d) && 0 < k <= |d.pieces| && |cache| == PCAP_CACHE_LENGTH
  {
    && |Sent(d, k)| >= UDP_HEADER_SIZE
    && InUse(cache[SlotOf(d.id)], d.id, |Sent(d, k)|, Sent(d, k)[UDP_HEADER_SIZE..])
  }

  ghost predicate InUse(s: PcapBuffer, id: nat, offset: nat, data: seq<Byte>) {
    s.id == id && s.offset == offset && Data(s) == data
  }

  // ----- one event -----

  /** What a fragment at the expected offset leaves in its slot. */
  lemma FragmentAbsorbed(s: PcapBuffer, f: Frame)
    requires f.Ip? && (f.offset == 0 ==> |f.data| >= UDP_HEADER_SIZE)
    requires if f.offset == 0 then Vacant(s) else s.id == f.id && s.offset == f.offset
    requires s.len + |Payload(f)| <= UDP_PACKET_MAX_SIZE
    ensures var (t, done) := Absorb(s, f);
      done == !f.mf && InUse(t, f.id, f.offset + |f.data|, (if f.offset == 0 then [] else Data(s)) + Payload(f))
  {
    WrittenData(s.buf, s.len, Payload(f));
  }

  /** A later fragment that finds its slot empty leaves it empty. */
  lemma FragmentIgnored(s: PcapBuffer, f: Frame)
    requires f.Ip? && f.offset > 0 && Vacant(s)
    ensures var (t, done) := Absorb(s, f); !done && Vacant(t)
  {
  }

  /** What the pieces carry, one after the other. */
  lemma PieceSent(d: Datagram, k: nat)
    requires Proper(d) && k < |d.pieces|
    ensures var f := PieceFrame(d, k);
      && WellFormed(f) && (f.offset == 0 <==> k == 0)
      && |Sent(d, k + 1)| == f.offset + |f.data| && UDP_HEADER_SIZE <= |Sent(d, k + 1)| < UDP_PACKET_MAX_SIZE
      && Sent(d, k + 1)[UDP_HEADER_SIZE..] ==
         (if k == 0 then [] else Sent(d, k)[UDP_HEADER_SIZE..]) + Payload(f)
    ensures k > 0 ==> |Sent(d, k)| >= UDP_HEADER_SIZE
    ensures k == 0 ==> Payload(PieceFrame(d, k)) == d.pieces[0][UDP_HEADER_SIZE..]
  {
    SentLength(d, k);
    SentLength(d, k + 1);
    if k == 0 { assert Sent(d, 1) == d.pieces[0]; }
  }

  /** The piece is the whole datagram: its packet carries the payload and no slot is touched. */
  lemma WholeFetched(ports: set<nat>, d: Datagram, st: Store)
    requires Proper(d) && |d.pieces| == 1 && |st.cache| == PCAP_CACHE_LENGTH
    ensures WellFormed(PieceFrame(d, 0))
    ensures var (next, pkt) := Fetch(ports, st, PieceFrame(d, 0));
      && next.cache == st.cache && pkt.Some? == Accepted(ports, d)
      && (pkt.Some? ==> Data(pkt.value) == PayloadOf(d))
  {
    PieceSent(d, 0);
    SentLength(d, 0);
    var f := PieceFrame(d, 0);
    WrittenData(st.single.buf, 0, f.data[UDP_HEADER_SIZE..]);
    assert Sent(d, 1) == d.pieces[0];
  }

  /** What the frame of the next piece of a fragmented datagram does to its slot, and the packet it yields. */
  lemma PieceFetched(ports: set<nat>, d: Datagram, k: nat, st: Store)
    requires Proper(d) && k < |d.pieces| && |d.pieces| > 1 && |st.cache| == PCAP_CACHE_LENGTH
    requires Accepted(ports, d) && k > 0 ==> HeldFor(d, k, st.cache)
    requires !Accepted(ports, d) || k == 0 ==> Vacant(st.cache[SlotOf(d.id)])
    ensures WellFormed(PieceFrame(d, k))
    ensures var (next, pkt) := Fetch(ports, st, PieceFrame(d, k));
      && |next.cache| == PCAP_CACHE_LENGTH && Elsewhere(st.cache, next.cache, SlotOf(d.id))
      && (if Accepted(ports, d) && k + 1 < |d.pieces| then HeldFor(d, k + 1, next.cache)
          else Vacant(next.cache[SlotOf(d.id)]))
      && pkt.Some? == (k + 1 == |d.pieces| && Accepted(ports, d))
      && (pkt.Some? ==> Data(pkt.value) == PayloadOf(d))
  {
    var f, s := PieceFrame(d, k), st.cache[SlotOf(d.id)];
    PieceSent(d, k);
    SentLength(d, k);
    if Accepted(ports, d) {
      FragmentAbsorbed(s, f);
    } else if k > 0 {
      FragmentIgnored(s, f);
    }
  }

  /** The slots other than slot k are as they were. */
  ghost predicate Elsewhere(before: seq<PcapBuffer>, after: seq<PcapBuffer>, k: nat) {
    |before| == |after| && forall i :: 0 <= i < |before| && i != k ==> after[i] == before[i]
  }

  /** The piece's frame finds the slot as PieceFetched asks. */
  lemma SlotReady(ports: set<nat>, grams: seq<Datagram>, seen: seq<nat>, cache: seq<PcapBuffer>, d: nat, k: nat)
    requires |seen| == |grams| && AllProper(grams) && |cache| == PCAP_CACHE_LENGTH && Holds(ports, grams, seen, cache)
    requires Admissible(grams, seen, Piece(d, k)) && |grams[d].pieces| > 1
    ensures Accepted(ports, grams[d]) && k > 0 ==> HeldFor(grams[d], k, cache)
    ensures !Accepted(ports, grams[d]) || k == 0 ==> Vacant(cache[SlotOf(grams[d].id)])
  {
    if k > 0 { assert InProgress(grams, seen, d); }
  }

  lemma HoldsAfterPiece(ports: set<nat>, grams: seq<Datagram>, seen: seq<nat>, cache: seq<PcapBuffer>,
                        next: seq<PcapBuffer>, d: nat, k: nat)
    requires |seen| == |grams| && AllProper(grams) && |cache| == |next| == PCAP_CACHE_LENGTH
    requires Holds(ports, grams, seen, cache) && Admissible(grams, seen, Piece(d, k)) && |grams[d].pieces| > 1
    requires Elsewhere(cache, next, SlotOf(grams[d].id))
    requires if Accepted(ports, grams[d]) && k + 1 < |grams[d].pieces| then HeldFor(grams[d], k + 1, next)
             else Vacant(next[SlotOf(grams[d].id)])
    ensures Holds(ports, grams, seen[d := k + 1], next)
  {
    var seen' := seen[d := k + 1];
    forall o: nat | InProgress(grams, seen', o) && o != d
      ensures InProgress(grams, seen, o) && SlotOf(grams[o].id) != SlotOf(grams[d].id)
    {
      assert InProgress(grams, seen, o);
      if k > 0 { assert InProgress(grams, seen, d); }
    }
    forall i | 0 <= i < |next|
      ensures Vacant(next[i]) || Occupied(ports, grams, seen', i)
    {
      if i == SlotOf(grams[d].id) {
        if InProgress(grams, seen', d) && Accepted(ports, grams[d]) { assert Occupied(ports, grams, seen', i); }
      } else if !Vacant(cache[i]) {
        var o: nat :| InProgress(grams, seen, o) && Accepted(ports, grams[o]) && SlotOf(grams[o].id) == i;
        assert InProgress(grams, seen', o);
      }
    }
  }

  /** A whole datagram is never in progress, so the slots hold as much as before. */
  lemma HoldsAfterWhole(ports: set<nat>, grams: seq<Datagram>, seen: seq<nat>, cache: seq<PcapBuffer>, d: nat)
    requires |seen| == |grams| && AllProper(grams) && |cache| == PCAP_CACHE_LENGTH && Holds(ports, grams, seen, cache)
    requires d < |grams| && |grams[d].pieces| == 1 && seen[d] == 0
    ensures Holds(ports, grams, seen[d := 1], cache)
  {
    var seen' := seen[d := 1];
    assert forall o: nat :: InProgress(grams, seen', o) <==> InProgress(grams, seen, o);
    forall i | 0 <= i < |cache|
      ensures Vacant(cache[i]) || Occupied(ports, grams, seen', i)
    {
      if !Vacant(cache[i]) {
        var o: nat :| InProgress(grams, seen, o) && Accepted(ports, grams[o]) && SlotOf(grams[o].id) == i;
        assert InProgress(grams, seen', o);
      }
    }
  }

  lemma EventHolds(ports: set<nat>, grams: seq<Datagram>, seen: seq<nat>, st: Store, e: Event)
    requires |seen| == |grams| && AllProper(grams) && |st.cache| == PCAP_CACHE_LENGTH
    requires Holds(ports, grams, seen, st.cache) && Admissible(grams, seen, e)
    ensures WellFormed(EventFrame(grams, e))
    ensures var (next, pkt) := Fetch(ports, st, EventFrame(grams, e));
      && |next.cache| == PCAP_CACHE_LENGTH && Holds(ports, grams, Advance(seen, e), next.cache)
      && pkt.Some? == Completes(ports, grams, e)
      && (pkt.Some? ==> Data(pkt.value) == PayloadOf(grams[e.d]))
  {
    match e
    case Noise(f) =>
    case Piece(d, k) =>
      if |grams[d].pieces| == 1 {
        WholeFetched(ports, grams[d], st);
        HoldsAfterWhole(ports, grams, seen, st.cache, d);
      } else {
        SlotReady(ports, grams, seen, st.cache, d, k);
        PieceFetched(ports, grams[d], k, st);
        HoldsAfterPiece(ports, grams, seen, st.cache, Fetch(ports, st, EventFrame(grams, e)).0.cache, d, k);
      }
  }

  // ----- whole captures -----

  /** Every accepted datagram that completes claims no more bytes than a buffer holds. */
  ghost predicate CompletedInBuffer(ports: set<nat>, grams: seq<Datagram>, events: seq<Event>)
    requires AllProper(grams)
  {
    forall i :: 0 <= i < |events| && Completes(ports, grams, events[i]) ==> HeaderInBuffer(PayloadOf(grams[events[i].d]))
  }

  /** Every accepted datagram that completes claims no more bytes than it carries. */
  ghost predicate CompletedFit(ports: set<nat>, grams: seq<Datagram>, events: seq<Event>)
    requires AllProper(grams)
  {
    forall i :: 0 <= i < |events| && Completes(ports, grams, events[i]) ==> HeaderFits(PayloadOf(grams[events[i].d]))
  }

  lemma CompletedFirst(ports: set<nat>, grams: seq<Datagram>, events: seq<Event>)
    requires AllProper(grams) && events != []
    ensures CompletedFit(ports, grams, events) <==>
            (Completes(ports, grams, events[0]) ==> HeaderFits(PayloadOf(grams[events[0].d]))) &&
            CompletedFit(ports, grams, events[1..])
    ensures CompletedInBuffer(ports, grams, events) ==> CompletedInBuffer(ports, grams, events[1..])
  {
    assert forall i :: 0 < i < |events| ==> events[i] == events[1..][i - 1];
  }

  /** From any state in which the slots hold the trains under way, the bytes to come are the payloads to come, if and
      only if each header fits its payload; otherwise there are more of them. */
  lemma {:induction false} StreamFrom(ports: set<nat>, grams: seq<Datagram>, seen: seq<nat>, st: Store, events: seq<Event>)
    requires |seen| == |grams| && AllProper(grams) && |st.cache| == PCAP_CACHE_LENGTH
    requires Holds(ports, grams, seen, st.cache) && Interleaving(grams, seen, events)
    requires CompletedInBuffer(ports, grams, events)
    ensures AllWellFormed(Frames(grams, seen, events))
    ensures AllInBuffer(ports, st, Frames(grams, seen, events))
    ensures var bytes, payloads := Stream(ports, st, Frames(grams, seen, events)), Payloads(ports, grams, seen, events);
      && |bytes| >= |payloads|
      && (if CompletedFit(ports, grams, events) then bytes == payloads else |bytes| > |payloads|)
    decreases |events|
  {
    if events != [] {
      var frames, e := Frames(grams, seen, events), events[0];
      EventHolds(ports, grams, seen, st, e);
      CompletedFirst(ports, grams, events);
      var (next, pkt) := Fetch(ports, st, frames[0]);
      if Completes(ports, grams, e) { TrimmedIsCut(pkt.value); }
      assert frames[1..] == Frames(grams, Advance(seen, e), events[1..]);
      StreamFrom(ports, grams, Advance(seen, e), next, events[1..]);
    }
  }

  /** Nothing seen yet. */
  ghost function NoneSeen(grams: seq<Datagram>): seq<nat> {
    seq(|grams|, _ => 0)
  }

  /** Any interleaving of in-order fragment trains, whole datagrams and frames that are no UDP, in which no two
      fragmented datagrams in progress share their id modulo 64, replays as the accepted payloads, each cut to its
      header's size, if and only if no accepted datagram claims more bytes than it carries. */
  lemma CaptureReplaysPayloads(ports: set<nat>, grams: seq<Datagram>, events: seq<Event>)
    requires AllProper(grams) && Interleaving(grams, NoneSeen(grams), events) && CompletedInBuffer(ports, grams, events)
    ensures var frames := Frames(grams, NoneSeen(grams), events);
      && AllWellFormed(frames) && AllInBuffer(ports, NewStore(), frames)
      && (Stream(ports, NewStore(), frames) == Payloads(ports, grams, NoneSeen(grams), events) <==>
          CompletedFit(ports, grams, events))
  {
    StreamFrom(ports, grams, NoneSeen(grams), NewStore(), events);
  }

  /** Why the slots must differ: when another datagram starts in the slot of one in progress, the next piece of the
      first is thrown away, and with it what both had collected. */
  lemma SharedSlotLosesBoth(ports: set<nat>, d: Datagram, e: Datagram, k: nat, st: Store)
    requires Proper(d) && Proper(e) && |st.cache| == PCAP_CACHE_LENGTH && 0 < k < |d.pieces| && |e.pieces| > 1
    requires d.id != e.id && d.id % 64 == e.id % 64 && Accepted(ports, e) && HeldFor(d, k, st.cache)
    ensures WellFormed(PieceFrame(e, 0)) && WellFormed(PieceFrame(d, k))
    ensures var (first, p) := Fetch(ports, st, PieceFrame(e, 0));
      |first.cache| == PCAP_CACHE_LENGTH &&
      var (second, q) := Fetch(ports, first, PieceFrame(d, k));
      && p == None && q == None && Elsewhere(st.cache, second.cache, SlotOf(d.id))
      && Vacant(second.cache[SlotOf(d.id)]) && second.cache[SlotOf(d.id)].id == d.id
  {
    PieceSent(d, k);
    PieceSent(e, 0);
    var slot := SlotOf(d.id);
    var first := Fetch(ports, st, PieceFrame(e, 0)).0;
    assert first.cache[slot].id == e.id;
    assert Elsewhere(first.cache, Fetch(ports, first, PieceFrame(d, k)).0.cache, slot);
  }

  // ----- reading -----

  ghost function Total(lens: seq<nat>): nat {
    if lens == [] then 0 else Total(lens[..|lens| - 1]) + lens[|lens| - 1]
  }

  /** The first n bytes, or all when there are fewer. */
  ghost function UpTo(bytes: seq<Byte>, n: nat): seq<Byte> {
    if n <= |bytes| then bytes[..n] else bytes
  }

  /** Each call returned no more than it was asked for, and the calls together less only at the end of the capture. */
  ghost predicate Answers(lens: seq<nat>, pieces: seq<seq<Byte>>, rest: seq<Byte>) {
    && |pieces| == |lens| && (forall i :: 0 <= i < |lens| ==> |pieces[i]| <= lens[i])
    && |Concat(pieces)| <= Total(lens) && (|Concat(pieces)| < Total(lens) ==> rest == [])
  }

  lemma OneMoreAnswer(lens: seq<nat>, pieces: seq<seq<Byte>>, was: seq<Byte>, len: nat, piece: seq<Byte>, rest: seq<Byte>)
    requires Answers(lens, pieces, was) && was == piece + rest && |piece| <= len && (|piece| < len ==> rest == [])
    ensures Answers(lens + [len], pieces + [piece], rest)
    ensures Concat(pieces) + was == Concat(pieces + [piece]) + rest
  {
    assert (pieces + [piece])[..|pieces|] == pieces && (lens + [len])[..|lens|] == lens;
    assert Concat(pieces) + (piece + rest) == (Concat(pieces) + piece) + rest;
  }

  /** One more read. */
  method ReadNext(input: PcapInput, len: nat, ghost lens: seq<nat>, ghost pieces: seq<seq<Byte>>) returns (buf: seq<Byte>)
    requires input.Valid() && Answers(lens, pieces, input.Remaining())
    modifies input`single, input`curr, input`currIdx, input`capture, input.cache
    ensures input.Valid() && Answers(lens + [len], pieces + [buf], input.Remaining())
    ensures Concat(pieces) + old(input.Remaining()) == Concat(pieces + [buf]) + input.Remaining()
  {
    ghost var was := input.Remaining();
    buf := input.ReadFd(len);
    OneMoreAnswer(lens, pieces, was, len, buf, input.Remaining());
  }

  method ReadAll(input: PcapInput, lens: seq<nat>) returns (pieces: seq<seq<Byte>>)
    requires input.Valid()
    modifies input`single, input`curr, input`currIdx, input`capture, input.cache
    ensures input.Valid() && Answers(lens, pieces, input.Remaining())
    ensures old(input.Remaining()) == Concat(pieces) + input.Remaining()
  {
    pieces := [];
    ghost var all := input.Remaining();
    for n := 0 to |lens|
      invariant input.Valid() && Answers(lens[..n], pieces, input.Remaining())
      invariant all == Concat(pieces) + input.Remaining()
    {
      var buf := ReadNext(input, lens[n], lens[..n], pieces);
      assert lens[..n + 1] == lens[..n] + [lens[n]];
      pieces := pieces + [buf];
    }
    assert lens[..|lens|] == lens;
  }

  /** Reading a capture with any sequence of lengths: what the calls return, one after the other, is the capture's bytes
      from their beginning, as far as the lengths reach; these are the accepted payloads when each header fits. */
  method ReadCapture(ports: set<nat>, capture: seq<Frame>, lens: seq<nat>, ghost grams: seq<Datagram>, ghost events: seq<Event>)
    returns (pieces: seq<seq<Byte>>)
    requires AllProper(grams) && Interleaving(grams, NoneSeen(grams), events) && CompletedInBuffer(ports, grams, events)
    requires capture == Frames(grams, NoneSeen(grams), events)
    ensures |pieces| == |lens| && forall i :: 0 <= i < |lens| ==> |pieces[i]| <= lens[i]
    ensures AllWellFormed(capture) && Concat(pieces) == UpTo(Stream(ports, NewStore(), capture), Total(lens))
    ensures CompletedFit(ports, grams, events) ==>
      Concat(pieces) == UpTo(Payloads(ports, grams, NoneSeen(grams), events), Total(lens))
  {
    CaptureReplaysPayloads(ports, grams, events);
    var input := new PcapInput(ports, capture);
    ghost var bytes := Stream(ports, NewStore(), capture);
    pieces := ReadAll(input, lens);
    assert bytes == Concat(pieces) + input.Remaining();
  }
}
