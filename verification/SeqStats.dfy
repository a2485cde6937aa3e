/** Extension of the 16-bit packet counter to 64 bits, and the loss statistics built on it. */
module SeqStats {
  import opened Sums

  const TWO16: int := 0x1_0000
  const TWO64: int := 0x1_0000_0000_0000_0000
  const HALF: int := 0x8000

  type Uint16 = x: int | 0 <= x < 0x1_0000
  type Uint64 = x: int | 0 <= x < 0x1_0000_0000_0000_0000

  function Wrap64(x: int): Uint64 {
    x % TWO64
  }

  /** A 'less-than' on 16-bit sequence numbers. */
  predicate IsNewerPacket(preSeq: Uint16, seqNum: Uint16) {
    var diff := seqNum - preSeq;
    if diff > 0 then diff < HALF else if diff < 0 then diff < -HALF else false
  }

  /** The 64-bit number taken for a 16-bit one, given the highest number so far. */
  function Extended(highest: Uint64, sub: Uint16): Uint64 {
    var low: Uint16 := highest % TWO16;
    var cycle := highest - low;
    var difference := sub - low;
    var cycle' :=
      if IsNewerPacket(low, sub) then (if Wrap64(difference) >= HALF then Wrap64(cycle + TWO16) else cycle)
      else if difference >= HALF then Wrap64(cycle - TWO16) else cycle;
    Wrap64(cycle' + sub)
  }

  datatype Stats = Stats(highest: Uint64, base: Uint64, total: nat, started: bool)

  function Received(s: Stats, sub: Uint16): Stats {
    var t := if s.started then s else Stats(TWO16 + sub, TWO16 + sub, s.total, true);
    var n := Extended(t.highest, sub);
    if IsNewerPacket(t.highest % TWO16, sub) then
      Stats(if n > t.highest then n else t.highest, t.base, t.total + 1, true)
    else Stats(t.highest, if n < t.base then n else t.base, t.total + 1, true)
  }

  /** How many packets were sent between the base and the highest number, both included. */
  function Expected(s: Stats): int {
    s.highest - s.base + 1
  }

  /** The average loss fraction that is reported. */
  function AverageLoss(s: Stats): real
    requires s.highest >= s.base
  {
    if s.total == 0 then 0.0 else 1.0 - s.total as real / Expected(s) as real
  }

  class InnoSummaryPackage {
    var highestSeqNumReceived: Uint64
    var baseSeqNumReceived: Uint64
    var totalReceivePacket: nat
    var initSeqNum: bool

    ghost function View(): Stats
      reads this
    {
      Stats(highestSeqNumReceived, baseSeqNumReceived, totalReceivePacket, initSeqNum)
    }

    constructor ()
      ensures View() == Stats(0, 0, 0, false)
    {
      highestSeqNumReceived, baseSeqNumReceived, totalReceivePacket, initSeqNum := 0, 0, 0, false;
    }

    method SetInitSeqNum(seqNum: Uint16)
      modifies this
      ensures View() == Stats(TWO16 + seqNum, TWO16 + seqNum, old(totalReceivePacket), false)
    {
      highestSeqNumReceived := TWO16 + seqNum;
      baseSeqNumReceived := TWO16 + seqNum;
      initSeqNum := false;
    }

    method InnoDataPacketReceiveStats(subSeq: Uint16)
      modifies this
      ensures View() == Received(old(View()), subSeq)
    {
      if !initSeqNum {
        SetInitSeqNum(subSeq);
        initSeqNum := true;
      }
      totalReceivePacket := totalReceivePacket + 1;
      ghost var extended := Extended(highestSeqNumReceived, subSeq);
      var oldSeqNum := highestSeqNumReceived % TWO16;
      var seqNumCycle: Uint64 := highestSeqNumReceived - oldSeqNum;
      var difference := subSeq - oldSeqNum;
      if IsNewerPacket(oldSeqNum, subSeq) {
        if Wrap64(difference) >= HALF {
          seqNumCycle := Wrap64(seqNumCycle + TWO16);
        }
        var newSeqNum := Wrap64(seqNumCycle + subSeq);
        assert newSeqNum == extended;
        if newSeqNum > highestSeqNumReceived {
          highestSeqNumReceived := newSeqNum;
        }
      } else {
        if difference >= HALF {
          seqNumCycle := Wrap64(seqNumCycle - TWO16);
        }
        var newSeqNum := Wrap64(seqNumCycle + subSeq);
        assert newSeqNum == extended;
        if newSeqNum < baseSeqNumReceived {
          baseSeqNumReceived := newSeqNum;
        }
      }
    }

    function GetExpectReceiveInnoPacket(): (expected: int)
      reads this
      ensures expected == Expected(View())
    {
      highestSeqNumReceived - baseSeqNumReceived + 1
    }

    /** The average of print_inno_data_packet_loss_rate: a fraction as long as no more packets came than were expected. */
    method AverageLossFraction() returns (fraction: real)
      requires highestSeqNumReceived >= baseSeqNumReceived
      ensures fraction == AverageLoss(View())
      ensures totalReceivePacket <= Expected(View()) ==> 0.0 <= fraction < 1.0
    {
      if totalReceivePacket == 0 {
        return 0.0;
      }
      if totalReceivePacket <= Expected(View()) { LossBounds(View()); }
      return 1.0 - totalReceivePacket as real / GetExpectReceiveInnoPacket() as real;
    }
  }

  // ----- the extension recovers the true counter, exactly inside its window -----

  ghost predicate InWindow(highest: int, t: int) {
    highest - 0x8000 <= t <= highest + 0x7FFF
  }

  lemma SplitCounter(x: int)
    ensures x == TWO16 * (x / TWO16) + x % TWO16 && 0 <= x % TWO16 < TWO16
  {
  }

  /** The signed distance, in the window, from the highest number to one with given low bits. */
  function Distance(low: Uint16, sub: Uint16): int {
    var d := sub - low;
    if d < -HALF then d + TWO16 else if d >= HALF then d - TWO16 else d
  }

  lemma ExtendedIsDistance(highest: Uint64, sub: Uint16)
    requires TWO16 <= highest <= TWO64 - TWO16
    ensures Extended(highest, sub) == highest + Distance(highest % TWO16, sub)
  {
    SplitCounter(highest);
    var low := highest % TWO16;
    assert Wrap64(sub - low) == if sub < low then sub - low + TWO64 else sub - low;
  }

  /** Whatever the 16-bit number, the extension lies in the window around the highest and has that number as low bits. */
  lemma ExtendedInWindow(highest: Uint64, sub: Uint16)
    requires TWO16 <= highest <= TWO64 - TWO16
    ensures InWindow(highest, Extended(highest, sub)) && Extended(highest, sub) % TWO16 == sub
    ensures IsNewerPacket(highest % TWO16, sub) <==> Extended(highest, sub) > highest
  {
    SplitCounter(highest);
    ExtendedIsDistance(highest, sub);
    var low, q := highest % TWO16, highest / TWO16;
    var q' := if sub - low < -HALF then q + 1 else if sub - low >= HALF then q - 1 else q;
    assert Extended(highest, sub) == TWO16 * q' + sub;
  }

  lemma WindowUnique(highest: int, a: int, b: int)
    requires InWindow(highest, a) && InWindow(highest, b) && a % TWO16 == b % TWO16
    ensures a == b
  {
    SplitCounter(a);
    SplitCounter(b);
  }

  /** A packet's true counter is recovered from its low 16 bits exactly when it is in the window: at most 0x8000 behind
      the highest one so far and at most 0x7FFF ahead of it. */
  lemma ExtensionExact(highest: Uint64, t: Uint64)
    requires TWO16 <= highest <= TWO64 - TWO16
    ensures Extended(highest, t % TWO16) == t <==> InWindow(highest, t)
  {
    ExtendedInWindow(highest, t % TWO16);
    if InWindow(highest, t) { WindowUnique(highest, t, Extended(highest, t % TWO16)); }
  }

  // ----- whole runs -----

  ghost function Max(ts: seq<int>): int
    requires ts != []
  {
    var n := |ts| - 1;
    if n == 0 then ts[0] else if ts[n] > Max(ts[..n]) then ts[n] else Max(ts[..n])
  }

  ghost function Min(ts: seq<int>): int
    requires ts != []
  {
    var n := |ts| - 1;
    if n == 0 then ts[0] else if ts[n] < Min(ts[..n]) then ts[n] else Min(ts[..n])
  }

  lemma {:induction false} Extremes(ts: seq<int>, i: nat)
    requires i < |ts|
    ensures Min(ts) <= ts[i] <= Max(ts) && Min(ts) in ts && Max(ts) in ts
  {
    var n := |ts| - 1;
    if n > 0 {
      Extremes(ts[..n], if i < n then i else 0);
    }
  }

  /** True counters of the packets received, counted so that the first lies in the second block of 65536: each in the
      window around the highest before it. */
  ghost predicate Plausible(ts: seq<int>) {
    && (ts != [] ==> 0x1_0000 <= ts[0] < 0x2_0000)
    && (forall i :: 0 < i < |ts| ==> InWindow(Max(ts[..i]), ts[i]))
    && (forall i :: 0 <= i < |ts| ==> ts[i] <= TWO64 - TWO16)
  }

  ghost function Run(ts: seq<int>): Stats {
    if ts == [] then Stats(0, 0, 0, false) else Received(Run(ts[..|ts| - 1]), ts[|ts| - 1] % TWO16)
  }

  lemma ReceivedTracks(s: Stats, t: Uint64)
    requires s.started && TWO16 <= s.highest <= TWO64 - TWO16 && s.base <= s.highest && InWindow(s.highest, t)
    ensures Received(s, t % TWO16) ==
            Stats(if t > s.highest then t else s.highest, if t < s.base then t else s.base, s.total + 1, true)
  {
    ExtensionExact(s.highest, t);
    ExtendedInWindow(s.highest, t % TWO16);
  }

  lemma FirstTracks(t: Uint64)
    requires TWO16 <= t < 2 * TWO16
    ensures Received(Stats(0, 0, 0, false), t % TWO16) == Stats(t, t, 1, true)
  {
    SplitCounter(t);
    ExtensionExact(t, t);
    ExtendedInWindow(t, t % TWO16);
  }

  lemma PlausiblePrefix(ts: seq<int>)
    requires Plausible(ts) && |ts| > 1
    ensures Plausible(ts[..|ts| - 1]) && InWindow(Max(ts[..|ts| - 1]), ts[|ts| - 1])
  {
    var n := |ts| - 1;
    assert forall i :: 0 < i < n ==> ts[..n][..i] == ts[..i];
  }

  /** Over any plausible run the recorded numbers are the true maximum and minimum, and nothing underflows. */
  lemma {:induction false} RunTracksExtremes(ts: seq<int>)
    requires Plausible(ts) && ts != []
    ensures TWO16 <= Max(ts) <= TWO64 - TWO16 && HALF <= Min(ts) <= Max(ts)
    ensures Run(ts) == Stats(Max(ts), Min(ts), |ts|, true)
  {
    var n := |ts| - 1;
    if n == 0 {
      assert ts[..0] == [];
      FirstTracks(ts[0]);
    } else {
      PlausiblePrefix(ts);
      RunTracksExtremes(ts[..n]);
      ReceivedTracks(Run(ts[..n]), ts[n]);
    }
  }

  /** With no packet counted twice, no more packets were received than expected. */
  lemma ReceivedAtMostExpected(ts: seq<int>)
    requires Plausible(ts) && ts != [] && Distinct(ts)
    ensures 0 < Run(ts).total <= Expected(Run(ts)) && Run(ts).highest >= Run(ts).base
  {
    RunTracksExtremes(ts);
    forall x | x in Elements(ts)
      ensures Min(ts) <= x <= Max(ts)
    {
      var i :| 0 <= i < |ts| && ts[i] == x;
      Extremes(ts, i);
    }
    DistinctCount(ts);
    RangeCount(Elements(ts), Min(ts), Max(ts));
  }

  lemma FractionBounds(received: real, expected: real)
    requires 0.0 < received <= expected
    ensures 0.0 < received / expected <= 1.0
  {
  }

  lemma LossBounds(s: Stats)
    requires 0 < s.total <= Expected(s)
    ensures 0.0 <= AverageLoss(s) < 1.0
  {
    FractionBounds(s.total as real, Expected(s) as real);
  }

  /** So the loss fraction is in [0, 1). */
  lemma LossIsAFraction(ts: seq<int>)
    requires Plausible(ts) && ts != [] && Distinct(ts)
    ensures Run(ts).total <= Expected(Run(ts)) && Run(ts).highest >= Run(ts).base
    ensures 0.0 <= AverageLoss(Run(ts)) < 1.0
  {
    ReceivedAtMostExpected(ts);
    LossBounds(Run(ts));
  }

  // ----- what the reported fraction is a fraction of -----

  ghost function Between(lo: int, hi: int): set<int>
    decreases hi - lo
  {
    if lo > hi then {} else Between(lo, hi - 1) + {hi}
  }

  lemma {:induction false} BetweenExact(lo: int, hi: int)
    requires lo <= hi + 1
    ensures |Between(lo, hi)| == hi - lo + 1 && forall x :: x in Between(lo, hi) <==> lo <= x <= hi
    decreases hi - lo + 1
  {
    if lo <= hi { BetweenExact(lo, hi - 1); }
  }

  /** The counters between the first and the last one received that were not received. */
  ghost function Lost(ts: seq<int>): set<int>
    requires ts != []
  {
    Between(Min(ts), Max(ts)) - Elements(ts)
  }

  lemma LostCount(ts: seq<int>)
    requires ts != [] && Distinct(ts)
    ensures |Lost(ts)| == Max(ts) - Min(ts) + 1 - |ts|
  {
    Extremes(ts, 0);
    BetweenExact(Min(ts), Max(ts));
    forall x | x in Elements(ts)
      ensures x in Between(Min(ts), Max(ts))
    {
      var i :| 0 <= i < |ts| && ts[i] == x;
      Extremes(ts, i);
    }
    DistinctCount(ts);
    assert Lost(ts) + Elements(ts) == Between(Min(ts), Max(ts));
  }

  /** With no packet counted twice, the reported fraction times the number of packets sent from the lowest to the highest
      counter received is the number lost among them. */
  lemma LossExact(ts: seq<int>)
    requires Plausible(ts) && ts != [] && Distinct(ts)
    ensures Run(ts).highest >= Run(ts).base
    ensures IsShare(AverageLoss(Run(ts)), |Lost(ts)|, Max(ts) - Min(ts) + 1)
  {
    RunTracksExtremes(ts);
    LossOf(Run(ts), ts);
  }

  lemma LossOf(s: Stats, ts: seq<int>)
    requires ts != [] && Distinct(ts) && s.highest == Max(ts) && s.base == Min(ts) && s.total == |ts|
    ensures s.highest >= s.base
    ensures IsShare(AverageLoss(s), |Lost(ts)|, Max(ts) - Min(ts) + 1)
  {
    Extremes(ts, 0);
    LostCount(ts);
    LossShare(s);
  }

  lemma LossShare(s: Stats)
    requires s.base <= s.highest
    ensures IsShare(AverageLoss(s), if s.total == 0 then 0 else Expected(s) - s.total, Expected(s))
  {
    Complement(s.total, Expected(s));
  }

  ghost predicate IsShare(fraction: real, part: int, whole: int) {
    fraction * whole as real == part as real
  }

  lemma Complement(part: int, whole: int)
    requires whole > 0
    ensures IsShare(1.0 - part as real / whole as real, whole - part, whole)
  {
    var p, w := part as real, whole as real;
    assert p / w * w == p;
  }
}
