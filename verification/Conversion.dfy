/** Conversion of sphere-point packets to xyz-point packets: which points are written, and the size accounting. */
module Conversion {
  import opened Options

  const DATA_PACKET_HEADER: nat := 70
  const XYZ_POINT: nat := 26
  const EN_XYZ_POINT: nat := 40

  /** The three block layouts. A source packet of any other type is refused. */
  datatype Layout = Sphere | EnSphere | CoSphere {
    function Channels(): nat {
      if CoSphere? then 8 else 4
    }

    /** Position in a block of return m of channel ch. */
    function PlaceInBlock(ch: nat, m: nat): nat {
      if CoSphere? then ch + 8 * m else ch + 4 * m
    }

    /** Size of the xyz points converted to. */
    function ItemSize(): nat {
      if Sphere? then XYZ_POINT else EN_XYZ_POINT
    }

    /** Size of n such points. */
    function Bytes(n: nat): nat {
      if Sphere? then n * XYZ_POINT else n * EN_XYZ_POINT
    }
  }

  /** One block: the radius of each point, returns after channels, and which channels are inside the field of view. */
  datatype Block = Block(radius: seq<nat>, inFov: seq<bool>)

  /** mode is the multiple-return mode: 1 single, 2 and 3 two returns. */
  datatype Source = Source(layout: Layout, mode: nat, blocks: seq<Block>)

  /** A written point: where it comes from. The coordinates are not modelled. */
  datatype Point = Point(block: nat, channel: nat, multiReturn: nat, radius: nat)

  function ReturnTimes(mode: nat): nat {
    if mode >= 2 then 2 else 1
  }

  function PointsPerBlock(src: Source): nat {
    if ReturnTimes(src.mode) == 1 then src.layout.Channels() else 2 * src.layout.Channels()
  }

  predicate ValidSource(src: Source) {
    forall i :: 0 <= i < |src.blocks| ==>
      && |src.blocks[i].radius| == PointsPerBlock(src)
      && |src.blocks[i].inFov| == src.layout.Channels()
  }

  function MaxPointsCount(src: Source): nat {
    |src.blocks| * src.layout.Channels() * (if src.mode == 1 then 1 else 2)
  }

  function DataPacketSize(itemSize: nat, itemCount: nat): nat {
    DATA_PACKET_HEADER + itemCount * itemSize
  }

  // ----- the points of a packet, in the order the iteration visits them -----

  /** Point m of channel ch of block i, if it is converted: it has a radius and, with an angle table, its channel is in
      view. Places outside the packet have no point. */
  function PointAt(src: Source, table: bool, i: nat, ch: nat, m: nat): seq<Point> {
    if i >= |src.blocks| || ch >= |src.blocks[i].inFov| || src.layout.PlaceInBlock(ch, m) >= |src.blocks[i].radius| then []
    else if src.layout.CoSphere? && table && !src.blocks[i].inFov[ch] then []
    else
      var radius := src.blocks[i].radius[src.layout.PlaceInBlock(ch, m)];
      if radius > 0 then [Point(i, ch, m, radius)] else []
  }

  /** What is iterated over: the returns of a channel, the channels of a block, or the blocks of a packet. */
  datatype Loop = Returns(src: Source, table: bool, i: nat, ch: nat) | Channels(src: Source, table: bool, i: nat)
                | Blocks(src: Source, table: bool)
  {
    function Depth(): nat {
      match this
      case Returns(_, _, _, _) => 0
      case Channels(_, _, _) => 1
      case Blocks(_, _) => 2
    }
  }

  /** The points of round k of a loop, and of its first n rounds. */
  function Round(loop: Loop, k: nat): seq<Point>
    decreases loop.Depth(), 0, 0
  {
    match loop
    case Returns(src, table, i, ch) => PointAt(src, table, i, ch, k)
    case Channels(src, table, i) => Gather(Returns(src, table, i, k), ReturnTimes(src.mode))
    case Blocks(src, table) => Gather(Channels(src, table, k), src.layout.Channels())
  }

  function Gather(loop: Loop, n: nat): seq<Point>
    decreases loop.Depth(), 1, n
  {
    if n == 0 then [] else Gather(loop, n - 1) + Round(loop, n - 1)
  }

  function Count(loop: Loop, k: nat): nat {
    |Round(loop, k)|
  }

  /** All the points of a packet. */
  function WholePacket(src: Source, table: bool): seq<Point> {
    Gather(Blocks(src, table), |src.blocks|)
  }

  /** get_points_count, which iterates without an angle table. */
  function PointsCount(src: Source): nat {
    |WholePacket(src, false)|
  }

  lemma {:induction false} GatherPrefix(loop: Loop, m: nat, n: nat)
    requires m <= n
    ensures Gather(loop, m) <= Gather(loop, n)
  {
    if m < n { GatherPrefix(loop, m, n - 1); }
  }

  lemma OneMoreRound(loop: Loop, n: nat)
    requires n > 0
    ensures |Gather(loop, n)| == |Gather(loop, n - 1)| + Count(loop, n - 1)
  {
  }

  lemma {:induction false} GatherBound(loop: Loop, n: nat, most: nat)
    requires forall k: nat :: k < n ==> Count(loop, k) <= most
    ensures |Gather(loop, n)| <= n * most
  {
    if n > 0 {
      GatherBound(loop, n - 1, most);
      OneMoreRound(loop, n);
      assert n * most == (n - 1) * most + most;
    }
  }

  /** Rounds that add no more points than another loop's gather no more, and as many exactly when each adds as many. */
  lemma {:induction false} GatherCounts(a: Loop, b: Loop, n: nat)
    requires forall k: nat :: k < n ==> Count(a, k) <= Count(b, k)
    ensures |Gather(a, n)| <= |Gather(b, n)|
    ensures |Gather(a, n)| == |Gather(b, n)| <==> forall k: nat :: k < n ==> Count(a, k) == Count(b, k)
  {
    if n > 0 {
      GatherCounts(a, b, n - 1);
      OneMoreRound(a, n);
      OneMoreRound(b, n);
    }
  }

  // ----- the destination packet -----

  /** As many of the points, from the first on, as fit in so many bytes. */
  function Room(layout: Layout, pts: seq<Point>, bytes: nat): (r: seq<Point>)
    ensures r <= pts && layout.Bytes(|r|) <= bytes
    ensures |r| < |pts| ==> layout.Bytes(|r| + 1) > bytes
  {
    var n := if layout.Sphere? then bytes / XYZ_POINT else bytes / EN_XYZ_POINT;
    if n < |pts| then pts[..n] else pts
  }

  lemma RoomForAll(layout: Layout, pts: seq<Point>, bytes: nat)
    ensures Room(layout, pts, bytes) == pts <==> layout.Bytes(|pts|) <= bytes
  {
  }

  /** Where adding points stands: the list before and now, the points to add, the buffer, the size before, and whether
      all fitted, with the size then. */
  datatype Progress = Progress(before: seq<Point>, now: seq<Point>, add: seq<Point>, destSize: nat, required: nat, ok: bool,
                               needed: nat)

  /** As many points as fit have been added, in order. */
  ghost predicate Filled(layout: Layout, p: Progress) {
    && p.required <= p.destSize
    && p.now == p.before + Room(layout, p.add, p.destSize - p.required)
    && (p.ok <==> layout.Bytes(|p.add|) <= p.destSize - p.required)
    && (p.ok ==> p.needed == p.required + layout.Bytes(|p.add|) && p.needed <= p.destSize)
  }

  lemma NothingAdded(layout: Layout, points: seq<Point>, destSize: nat, required: nat)
    requires required <= destSize
    ensures Filled(layout, Progress(points, points, [], destSize, required, true, required))
  {
    assert points + [] == points;
  }

  /** More points after some that all fitted. */
  lemma Advanced(layout: Layout, p: Progress, now: seq<Point>, next: seq<Point>, ok: bool, needed: nat) returns (q: Progress)
    requires Filled(layout, p) && p.ok && Filled(layout, Progress(p.now, now, next, p.destSize, p.needed, ok, needed))
    ensures q == Progress(p.before, now, p.add + next, p.destSize, p.required, ok, needed) && Filled(layout, q)
  {
    q := Progress(p.before, now, p.add + next, p.destSize, p.required, ok, needed);
    BytesAdd(layout, |p.add|, |next|);
    NowFurther(layout, p, Progress(p.now, now, next, p.destSize, p.needed, ok, needed));
  }

  lemma NowFurther(layout: Layout, p: Progress, q: Progress)
    requires Filled(layout, p) && p.ok && Filled(layout, q)
    requires q.before == p.now && q.destSize == p.destSize && q.required == p.needed
    ensures q.now == p.before + Room(layout, p.add + q.add, p.destSize - p.required)
  {
    var bytes, rest := p.destSize - p.required, q.destSize - q.required;
    RoomForAll(layout, p.add, bytes);
    assert p.now == p.before + p.add;
    assert rest == bytes - layout.Bytes(|p.add|);
    RoomAfter(layout, p.add, q.add, bytes);
    Joined(p.before, p.add, Room(layout, q.add, rest));
    assert q.now == p.now + Room(layout, q.add, rest);
  }

  lemma Joined(a: seq<Point>, b: seq<Point>, c: seq<Point>)
    ensures (a + b) + c == a + (b + c)
  {
  }

  lemma BytesAdd(layout: Layout, m: nat, n: nat)
    ensures layout.Bytes(m + n) == layout.Bytes(m) + layout.Bytes(n)
  {
  }

  /** What is left out stays out when still more was to be added. */
  lemma FilledLonger(layout: Layout, p: Progress, more: seq<Point>)
    requires Filled(layout, p) && !p.ok && p.add <= more
    ensures Filled(layout, p.(add := more))
  {
    RoomPrefix(layout, p.add, more, p.destSize - p.required);
  }

  /** A longer list with the same beginning, when already that does not fit. */
  lemma RoomPrefix(layout: Layout, pts: seq<Point>, more: seq<Point>, bytes: nat)
    requires pts <= more && layout.Bytes(|pts|) > bytes
    ensures Room(layout, more, bytes) == Room(layout, pts, bytes) && layout.Bytes(|more|) > bytes
  {
    var r, q := Room(layout, pts, bytes), Room(layout, more, bytes);
    assert |r| == |q|;
    assert r == more[..|r|];
  }

  /** What fits of two lists when the first fits. */
  lemma RoomAfter(layout: Layout, a: seq<Point>, b: seq<Point>, bytes: nat)
    requires layout.Bytes(|a|) <= bytes
    ensures Room(layout, a + b, bytes) == a + Room(layout, b, bytes - layout.Bytes(|a|))
  {
    var r, q := Room(layout, a + b, bytes), Room(layout, b, bytes - layout.Bytes(|a|));
    assert |r| == |a| + |q|;
    assert r == (a + b)[..|a| + |q|] == a + b[..|q|];
  }

  /** The fields of a destination packet a conversion touches. */
  datatype Dest = Dest(itemSize: nat, size: nat, points: seq<Point>)

  /** The size a conversion starts from. */
  function BaseSize(d: Dest, append: bool): nat {
    if append then d.size else DATA_PACKET_HEADER
  }

  ghost predicate Fits(d: Dest, src: Source, table: bool, destSize: nat, append: bool)
    requires ValidSource(src)
  {
    BaseSize(d, append) + src.layout.Bytes(|WholePacket(src, table)|) <= destSize
  }

  /** The packet after a conversion that failed: as many points as fit, and the size as it was. */
  ghost function Overfull(d: Dest, src: Source, table: bool, destSize: nat, append: bool): Dest
    requires ValidSource(src)
  {
    var kept := if append then d.points else [];
    if BaseSize(d, append) > destSize then Dest(d.itemSize, d.size, kept)
    else Dest(src.layout.ItemSize(), d.size,
              kept + Room(src.layout, WholePacket(src, table), destSize - BaseSize(d, append)))
  }

  /** The packet after a conversion that did not fail. */
  ghost function Converted(d: Dest, src: Source, table: bool, append: bool): Dest
    requires ValidSource(src)
  {
    var add := WholePacket(src, table);
    Dest(src.layout.ItemSize(), BaseSize(d, append) + src.layout.Bytes(|add|), (if append then d.points else []) + add)
  }

  lemma Outcome(d: Dest, src: Source, table: bool, destSize: nat, append: bool, now: seq<Point>, ok: bool, needed: nat)
    requires ValidSource(src)
    requires Filled(src.layout, Progress(if append then d.points else [], now, WholePacket(src, table), destSize,
                                         BaseSize(d, append), ok, needed))
    ensures ok <==> Fits(d, src, table, destSize, append)
    ensures Dest(src.layout.ItemSize(), if ok then needed else d.size, now) ==
            if ok then Converted(d, src, table, append) else Overfull(d, src, table, destSize, append)
  {
    RoomForAll(src.layout, WholePacket(src, table), destSize - BaseSize(d, append));
  }

  class DataPacket {
    var itemSize: nat
    var itemNumber: nat
    var size: nat
    var points: seq<Point>

    ghost predicate Valid()
      reads this
    {
      itemNumber == |points|
    }

    ghost function View(): Dest
      reads this
    {
      Dest(itemSize, size, points)
    }

    constructor ()
      ensures Valid() && View() == Dest(0, 0, [])
    {
      itemSize, itemNumber, size, points := 0, 0, 0, [];
    }

    /** Writes a point if there is room; required is the size so far. */
    method WritePoint(pts: seq<Point>, layout: Layout, destSize: nat, required: nat) returns (ok: bool, needed: nat)
      requires |pts| <= 1 && Valid() && required <= destSize
      modifies this`itemNumber, this`points
      ensures Valid() && Filled(layout, Progress(old(points), points, pts, destSize, required, ok, needed))
    {
      needed := required;
      ok := true;
      if pts != [] {
        needed := needed + layout.ItemSize();
        if needed > destSize {
          return false, needed;
        }
        points := points + pts;
        itemNumber := itemNumber + 1;
      }
    }

    method ConvertChannel(src: Source, table: bool, i: nat, ch: nat, destSize: nat, required: nat) returns (ok: bool, needed: nat)
      requires i < |src.blocks| && ch < src.layout.Channels() && Valid() && required <= destSize
      modifies this`itemNumber, this`points
      ensures Valid()
      ensures Filled(src.layout, Progress(old(points), points, Gather(Returns(src, table, i, ch), ReturnTimes(src.mode)),
                                          destSize, required, ok, needed))
    {
      needed, ok := required, true;
      NothingAdded(src.layout, points, destSize, required);
      ghost var loop := Returns(src, table, i, ch);
      for m := 0 to ReturnTimes(src.mode)
        invariant Valid() && ok
        invariant Filled(src.layout, Progress(old(points), points, Gather(loop, m), destSize, required, true, needed))
      {
        ghost var p := Progress(old(points), points, Gather(loop, m), destSize, required, true, needed);
        ok, needed := WritePoint(PointAt(src, table, i, ch, m), src.layout, destSize, needed);
        Stepped(src.layout, loop, m, ReturnTimes(src.mode), p, points, ok, needed);
        if !ok {
          return;
        }
      }
    }

    method ConvertBlock(src: Source, table: bool, i: nat, destSize: nat, required: nat) returns (ok: bool, needed: nat)
      requires i < |src.blocks| && Valid() && required <= destSize
      modifies this`itemNumber, this`points
      ensures Valid()
      ensures Filled(src.layout, Progress(old(points), points, Gather(Channels(src, table, i), src.layout.Channels()),
                                          destSize, required, ok, needed))
    {
      needed, ok := required, true;
      NothingAdded(src.layout, points, destSize, required);
      ghost var loop := Channels(src, table, i);
      for ch := 0 to src.layout.Channels()
        invariant Valid() && ok
        invariant Filled(src.layout, Progress(old(points), points, Gather(loop, ch), destSize, required, true, needed))
      {
        ghost var p := Progress(old(points), points, Gather(loop, ch), destSize, required, true, needed);
        ok, needed := ConvertChannel(src, table, i, ch, destSize, needed);
        Stepped(src.layout, loop, ch, src.layout.Channels(), p, points, ok, needed);
        if !ok {
          return;
        }
      }
    }

    /** The loops over blocks, channels and returns: points are added in order as long as they fit. */
    method ConvertBlocks(src: Source, table: bool, destSize: nat, required: nat) returns (ok: bool, needed: nat)
      requires Valid() && required <= destSize
      modifies this`itemNumber, this`points
      ensures Valid()
      ensures Filled(src.layout, Progress(old(points), points, Gather(Blocks(src, table), |src.blocks|),
                                          destSize, required, ok, needed))
    {
      needed, ok := required, true;
      NothingAdded(src.layout, points, destSize, required);
      ghost var loop := Blocks(src, table);
      for i := 0 to |src.blocks|
        invariant Valid() && ok
        invariant Filled(src.layout, Progress(old(points), points, Gather(loop, i), destSize, required, true, needed))
      {
        ghost var p := Progress(old(points), points, Gather(loop, i), destSize, required, true, needed);
        ok, needed := ConvertBlock(src, table, i, destSize, needed);
        Stepped(src.layout, loop, i, |src.blocks|, p, points, ok, needed);
        if !ok {
          return;
        }
      }
    }

    /** convert_to_xyz_pointcloud: it fails just when the points do not fit; otherwise every convertible point of the
        source has been added, in order, and the size field grown by theirs. A failed call has added the points that
        fit and left the size field as it was. */
    method ConvertToXyzPointcloud(src: Source, table: bool, destSize: nat, append: bool) returns (ok: bool)
      requires ValidSource(src) && Valid()
      modifies this
      ensures Valid()
      ensures ok <==> Fits(old(View()), src, table, destSize, append)
      ensures View() == if ok then Converted(old(View()), src, table, append) else Overfull(old(View()), src, table, destSize, append)
    {
      var required := DATA_PACKET_HEADER;
      if !append {
        itemNumber, points := 0, [];
      } else {
        required := size;
      }
      if required > destSize {
        return false;
      }
      itemSize := src.layout.ItemSize();
      ok, required := ConvertBlocks(src, table, destSize, required);
      Outcome(old(View()), src, table, destSize, append, points, ok, required);
      if ok {
        size := required;
      }
    }
  }

  /** One more round: either its points fitted, or what the rounds up to it have become is what all n would have become. */
  lemma Stepped(layout: Layout, loop: Loop, k: nat, n: nat, p: Progress, now: seq<Point>, ok: bool, needed: nat)
    requires k < n && Filled(layout, p) && p.ok && p.add == Gather(loop, k)
    requires Filled(layout, Progress(p.now, now, Round(loop, k), p.destSize, p.needed, ok, needed))
    ensures Filled(layout, Progress(p.before, now, Gather(loop, if ok then k + 1 else n), p.destSize, p.required, ok, needed))
  {
    var q := Advanced(layout, p, now, Round(loop, k), ok, needed);
    if !ok {
      GatherPrefix(loop, k + 1, n);
      FilledLonger(layout, q, Gather(loop, n));
    }
  }

  // ----- buffers sized in advance -----

  lemma ChannelBound(src: Source, table: bool, i: nat, ch: nat)
    ensures Count(Channels(src, table, i), ch) <= ReturnTimes(src.mode)
  {
    GatherBound(Returns(src, table, i, ch), ReturnTimes(src.mode), 1);
  }

  lemma BlockBound(src: Source, table: bool, i: nat)
    ensures Count(Blocks(src, table), i) <= PointsPerBlock(src)
  {
    var loop := Channels(src, table, i);
    forall ch: nat
      ensures Count(loop, ch) <= ReturnTimes(src.mode)
    {
      ChannelBound(src, table, i, ch);
    }
    GatherBound(loop, src.layout.Channels(), ReturnTimes(src.mode));
  }

  lemma PacketBound(src: Source, table: bool)
    ensures |WholePacket(src, table)| <= |src.blocks| * PointsPerBlock(src)
  {
    var loop := Blocks(src, table);
    forall i: nat
      ensures Count(loop, i) <= PointsPerBlock(src)
    {
      BlockBound(src, table, i);
    }
    GatherBound(loop, |src.blocks|, PointsPerBlock(src));
  }

  /** A buffer sized from get_max_points_count takes every conversion of the packet, with or without an angle table. */
  lemma MaxPointsSuffice(src: Source, table: bool)
    requires ValidSource(src)
    ensures DATA_PACKET_HEADER + src.layout.Bytes(|WholePacket(src, table)|) <=
            DataPacketSize(src.layout.ItemSize(), MaxPointsCount(src))
  {
    PacketBound(src, table);
    MostPoints(src);
    BytesMonotone(src.layout, |WholePacket(src, table)|, MaxPointsCount(src));
  }

  lemma MostPoints(src: Source)
    ensures |src.blocks| * PointsPerBlock(src) <= MaxPointsCount(src)
  {
    var b := |src.blocks|;
    if src.layout.CoSphere? {
      assert MaxPointsCount(src) == b * 8 * (if src.mode == 1 then 1 else 2);
    } else {
      assert MaxPointsCount(src) == b * 4 * (if src.mode == 1 then 1 else 2);
    }
  }

  lemma BytesMonotone(layout: Layout, m: nat, n: nat)
    requires m <= n
    ensures layout.Bytes(m) <= n * layout.ItemSize()
  {
    if layout.Sphere? { assert layout.ItemSize() == 26; } else { assert layout.ItemSize() == 40; }
  }

  /** convert_to_xyz_pointcloud_malloced: the allocation always suffices. */
  method ConvertMalloced(src: Source, table: bool) returns (pkt: DataPacket)
    requires ValidSource(src)
    ensures fresh(pkt) && pkt.Valid() && Sized(pkt.View())
    ensures pkt.points == WholePacket(src, table) && pkt.itemSize == src.layout.ItemSize()
  {
    pkt := new DataPacket();
    MaxPointsSuffice(src, table);
    var ok := pkt.ConvertToXyzPointcloud(src, table, DataPacketSize(src.layout.ItemSize(), MaxPointsCount(src)), false);
  }

  // ----- the points converted are the points counted -----

  /** With an angle table this point is left out although it has a radius: its channel is out of view. */
  ghost predicate Hidden(src: Source, i: nat, ch: nat, m: nat) {
    PointAt(src, true, i, ch, m) != PointAt(src, false, i, ch, m)
  }

  lemma HiddenMeans(src: Source, i: nat, ch: nat, m: nat)
    requires ValidSource(src) && i < |src.blocks| && ch < src.layout.Channels() && m < ReturnTimes(src.mode)
    ensures Hidden(src, i, ch, m) <==> src.layout.CoSphere? && !src.blocks[i].inFov[ch] &&
                                       src.blocks[i].radius[src.layout.PlaceInBlock(ch, m)] > 0
  {
  }

  /** No point of the packet that has a radius is out of view. */
  ghost predicate PacketShown(src: Source) {
    forall i: nat :: i < |src.blocks| ==> BlockShown(src, i)
  }

  ghost predicate BlockShown(src: Source, i: nat) {
    forall ch: nat :: ch < src.layout.Channels() ==> ChannelShown(src, i, ch)
  }

  ghost predicate ChannelShown(src: Source, i: nat, ch: nat) {
    forall m: nat :: m < ReturnTimes(src.mode) ==> !Hidden(src, i, ch, m)
  }

  lemma ChannelCounts(src: Source, i: nat, ch: nat)
    ensures var a, b := Channels(src, true, i), Channels(src, false, i);
      Count(a, ch) <= Count(b, ch) && (Count(a, ch) == Count(b, ch) <==> ChannelShown(src, i, ch))
  {
    var a, b := Returns(src, true, i, ch), Returns(src, false, i, ch);
    assert forall m: nat :: Hidden(src, i, ch, m) <==> Count(a, m) != Count(b, m);
    GatherCounts(a, b, ReturnTimes(src.mode));
  }

  lemma BlockCounts(src: Source, i: nat)
    ensures var a, b := Blocks(src, true), Blocks(src, false);
      Count(a, i) <= Count(b, i) && (Count(a, i) == Count(b, i) <==> BlockShown(src, i))
  {
    var a, b := Channels(src, true, i), Channels(src, false, i);
    forall ch: nat
      ensures Count(a, ch) <= Count(b, ch) && (Count(a, ch) == Count(b, ch) <==> ChannelShown(src, i, ch))
    {
      ChannelCounts(src, i, ch);
    }
    GatherCounts(a, b, src.layout.Channels());
  }

  lemma PacketCounts(src: Source)
    ensures |WholePacket(src, true)| <= |WholePacket(src, false)|
    ensures |WholePacket(src, true)| == |WholePacket(src, false)| <==> PacketShown(src)
  {
    var a, b := Blocks(src, true), Blocks(src, false);
    forall i: nat
      ensures Count(a, i) <= Count(b, i) && (Count(a, i) == Count(b, i) <==> BlockShown(src, i))
    {
      BlockCounts(src, i);
    }
    GatherCounts(a, b, |src.blocks|);
  }

  /** The conversion leaves out no point that get_points_count counts. */
  ghost predicate AllShown(src: Source, table: bool) {
    table ==> PacketShown(src)
  }

  /** A conversion adds no more points than get_points_count counts, and as many if and only if it has no angle table or
      no point with a radius is out of view. */
  lemma ConvertedAreCounted(src: Source, table: bool)
    ensures |WholePacket(src, table)| <= PointsCount(src)
    ensures |WholePacket(src, table)| == PointsCount(src) <==> AllShown(src, table)
  {
    if table { PacketCounts(src); }
  }

  /** In the layouts that are not compact nothing is out of view. */
  lemma OnlyCompactHides(src: Source, table: bool)
    requires !src.layout.CoSphere?
    ensures AllShown(src, table)
  {
  }

  // ----- a run of conversions into one packet -----

  /** The size field counts the header and the points. */
  predicate Sized(d: Dest) {
    d.size == 70 + |d.points| * d.itemSize
  }

  /** Sources converted one after the other into a buffer of destSize bytes, the first one overwriting what is there,
      each with its angle table or without; None when one of them failed. */
  ghost function Appended(d: Dest, srcs: seq<Source>, tables: seq<bool>, destSize: nat): Option<Dest>
    requires |tables| == |srcs| && forall i :: 0 <= i < |srcs| ==> ValidSource(srcs[i])
  {
    if srcs == [] then Some(d)
    else
      var n := |srcs| - 1;
      match Appended(d, srcs[..n], tables[..n], destSize)
      case None => None
      case Some(c) =>
        if Fits(c, srcs[n], tables[n], destSize, n > 0) then Some(Converted(c, srcs[n], tables[n], n > 0)) else None
  }

  ghost function TotalCount(srcs: seq<Source>): nat
    requires forall i :: 0 <= i < |srcs| ==> ValidSource(srcs[i])
  {
    if srcs == [] then 0 else TotalCount(srcs[..|srcs| - 1]) + PointsCount(srcs[|srcs| - 1])
  }

  ghost predicate EachShown(srcs: seq<Source>, tables: seq<bool>)
    requires |tables| == |srcs| && forall i :: 0 <= i < |srcs| ==> ValidSource(srcs[i])
  {
    forall i :: 0 <= i < |srcs| ==> AllShown(srcs[i], tables[i])
  }

  /** One conversion into an empty packet, or behind points of the same kind, leaves the size field exact. */
  lemma ConvertedSized(d: Dest, src: Source, table: bool, append: bool)
    requires ValidSource(src) && (append ==> Sized(d) && d.itemSize == src.layout.ItemSize())
    ensures var r := Converted(d, src, table, append);
      && Sized(r) && r.itemSize == src.layout.ItemSize()
      && |r.points| == (if append then |d.points| else 0) + |WholePacket(src, table)|
  {
    if src.layout.Sphere? { assert src.layout.ItemSize() == 26; } else { assert src.layout.ItemSize() == 40; }
  }

  /** After any run of conversions of one layout in which none failed, whichever of them had an angle table, the size
      field is exact and within the buffer; the points are no more than get_points_count counts in the sources, and as
      many if and only if no conversion with a table met a point with a radius out of view. */
  lemma {:induction false} RunSized(d: Dest, srcs: seq<Source>, layout: Layout, tables: seq<bool>, destSize: nat)
    requires |tables| == |srcs| && forall i :: 0 <= i < |srcs| ==> ValidSource(srcs[i]) && srcs[i].layout == layout
    requires srcs != [] && Appended(d, srcs, tables, destSize).Some?
    ensures var r := Appended(d, srcs, tables, destSize).value;
      && Sized(r) && r.size <= destSize && r.itemSize == (if layout.Sphere? then 26 else 40)
      && |r.points| <= TotalCount(srcs) && (|r.points| == TotalCount(srcs) <==> EachShown(srcs, tables))
  {
    var n := |srcs| - 1;
    var before, src := srcs[..n], srcs[n];
    if n > 0 {
      RunSized(d, before, layout, tables[..n], destSize);
    }
    var c := Appended(d, before, tables[..n], destSize).value;
    var r := Converted(c, src, tables[n], n > 0);
    assert Appended(d, srcs, tables, destSize) == Some(r) && Fits(c, src, tables[n], destSize, n > 0);
    ConvertedSized(c, src, tables[n], n > 0);
    ConvertedAreCounted(src, tables[n]);
    assert TotalCount(srcs) == TotalCount(before) + PointsCount(src);
    EachShownPrefix(srcs, tables);
  }

  lemma EachShownPrefix(srcs: seq<Source>, tables: seq<bool>)
    requires |tables| == |srcs| > 0 && forall i :: 0 <= i < |srcs| ==> ValidSource(srcs[i])
    ensures var n := |srcs| - 1;
      EachShown(srcs, tables) <==> EachShown(srcs[..n], tables[..n]) && AllShown(srcs[n], tables[n])
  {
    var n := |srcs| - 1;
    assert forall i :: 0 <= i < n ==> srcs[..n][i] == srcs[i] && tables[..n][i] == tables[i];
  }
}
