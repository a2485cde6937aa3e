/** Which points a packet gives, from its blocks alone: the members, their order and their number. */
module ConversionPoints {
  import opened Conversion
  import opened Options

  lemma {:induction false} InGather(loop: Loop, n: nat, p: Point)
    ensures p in Gather(loop, n) <==> exists k: nat :: k < n && p in Round(loop, k)
  {
    if n > 0 {
      InGather(loop, n - 1, p);
      assert Gather(loop, n) == Gather(loop, n - 1) + Round(loop, n - 1);
      if exists k: nat :: k < n && p in Round(loop, k) {
        var k: nat :| k < n && p in Round(loop, k);
        assert k < n - 1 || k == n - 1;
      }
    }
  }

  // ----- which points -----

  /** A place with a radius, in a channel that is in view if the compact layout is converted with an angle table; the
      second return of a channel stands 4 or 8 places behind the first. */
  ghost predicate IsPoint(src: Source, table: bool, p: Point)
    requires ValidSource(src)
  {
    var channels := if src.layout.CoSphere? then 8 else 4;
    && p.block < |src.blocks| && p.channel < channels
    && (p.multiReturn == 0 || (p.multiReturn == 1 && src.mode >= 2))
    && p.radius > 0 && p.radius == src.blocks[p.block].radius[p.channel + channels * p.multiReturn]
    && (src.layout.CoSphere? && table ==> src.blocks[p.block].inFov[p.channel])
  }

  lemma PointHere(src: Source, table: bool, p: Point, i: nat, ch: nat, m: nat)
    requires ValidSource(src) && i < |src.blocks| && ch < src.layout.Channels() && m < ReturnTimes(src.mode)
    ensures p in PointAt(src, table, i, ch, m) <==> p.block == i && p.channel == ch && p.multiReturn == m && IsPoint(src, table, p)
  {
    assert |src.blocks[i].radius| == PointsPerBlock(src) && |src.blocks[i].inFov| == src.layout.Channels();
  }

  /** The point is of the loop's channel or block. */
  ghost predicate Inside(loop: Loop, p: Point) {
    match loop
    case Returns(_, _, i, ch) => p.block == i && p.channel == ch
    case Channels(_, _, i) => p.block == i
    case Blocks(_, _) => true
  }

  /** What the loop counts. */
  ghost function Key(loop: Loop, p: Point): nat {
    match loop
    case Returns(_, _, _, _) => p.multiReturn
    case Channels(_, _, _) => p.channel
    case Blocks(_, _) => p.block
  }

  ghost function Rounds(loop: Loop): nat {
    match loop
    case Returns(src, _, _, _) => ReturnTimes(src.mode)
    case Channels(src, _, _) => src.layout.Channels()
    case Blocks(src, _) => |src.blocks|
  }

  ghost predicate Sound(loop: Loop) {
    ValidSource(loop.src) &&
    match loop
    case Returns(src, _, i, ch) => i < |src.blocks| && ch < src.layout.Channels()
    case Channels(src, _, i) => i < |src.blocks|
    case Blocks(_, _) => true
  }

  lemma {:induction false} RoundExact(loop: Loop, k: nat, p: Point)
    requires Sound(loop) && k < Rounds(loop)
    ensures p in Round(loop, k) <==> IsPoint(loop.src, loop.table, p) && Inside(loop, p) && Key(loop, p) == k
    decreases loop.Depth(), 0
  {
    match loop
    case Returns(src, table, i, ch) => PointHere(src, table, p, i, ch, k);
    case Channels(src, table, i) => GatherExact(Returns(src, table, i, k), p);
    case Blocks(src, table) => GatherExact(Channels(src, table, k), p);
  }

  /** The points a whole loop gathers. */
  lemma {:induction false} GatherExact(loop: Loop, p: Point)
    requires Sound(loop)
    ensures p in Gather(loop, Rounds(loop)) <==> IsPoint(loop.src, loop.table, p) && Inside(loop, p)
    decreases loop.Depth(), 1
  {
    var n := Rounds(loop);
    InGather(loop, n, p);
    forall k: nat | k < n
      ensures p in Round(loop, k) <==> IsPoint(loop.src, loop.table, p) && Inside(loop, p) && Key(loop, p) == k
    {
      RoundExact(loop, k, p);
    }
    if IsPoint(loop.src, loop.table, p) && Inside(loop, p) { assert Key(loop, p) < n && p in Round(loop, Key(loop, p)); }
  }

  // ----- in which order -----

  /** By block, then channel, then return. */
  ghost predicate Before(p: Point, q: Point) {
    || p.block < q.block
    || (p.block == q.block && p.channel < q.channel)
    || (p.block == q.block && p.channel == q.channel && p.multiReturn < q.multiReturn)
  }

  ghost predicate Ordered(ps: seq<Point>) {
    forall a, b :: 0 <= a < b < |ps| ==> Before(ps[a], ps[b])
  }

  lemma {:induction false} RoundOrdered(loop: Loop, k: nat)
    requires Sound(loop) && k < Rounds(loop)
    ensures Ordered(Round(loop, k))
    decreases loop.Depth(), 0, 0
  {
    match loop
    case Returns(src, table, i, ch) =>
    case Channels(src, table, i) => GatherOrdered(Returns(src, table, i, k), ReturnTimes(src.mode));
    case Blocks(src, table) => GatherOrdered(Channels(src, table, k), src.layout.Channels());
  }

  lemma {:induction false} GatherOrdered(loop: Loop, n: nat)
    requires Sound(loop) && n <= Rounds(loop)
    ensures Ordered(Gather(loop, n))
    decreases loop.Depth(), 1, n
  {
    if n > 0 {
      var before, last := Gather(loop, n - 1), Round(loop, n - 1);
      GatherOrdered(loop, n - 1);
      RoundOrdered(loop, n - 1);
      forall a, b | 0 <= a < |before| && 0 <= b < |last|
        ensures Before(before[a], last[b])
      {
        assert before[a] in before && last[b] in last;
        InGather(loop, n - 1, before[a]);
        var k: nat :| k < n - 1 && before[a] in Round(loop, k);
        RoundExact(loop, k, before[a]);
        RoundExact(loop, n - 1, last[b]);
      }
    }
  }

  /** A conversion's points are exactly the places with a radius that are in view, each once, in ascending order of block,
      channel and return. */
  lemma PacketPoints(src: Source, table: bool)
    requires ValidSource(src)
    ensures forall p :: p in WholePacket(src, table) <==> IsPoint(src, table, p)
    ensures Ordered(WholePacket(src, table))
  {
    forall p
      ensures p in WholePacket(src, table) <==> IsPoint(src, table, p)
    {
      GatherExact(Blocks(src, table), p);
    }
    GatherOrdered(Blocks(src, table), |src.blocks|);
  }

  // ----- how many -----

  /** The number of places with a radius among so many. */
  ghost function NonZero(radius: seq<nat>): nat {
    if radius == [] then 0 else NonZero(radius[..|radius| - 1]) + if radius[|radius| - 1] > 0 then 1 else 0
  }

  ghost function NonZeros(blocks: seq<Block>): nat {
    if blocks == [] then 0 else NonZeros(blocks[..|blocks| - 1]) + NonZero(blocks[|blocks| - 1].radius)
  }

  lemma {:induction false} NonZeroSplit(radius: seq<nat>, n: nat)
    requires n <= |radius|
    ensures NonZero(radius) == NonZero(radius[..n]) + NonZero(radius[n..])
    decreases |radius|
  {
    if n == |radius| {
      assert radius[..n] == radius && radius[n..] == [];
    } else {
      var m := |radius| - 1;
      NonZeroSplit(radius[..m], n);
      assert radius[..m][..n] == radius[..n] && radius[n..][..m - n] == radius[..m][n..];
    }
  }

  /** With every channel shown, n channels give the places with a radius among their first and their second returns. */
  lemma {:induction false} ChannelsCount(src: Source, i: nat, n: nat)
    requires ValidSource(src) && i < |src.blocks| && n <= src.layout.Channels()
    ensures var radius, c := src.blocks[i].radius, src.layout.Channels();
      |radius| == PointsPerBlock(src) &&
      |Gather(Channels(src, false, i), n)| ==
        NonZero(radius[..n]) + if ReturnTimes(src.mode) == 2 then NonZero(radius[c..c + n]) else 0
  {
    if n > 0 {
      var radius, c := src.blocks[i].radius, src.layout.Channels();
      ChannelsCount(src, i, n - 1);
      OneMoreRound(Channels(src, false, i), n);
      ReturnsCount(src, i, n - 1);
      assert radius[..n][..n - 1] == radius[..n - 1];
      if ReturnTimes(src.mode) == 2 { assert radius[c..c + n][..n - 1] == radius[c..c + n - 1]; }
    }
  }

  lemma ReturnsCount(src: Source, i: nat, ch: nat)
    requires ValidSource(src) && i < |src.blocks| && ch < src.layout.Channels()
    ensures var radius, c := src.blocks[i].radius, src.layout.Channels();
      |radius| == PointsPerBlock(src) &&
      Count(Channels(src, false, i), ch) ==
        (if radius[ch] > 0 then 1 else 0) + if ReturnTimes(src.mode) == 2 && radius[c + ch] > 0 then 1 else 0
  {
    var loop := Returns(src, false, i, ch);
    assert Gather(loop, 0) == [];
    assert Gather(loop, 1) == Gather(loop, 0) + Round(loop, 0);
    if ReturnTimes(src.mode) == 2 { assert Gather(loop, 2) == Gather(loop, 1) + Round(loop, 1); }
  }

  lemma {:induction false} BlocksCount(src: Source, n: nat)
    requires ValidSource(src) && n <= |src.blocks|
    ensures |Gather(Blocks(src, false), n)| == NonZeros(src.blocks[..n])
  {
    if n > 0 {
      var radius, c := src.blocks[n - 1].radius, src.layout.Channels();
      BlocksCount(src, n - 1);
      OneMoreRound(Blocks(src, false), n);
      ChannelsCount(src, n - 1, c);
      NonZeroSplit(radius, c);
      assert radius[c..] == if ReturnTimes(src.mode) == 2 then radius[c..c + c] else [];
      assert src.blocks[..n][..n - 1] == src.blocks[..n - 1];
    }
  }

  /** The points counted are the places with a radius. */
  lemma CountedAreNonZero(src: Source)
    requires ValidSource(src)
    ensures PointsCount(src) == NonZeros(src.blocks)
  {
    BlocksCount(src, |src.blocks|);
    assert src.blocks[..|src.blocks|] == src.blocks;
  }

  // ----- runs -----

  ghost function AllPoints(srcs: seq<Source>, tables: seq<bool>): seq<Point>
    requires |tables| == |srcs|
  {
    if srcs == [] then []
    else
      var n := |srcs| - 1;
      AllPoints(srcs[..n], tables[..n]) + WholePacket(srcs[n], tables[n])
  }

  /** After any run of conversions in which none failed the packet holds the points of all the sources, in order. */
  lemma {:induction false} RunPoints(d: Dest, srcs: seq<Source>, tables: seq<bool>, destSize: nat)
    requires |tables| == |srcs| && forall i :: 0 <= i < |srcs| ==> ValidSource(srcs[i])
    requires srcs != [] && Appended(d, srcs, tables, destSize).Some?
    ensures Appended(d, srcs, tables, destSize).value.points == AllPoints(srcs, tables)
  {
    var n := |srcs| - 1;
    if n > 0 {
      RunPoints(d, srcs[..n], tables[..n], destSize);
    } else {
      assert AllPoints(srcs[..0], tables[..0]) == [];
    }
  }
}
