/** The driver's two ways of publishing: whole frames directly, or scans of packets that are replayed into frames. */
module Replay {
  import opened Options

  /** Angle tables and points are handles. */
  type Table = int

  type Points = seq<int>

  /** A data packet: frame index (below 2^63), start time, whether it needs an angle table, and a handle for its data. */
  datatype Packet = Packet(idx: nat, tsStart: real, compact: bool, data: int)

  /** A packet from the lidar, and what the lidar would answer if it were asked for its angle table now. */
  datatype Arrival = Arrival(pkt: Packet, answer: Option<Table>)

  /** How a packet turns into points, with an angle table or without, and how a cloud is transformed, are given. */
  datatype Conversion = Conversion(parse: (Packet, Option<Table>) -> Points, transform: Points -> Points)

  datatype Frame = Frame(points: Points, timestamp: real)

  /** A published packet; some carry the driver's angle table. */
  datatype Message = Message(pkt: Packet, table: Option<Table>)

  datatype Scan = Scan(packets: seq<Message>, timestamp: real, size: nat, isLastScan: bool)

  const EMPTY_SCAN := Scan([], 0.0, 0, false)

  const TABLE_SEND_HZ: nat := 20
  const TWO32: nat := 0x1_0000_0000

  // ----- states and steps -----

  /** The driver's frame tracking. */
  datatype Tracker = Tracker(currentFrameId: int, frameStartTs: real)

  predicate First(t: Tracker) {
    t.currentFrameId == -1
  }

  predicate NextFrame(t: Tracker, pkt: Packet) {
    t.currentFrameId != pkt.idx
  }

  function Track(t: Tracker, pkt: Packet): Tracker {
    if First(t) || NextFrame(t, pkt) then Tracker(pkt.idx, pkt.tsStart) else t
  }

  /** The driver's table after a packet: asked for when a compact packet comes and there is none, the first one aside. */
  function TableStep(t: Tracker, table: Option<Table>, a: Arrival): Option<Table> {
    if !First(t) && a.pkt.compact && table == None then a.answer else table
  }

  /** A driver's cloud being filled, the frames published so far, and its table. */
  datatype Clouds = Clouds(cloud: Points, frames: seq<Frame>, table: Option<Table>)

  function PublishFrame(cv: Conversion, c: Clouds, timestamp: real): Clouds {
    Clouds([], c.frames + [Frame(cv.transform(c.cloud), timestamp)], c.table)
  }

  function AddPoints(cv: Conversion, c: Clouds, pkt: Packet): Clouds {
    c.(cloud := c.cloud + cv.parse(pkt, c.table))
  }

  /** Frame mode: one packet. */
  function DirectStep(cv: Conversion, t: Tracker, c: Clouds, a: Arrival): Clouds {
    var d := c.(table := TableStep(t, c.table, a));
    if First(t) then d
    else AddPoints(cv, if NextFrame(t, a.pkt) then PublishFrame(cv, d, t.frameStartTs) else d, a.pkt)
  }

  /** The scan being filled, the number of packets in it, the frame count, and the scans published so far. */
  datatype Scans = Scans(pending: Scan, packetsWidth: nat, frameCount: nat, published: seq<Scan>)

  /** The scan closed before a packet is added, at the end of a frame or when it is full. */
  function Closed(aggregateNum: nat, s: Scans, timestamp: real, nextIdx: bool): Scans {
    if nextIdx then
      Scans(EMPTY_SCAN, 0, (s.frameCount + 1) % TWO32,
            s.published + [s.pending.(timestamp := timestamp, size := s.packetsWidth, isLastScan := true)])
    else if s.packetsWidth >= aggregateNum then
      Scans(EMPTY_SCAN, 0, s.frameCount, s.published + [s.pending.(isLastScan := false, size := s.packetsWidth)])
    else s
  }

  predicate SendsTable(s: Scans, table: Option<Table>) {
    s.frameCount == TABLE_SEND_HZ && table != None
  }

  function Added(s: Scans, pkt: Packet, table: Option<Table>): Scans {
    var sent := SendsTable(s, table);
    Scans(s.pending.(packets := s.pending.packets + [Message(pkt, if sent then table else None)]), s.packetsWidth + 1,
          if sent then 0 else s.frameCount, s.published)
  }

  function PublishPacket(aggregateNum: nat, s: Scans, pkt: Packet, timestamp: real, nextIdx: bool, table: Option<Table>): Scans {
    Added(Closed(aggregateNum, s, timestamp, nextIdx), pkt, table)
  }

  /** Packet mode: one packet; table is the driver's, as it is once the packet has been looked at. */
  function PacketStep(aggregateNum: nat, t: Tracker, s: Scans, pkt: Packet, table: Option<Table>): Scans {
    if First(t) then s else PublishPacket(aggregateNum, s, pkt, t.frameStartTs, NextFrame(t, pkt), table)
  }

  /** A replaying driver without a table takes the one that comes with a packet. */
  function TakeTable(replayRosbag: bool, table: Option<Table>, msg: Message): Option<Table> {
    if replayRosbag && msg.table != None && table == None then msg.table else table
  }

  function AddMessage(cv: Conversion, replayRosbag: bool, c: Clouds, msg: Message): Clouds {
    AddPoints(cv, c.(table := TakeTable(replayRosbag, c.table, msg)), msg.pkt)
  }

  function AddMessages(cv: Conversion, replayRosbag: bool, c: Clouds, msgs: seq<Message>): Clouds {
    if msgs == [] then c
    else AddMessage(cv, replayRosbag, AddMessages(cv, replayRosbag, c, msgs[..|msgs| - 1]), msgs[|msgs| - 1])
  }

  /** Replay of one scan. */
  function SubscribePacket(cv: Conversion, replayRosbag: bool, c: Clouds, scan: Scan): Clouds {
    var d := AddMessages(cv, replayRosbag, c, scan.packets);
    if scan.isLastScan then PublishFrame(cv, d, scan.timestamp) else d
  }

  // ----- the classes that take these steps -----

  class DriverLidar {
    const cv: Conversion
    var currentFrameId: int
    var frameStartTs: real
    var cloud: Points
    var frames: seq<Frame>
    var anglehvTable: Option<Table>

    ghost function Tracking(): Tracker
      reads this
    {
      Tracker(currentFrameId, frameStartTs)
    }

    ghost function Filled(): Clouds
      reads this
    {
      Clouds(cloud, frames, anglehvTable)
    }

    /** table is the one read from a file at the start, if any. */
    constructor (cv: Conversion, table: Option<Table>)
      ensures this.cv == cv && Tracking() == Tracker(-1, 0.0) && Filled() == Clouds([], [], table)
    {
      this.cv := cv;
      currentFrameId, frameStartTs, cloud, frames, anglehvTable := -1, 0.0, [], [], table;
    }

    method ConvertAndParse(pkt: Packet)
      modifies this`cloud
      ensures Filled() == AddPoints(cv, old(Filled()), pkt)
    {
      cloud := cloud + cv.parse(pkt, anglehvTable);
    }

    method PublishCloud(timestamp: real)
      modifies this`cloud, this`frames
      ensures Filled() == PublishFrame(cv, old(Filled()), timestamp)
    {
      cloud := cv.transform(cloud);
      frames := frames + [Frame(cloud, timestamp)];
      cloud := [];
    }

    /** lidar_data_callback; in packet mode the packet goes to the adapter. answer is the lidar's, if it is asked. */
    method LidarDataCallback(pkt: Packet, answer: Option<Table>, packetMode: bool, adapter: ROSAdapter)
      modifies this, adapter
      ensures Tracking() == Track(old(Tracking()), pkt)
      ensures var t, c, a := old(Tracking()), old(Filled()), Arrival(pkt, answer);
        && Filled() == (if packetMode then c.(table := TableStep(t, c.table, a)) else DirectStep(cv, t, c, a))
        && adapter.View() ==
           if packetMode then PacketStep(adapter.aggregateNum, t, old(adapter.View()), pkt, TableStep(t, c.table, a))
           else old(adapter.View())
    {
      if currentFrameId == -1 {
        frameStartTs := pkt.tsStart;
        currentFrameId := pkt.idx;
        return;
      }
      if pkt.compact && anglehvTable == None {
        anglehvTable := answer;
      }
      var isNextFrame := false;
      if currentFrameId != pkt.idx {
        isNextFrame := true;
        currentFrameId := pkt.idx;
      }
      if packetMode {
        adapter.Publish(pkt, frameStartTs, isNextFrame, anglehvTable);
        if isNextFrame {
          frameStartTs := pkt.tsStart;
        }
      } else {
        if isNextFrame {
          PublishCloud(frameStartTs);
          frameStartTs := pkt.tsStart;
        }
        ConvertAndParse(pkt);
      }
    }
  }

  class ROSAdapter {
    const aggregateNum: nat
    const replayRosbag: bool
    var scanMsg: Scan
    var packetsWidth: nat
    var frameCount: nat
    var published: seq<Scan>

    ghost function View(): Scans
      reads this
    {
      Scans(scanMsg, packetsWidth, frameCount, published)
    }

    constructor (aggregateNum: nat, replayRosbag: bool)
      ensures this.aggregateNum == aggregateNum && this.replayRosbag == replayRosbag
      ensures View() == Scans(EMPTY_SCAN, 0, 0, [])
    {
      this.aggregateNum, this.replayRosbag := aggregateNum, replayRosbag;
      scanMsg, packetsWidth, frameCount, published := EMPTY_SCAN, 0, 0, [];
    }

    /** table is the one the adapter's driver has. */
    method Publish(pkt: Packet, timestamp: real, nextIdx: bool, table: Option<Table>)
      modifies this
      ensures View() == PublishPacket(aggregateNum, old(View()), pkt, timestamp, nextIdx, table)
    {
      if nextIdx {
        frameCount := (frameCount + 1) % TWO32;
        scanMsg := scanMsg.(timestamp := timestamp);
        scanMsg := scanMsg.(size := packetsWidth);
        packetsWidth := 0;
        scanMsg := scanMsg.(isLastScan := true);
        published := published + [scanMsg];
        scanMsg := EMPTY_SCAN;
      } else if packetsWidth >= aggregateNum {
        scanMsg := scanMsg.(isLastScan := false);
        scanMsg := scanMsg.(size := packetsWidth);
        packetsWidth := 0;
        published := published + [scanMsg];
        scanMsg := EMPTY_SCAN;
      }
      var msg := Message(pkt, None);
      if frameCount == TABLE_SEND_HZ && table != None {
        frameCount := 0;
        msg := msg.(table := table);
      }
      packetsWidth := packetsWidth + 1;
      scanMsg := scanMsg.(packets := scanMsg.packets + [msg]);
    }

    method SubscribeOne(msg: Message, driver: DriverLidar)
      modifies driver`cloud, driver`anglehvTable
      ensures driver.Filled() == AddMessage(driver.cv, replayRosbag, old(driver.Filled()), msg)
    {
      if replayRosbag && msg.table != None && driver.anglehvTable == None {
        driver.anglehvTable := msg.table;
      }
      driver.ConvertAndParse(msg.pkt);
    }

    method Subscribe(scan: Scan, driver: DriverLidar)
      modifies driver`cloud, driver`frames, driver`anglehvTable
      ensures driver.Filled() == SubscribePacket(driver.cv, replayRosbag, old(driver.Filled()), scan)
    {
      for i := 0 to |scan.packets|
        invariant driver.Filled() == AddMessages(driver.cv, replayRosbag, old(driver.Filled()), scan.packets[..i])
      {
        assert scan.packets[..i + 1][..i] == scan.packets[..i];
        SubscribeOne(scan.packets[i], driver);
      }
      assert scan.packets[..|scan.packets|] == scan.packets;
      if scan.isLastScan {
        driver.PublishCloud(scan.timestamp);
      }
    }
  }

  // ----- whole runs -----

  ghost function Tracked(run: seq<Arrival>): Tracker {
    if run == [] then Tracker(-1, 0.0) else Track(Tracked(run[..|run| - 1]), run[|run| - 1].pkt)
  }

  /** The driver's table, which was `table` at the start. */
  ghost function TableAfter(table: Option<Table>, run: seq<Arrival>): Option<Table> {
    if run == [] then table
    else
      var before := run[..|run| - 1];
      TableStep(Tracked(before), TableAfter(table, before), run[|run| - 1])
  }

  /** What frame mode publishes. */
  ghost function Direct(cv: Conversion, table: Option<Table>, run: seq<Arrival>): Clouds {
    if run == [] then Clouds([], [], table)
    else
      var before := run[..|run| - 1];
      DirectStep(cv, Tracked(before), Direct(cv, table, before), run[|run| - 1])
  }

  /** What packet mode publishes. */
  ghost function Packeted(aggregateNum: nat, table: Option<Table>, run: seq<Arrival>): Scans {
    if run == [] then Scans(EMPTY_SCAN, 0, 0, [])
    else
      var before := run[..|run| - 1];
      PacketStep(aggregateNum, Tracked(before), Packeted(aggregateNum, table, before), run[|run| - 1].pkt, TableAfter(table, run))
  }

  /** What a driver that starts with `own` publishes when it replays the scans. */
  ghost function Replayed(cv: Conversion, replayRosbag: bool, own: Option<Table>, scans: seq<Scan>): Clouds {
    if scans == [] then Clouds([], [], own)
    else SubscribePacket(cv, replayRosbag, Replayed(cv, replayRosbag, own, scans[..|scans| - 1]), scans[|scans| - 1])
  }

  lemma ReplayOneMore(cv: Conversion, replayRosbag: bool, own: Option<Table>, scans: seq<Scan>, scan: Scan)
    ensures Replayed(cv, replayRosbag, own, scans + [scan]) ==
            SubscribePacket(cv, replayRosbag, Replayed(cv, replayRosbag, own, scans), scan)
  {
    assert (scans + [scan])[..|scans|] == scans;
  }

  lemma AddOneMore(cv: Conversion, replayRosbag: bool, c: Clouds, msgs: seq<Message>, msg: Message)
    ensures AddMessages(cv, replayRosbag, c, msgs + [msg]) ==
            AddMessage(cv, replayRosbag, AddMessages(cv, replayRosbag, c, msgs), msg)
  {
    assert (msgs + [msg])[..|msgs|] == msgs;
  }

  /** What the replaying driver has when it has also read the scan not yet published. */
  ghost function CaughtUp(cv: Conversion, replayRosbag: bool, own: Option<Table>, s: Scans): Clouds {
    AddMessages(cv, replayRosbag, Replayed(cv, replayRosbag, own, s.published), s.pending.packets)
  }

  /** Closing a scan is what makes the replaying driver publish a frame. */
  lemma ClosedCatchesUp(cv: Conversion, replayRosbag: bool, own: Option<Table>, aggregateNum: nat, s: Scans,
                        timestamp: real, nextIdx: bool)
    ensures var c := CaughtUp(cv, replayRosbag, own, s);
      CaughtUp(cv, replayRosbag, own, Closed(aggregateNum, s, timestamp, nextIdx)) ==
      if nextIdx then PublishFrame(cv, c, timestamp) else c
  {
    ReplayOneMore(cv, replayRosbag, own, s.published,
                  s.pending.(timestamp := timestamp, size := s.packetsWidth, isLastScan := true));
    ReplayOneMore(cv, replayRosbag, own, s.published, s.pending.(isLastScan := false, size := s.packetsWidth));
  }

  lemma {:induction false} AddKeepsFrames(cv: Conversion, replayRosbag: bool, c: Clouds, msgs: seq<Message>)
    ensures AddMessages(cv, replayRosbag, c, msgs).frames == c.frames
  {
    if msgs != [] { AddKeepsFrames(cv, replayRosbag, c, msgs[..|msgs| - 1]); }
  }

  // ----- the tables the two drivers use -----

  /** The frame count when the last packet of the run is given a table or not, and after it. */
  ghost function CountAt(table: Option<Table>, run: seq<Arrival>): nat
    requires run != []
    decreases |run|, 0
  {
    var before := run[..|run| - 1];
    if !First(Tracked(before)) && NextFrame(Tracked(before), run[|run| - 1].pkt) then (FrameCount(table, before) + 1) % TWO32
    else FrameCount(table, before)
  }

  ghost function FrameCount(table: Option<Table>, run: seq<Arrival>): nat
    decreases |run|, 2
  {
    if run == [] then 0 else if SentTable(table, run) != None then 0 else CountAt(table, run)
  }

  /** The table sent along with the last packet of the run, if any. */
  ghost function SentTable(table: Option<Table>, run: seq<Arrival>): Option<Table>
    requires run != []
    decreases |run|, 1
  {
    if |run| > 1 && CountAt(table, run) == TABLE_SEND_HZ then TableAfter(table, run) else None
  }

  /** The replaying driver's table once the run's packets have reached it; it starts with `own`. */
  ghost function ReplayTable(replayRosbag: bool, own: Option<Table>, table: Option<Table>, run: seq<Arrival>): Option<Table> {
    if run == [] then own
    else
      var n := |run| - 1;
      TakeTable(replayRosbag, ReplayTable(replayRosbag, own, table, run[..n]), Message(run[n].pkt, SentTable(table, run)))
  }

  lemma NotFirst(run: seq<Arrival>)
    ensures First(Tracked(run)) <==> run == []
  {
  }

  /** The packet that makes the last change of frame; the packets before it, the first one aside, are in the frames. */
  ghost function LastChange(run: seq<Arrival>): (k: nat)
    ensures k <= |run| && (run != [] ==> k < |run|)
  {
    if |run| <= 1 then 0
    else if NextFrame(Tracked(run[..|run| - 1]), run[|run| - 1].pkt) then |run| - 1
    else LastChange(run[..|run| - 1])
  }

  // ----- both modes as one: a driver that converts packet i with the i-th of given tables -----

  ghost function Fill(cv: Conversion, start: Option<Table>, run: seq<Arrival>, tables: seq<Option<Table>>): Clouds
    requires |tables| == |run|
  {
    if run == [] then Clouds([], [], start)
    else
      var n := |run| - 1;
      var t, c := Tracked(run[..n]), Fill(cv, start, run[..n], tables[..n]).(table := tables[n]);
      if First(t) then c
      else AddPoints(cv, if NextFrame(t, run[n].pkt) then PublishFrame(cv, c, t.frameStartTs) else c, run[n].pkt)
  }

  /** The table that frame mode converts packet i with. */
  ghost function DirectAt(table: Option<Table>, run: seq<Arrival>, i: nat): Option<Table>
    requires i < |run|
  {
    TableAfter(table, run[..i + 1])
  }

  /** The table that the replay converts packet i with. */
  ghost function ReplayAt(replayRosbag: bool, own: Option<Table>, table: Option<Table>, run: seq<Arrival>, i: nat): Option<Table>
    requires i < |run|
  {
    ReplayTable(replayRosbag, own, table, run[..i + 1])
  }

  ghost function DirectTables(table: Option<Table>, run: seq<Arrival>): seq<Option<Table>> {
    seq(|run|, i requires 0 <= i < |run| => DirectAt(table, run, i))
  }

  ghost function ReplayTables(replayRosbag: bool, own: Option<Table>, table: Option<Table>, run: seq<Arrival>): seq<Option<Table>> {
    seq(|run|, i requires 0 <= i < |run| => ReplayAt(replayRosbag, own, table, run, i))
  }

  lemma TablesPrefix(replayRosbag: bool, own: Option<Table>, table: Option<Table>, run: seq<Arrival>)
    requires run != []
    ensures var n := |run| - 1;
      && DirectTables(table, run)[..n] == DirectTables(table, run[..n])
      && DirectTables(table, run)[n] == TableAfter(table, run)
      && ReplayTables(replayRosbag, own, table, run)[..n] == ReplayTables(replayRosbag, own, table, run[..n])
      && ReplayTables(replayRosbag, own, table, run)[n] == ReplayTable(replayRosbag, own, table, run)
  {
    var n := |run| - 1;
    assert run[..n + 1] == run;
    forall i | 0 <= i < n
      ensures DirectAt(table, run[..n], i) == DirectAt(table, run, i)
      ensures ReplayAt(replayRosbag, own, table, run[..n], i) == ReplayAt(replayRosbag, own, table, run, i)
    {
      assert run[..n][..i + 1] == run[..i + 1];
    }
  }

  lemma {:induction false} DirectIsFill(cv: Conversion, table: Option<Table>, run: seq<Arrival>)
    ensures Direct(cv, table, run) == Fill(cv, table, run, DirectTables(table, run))
    ensures Direct(cv, table, run).table == TableAfter(table, run)
  {
    if run != [] {
      DirectIsFill(cv, table, run[..|run| - 1]);
      TablesPrefix(false, None, table, run);
    }
  }

  lemma {:induction false} PacketedCounts(aggregateNum: nat, table: Option<Table>, run: seq<Arrival>)
    ensures Packeted(aggregateNum, table, run).frameCount == FrameCount(table, run)
  {
    if run != [] {
      var before, pkt := run[..|run| - 1], run[|run| - 1].pkt;
      NotFirst(before);
      PacketedCounts(aggregateNum, table, before);
      var s, t := Packeted(aggregateNum, table, before), Tracked(before);
      if |run| > 1 {
        var closed := Closed(aggregateNum, s, t.frameStartTs, NextFrame(t, pkt));
        assert closed.frameCount == CountAt(table, run);
        assert SendsTable(closed, TableAfter(table, run)) <==> SentTable(table, run) != None;
      } else {
        assert before == [];
        assert CountAt(table, run) == 0;
      }
    }
  }

  lemma AddedCatchesUp(cv: Conversion, replayRosbag: bool, own: Option<Table>, s: Scans, pkt: Packet, table: Option<Table>)
    ensures CaughtUp(cv, replayRosbag, own, Added(s, pkt, table)) ==
            AddMessage(cv, replayRosbag, CaughtUp(cv, replayRosbag, own, s),
                       Message(pkt, if SendsTable(s, table) then table else None))
  {
    AddOneMore(cv, replayRosbag, Replayed(cv, replayRosbag, own, s.published), s.pending.packets,
               Message(pkt, if SendsTable(s, table) then table else None));
  }

  /** Packet mode's last step: a scan closed, if it is time, and a packet added, with the table or without. */
  lemma LastAdded(aggregateNum: nat, table: Option<Table>, run: seq<Arrival>) returns (closed: Scans)
    requires |run| > 1
    ensures var before, pkt := run[..|run| - 1], run[|run| - 1].pkt;
      && closed == Closed(aggregateNum, Packeted(aggregateNum, table, before), Tracked(before).frameStartTs,
                          NextFrame(Tracked(before), pkt))
      && Packeted(aggregateNum, table, run) == Added(closed, pkt, TableAfter(table, run))
      && SentTable(table, run) == if SendsTable(closed, TableAfter(table, run)) then TableAfter(table, run) else None
  {
    var before, pkt := run[..|run| - 1], run[|run| - 1].pkt;
    NotFirst(before);
    PacketedCounts(aggregateNum, table, before);
    closed := Closed(aggregateNum, Packeted(aggregateNum, table, before), Tracked(before).frameStartTs,
                     NextFrame(Tracked(before), pkt));
  }

  lemma CaughtUpStep(cv: Conversion, replayRosbag: bool, own: Option<Table>, aggregateNum: nat,
                     table: Option<Table>, run: seq<Arrival>)
    requires |run| > 1
    ensures var before, pkt := run[..|run| - 1], run[|run| - 1].pkt;
      var t, c := Tracked(before), CaughtUp(cv, replayRosbag, own, Packeted(aggregateNum, table, before));
      CaughtUp(cv, replayRosbag, own, Packeted(aggregateNum, table, run)) ==
      AddMessage(cv, replayRosbag, if NextFrame(t, pkt) then PublishFrame(cv, c, t.frameStartTs) else c,
                 Message(pkt, SentTable(table, run)))
  {
    var before, pkt := run[..|run| - 1], run[|run| - 1].pkt;
    var t, s := Tracked(before), Packeted(aggregateNum, table, before);
    var closed := LastAdded(aggregateNum, table, run);
    ClosedCatchesUp(cv, replayRosbag, own, aggregateNum, s, t.frameStartTs, NextFrame(t, pkt));
    AddedCatchesUp(cv, replayRosbag, own, closed, pkt, TableAfter(table, run));
  }

  lemma {:induction false} ReplayIsFill(cv: Conversion, replayRosbag: bool, own: Option<Table>, aggregateNum: nat,
                                        table: Option<Table>, run: seq<Arrival>)
    ensures CaughtUp(cv, replayRosbag, own, Packeted(aggregateNum, table, run)) ==
            Fill(cv, own, run, ReplayTables(replayRosbag, own, table, run))
  {
    if run != [] {
      var n := |run| - 1;
      ReplayIsFill(cv, replayRosbag, own, aggregateNum, table, run[..n]);
      TablesPrefix(replayRosbag, own, table, run);
      NotFirst(run[..n]);
      FillTable(cv, own, run[..n], ReplayTables(replayRosbag, own, table, run[..n]));
      if n > 0 {
        TablesPrefix(replayRosbag, own, table, run[..n]);
        CaughtUpStep(cv, replayRosbag, own, aggregateNum, table, run);
      }
    }
  }

  lemma FillTable(cv: Conversion, start: Option<Table>, run: seq<Arrival>, tables: seq<Option<Table>>)
    requires |tables| == |run|
    ensures Fill(cv, start, run, tables).table == if run == [] then start else tables[|run| - 1]
  {
  }

  /** What the replay publishes is what a driver with the replay's tables fills. */
  lemma ReplayFrames(cv: Conversion, replayRosbag: bool, own: Option<Table>, aggregateNum: nat, table: Option<Table>,
                     run: seq<Arrival>)
    ensures Replayed(cv, replayRosbag, own, Packeted(aggregateNum, table, run).published).frames ==
            Fill(cv, own, run, ReplayTables(replayRosbag, own, table, run)).frames
  {
    ReplayIsFill(cv, replayRosbag, own, aggregateNum, table, run);
    var s := Packeted(aggregateNum, table, run);
    AddKeepsFrames(cv, replayRosbag, Replayed(cv, replayRosbag, own, s.published), s.pending.packets);
  }

  // ----- when two drivers publish the same -----

  /** Packet i gives the same points with its table of either list, for every i from 1 to before n. */
  ghost predicate ParseAlike(cv: Conversion, run: seq<Arrival>, ts: seq<Option<Table>>, us: seq<Option<Table>>, n: nat)
    requires |ts| == |us| == |run| && n <= |run|
  {
    forall i :: 1 <= i < n ==> cv.parse(run[i].pkt, ts[i]) == cv.parse(run[i].pkt, us[i])
  }

  lemma {:induction false} FillAlike(cv: Conversion, a: Option<Table>, b: Option<Table>, run: seq<Arrival>,
                                     ts: seq<Option<Table>>, us: seq<Option<Table>>)
    requires |ts| == |us| == |run| && ParseAlike(cv, run, ts, us, |run|)
    ensures Fill(cv, a, run, ts).cloud == Fill(cv, b, run, us).cloud
    ensures Fill(cv, a, run, ts).frames == Fill(cv, b, run, us).frames
  {
    if run != [] {
      var n := |run| - 1;
      NotFirst(run[..n]);
      FillAlike(cv, a, b, run[..n], ts[..n], us[..n]);
    }
  }

  /** The frames are those there were when the last change of frame published the last one. */
  lemma {:induction false} FillFrames(cv: Conversion, start: Option<Table>, run: seq<Arrival>, ts: seq<Option<Table>>)
    requires |ts| == |run|
    ensures var l := LastChange(run);
      var c := Fill(cv, start, run[..l], ts[..l]);
      Fill(cv, start, run, ts).frames ==
        if l == 0 then [] else c.frames + [Frame(cv.transform(c.cloud), Tracked(run[..l]).frameStartTs)]
  {
    if run != [] {
      var n := |run| - 1;
      NotFirst(run[..n]);
      FillFrames(cv, start, run[..n], ts[..n]);
      var k := LastChange(run[..n]);
      assert run[..n][..k] == run[..k] && ts[..n][..k] == ts[..k];
    }
  }

  lemma SameFrames(cv: Conversion, a: Option<Table>, b: Option<Table>, run: seq<Arrival>, ts: seq<Option<Table>>,
                   us: seq<Option<Table>>)
    requires |ts| == |us| == |run| && ParseAlike(cv, run, ts, us, LastChange(run))
    ensures Fill(cv, a, run, ts).frames == Fill(cv, b, run, us).frames
  {
    var l := LastChange(run);
    FillFrames(cv, a, run, ts);
    FillFrames(cv, b, run, us);
    FillAlike(cv, a, b, run[..l], ts[..l], us[..l]);
  }

  // ----- a conversion that shows the table it was given -----

  ghost function Code(table: Option<Table>): Points {
    if table == None then [0, 0] else [1, table.value]
  }

  ghost function Coding(): Conversion {
    Conversion((pkt, table) => Code(table), points => points)
  }

  ghost function Codes(tables: seq<Option<Table>>): Points {
    if tables == [] then [] else Codes(tables[..|tables| - 1]) + Code(tables[|tables| - 1])
  }

  lemma SplitCodes(p: Points, q: Points, a: Option<Table>, b: Option<Table>)
    requires |p| == |q| && p + Code(a) == q + Code(b)
    ensures p == q && a == b
  {
    assert (p + Code(a))[..|p|] == p && (q + Code(b))[..|p|] == q;
    assert (p + Code(a))[|p|..] == Code(a) && (q + Code(b))[|p|..] == Code(b);
    CodeInjective(a, b);
  }

  lemma {:induction false} CodesInjective(ts: seq<Option<Table>>, us: seq<Option<Table>>)
    requires |ts| == |us| && Codes(ts) == Codes(us)
    ensures ts == us
  {
    if ts != [] {
      var n := |ts| - 1;
      CodesLength(ts[..n]);
      CodesLength(us[..n]);
      SplitCodes(Codes(ts[..n]), Codes(us[..n]), ts[n], us[n]);
      CodesInjective(ts[..n], us[..n]);
      assert ts == ts[..n] + [ts[n]] && us == us[..n] + [us[n]];
    }
  }

  lemma CodeInjective(a: Option<Table>, b: Option<Table>)
    requires Code(a) == Code(b)
    ensures a == b
  {
    assert Code(a)[0] == Code(b)[0] && Code(a)[1] == Code(b)[1];
  }

  lemma {:induction false} CodesLength(ts: seq<Option<Table>>)
    ensures |Codes(ts)| == 2 * |ts|
  {
    if ts != [] { CodesLength(ts[..|ts| - 1]); }
  }

  ghost function FramePoints(frames: seq<Frame>): Points {
    if frames == [] then [] else FramePoints(frames[..|frames| - 1]) + frames[|frames| - 1].points
  }

  lemma OneMoreFrame(frames: seq<Frame>, frame: Frame)
    ensures FramePoints(frames + [frame]) == FramePoints(frames) + frame.points
  {
    assert (frames + [frame])[..|frames|] == frames;
  }

  /** All the points a driver has, published or not. */
  ghost function PointsOf(c: Clouds): Points {
    FramePoints(c.frames) + c.cloud
  }

  lemma PublishedPoints(c: Clouds, timestamp: real)
    ensures PointsOf(PublishFrame(Coding(), c, timestamp)) == PointsOf(c)
  {
    OneMoreFrame(c.frames, Frame(c.cloud, timestamp));
  }

  lemma AddedPoints(c: Clouds, pkt: Packet)
    ensures PointsOf(AddPoints(Coding(), c, pkt)) == PointsOf(c) + Code(c.table)
  {
    assert (FramePoints(c.frames) + c.cloud) + Code(c.table) == FramePoints(c.frames) + (c.cloud + Code(c.table));
  }

  lemma OneMoreCode(ts: seq<Option<Table>>)
    requires |ts| > 1
    ensures Codes(ts[1..]) == Codes(ts[..|ts| - 1][1..]) + Code(ts[|ts| - 1])
  {
    assert ts[1..][..|ts| - 2] == ts[..|ts| - 1][1..];
  }

  /** They are the codes of all the tables used, one after the other. */
  lemma {:induction false} FillCodes(start: Option<Table>, run: seq<Arrival>, ts: seq<Option<Table>>)
    requires |ts| == |run| > 0
    ensures PointsOf(Fill(Coding(), start, run, ts)) == Codes(ts[1..])
  {
    var n := |run| - 1;
    NotFirst(run[..n]);
    if n == 0 {
      assert Fill(Coding(), start, run[..0], ts[..0]) == Clouds([], [], start);
    } else {
      FillCodes(start, run[..n], ts[..n]);
      var t, c := Tracked(run[..n]), Fill(Coding(), start, run[..n], ts[..n]).(table := ts[n]);
      PublishedPoints(c, t.frameStartTs);
      AddedPoints(if NextFrame(t, run[n].pkt) then PublishFrame(Coding(), c, t.frameStartTs) else c, run[n].pkt);
      OneMoreCode(ts);
    }
  }

  lemma CodedFrames(start: Option<Table>, run: seq<Arrival>, ts: seq<Option<Table>>)
    requires |ts| == |run| && 0 < LastChange(run)
    ensures FramePoints(Fill(Coding(), start, run, ts).frames) == Codes(ts[1..LastChange(run)])
  {
    var l := LastChange(run);
    FillFrames(Coding(), start, run, ts);
    FillCodes(start, run[..l], ts[..l]);
    var c := Fill(Coding(), start, run[..l], ts[..l]);
    OneMoreFrame(c.frames, Frame(c.cloud, Tracked(run[..l]).frameStartTs));
    assert ts[..l][1..] == ts[1..l];
  }

  lemma CodingTells(a: Option<Table>, b: Option<Table>, run: seq<Arrival>, ts: seq<Option<Table>>, us: seq<Option<Table>>)
    requires |ts| == |us| == |run|
    requires Fill(Coding(), a, run, ts).frames == Fill(Coding(), b, run, us).frames
    ensures forall i :: 1 <= i < LastChange(run) ==> ts[i] == us[i]
  {
    var l := LastChange(run);
    if l > 0 {
      CodedFrames(a, run, ts);
      CodedFrames(b, run, us);
      CodesInjective(ts[1..l], us[1..l]);
      forall i | 1 <= i < l
        ensures ts[i] == us[i]
      {
        assert ts[1..l][i - 1] == us[1..l][i - 1];
      }
    }
  }

  // ----- replay equivalence -----

  /** For one conversion: replaying the published scans gives the very frames, points and time stamps, that frame mode
      publishes, whatever the aggregate number, when each published packet gives the same points with the table each of
      the two drivers converts it with. */
  lemma ReplayEqualsDirect(cv: Conversion, replayRosbag: bool, own: Option<Table>, aggregateNum: nat, table: Option<Table>,
                           run: seq<Arrival>)
    requires forall i :: 1 <= i < LastChange(run) ==>
      cv.parse(run[i].pkt, DirectAt(table, run, i)) == cv.parse(run[i].pkt, ReplayAt(replayRosbag, own, table, run, i))
    ensures Replayed(cv, replayRosbag, own, Packeted(aggregateNum, table, run).published).frames == Direct(cv, table, run).frames
  {
    ReplayFrames(cv, replayRosbag, own, aggregateNum, table, run);
    DirectIsFill(cv, table, run);
    SameFrames(cv, table, own, run, DirectTables(table, run), ReplayTables(replayRosbag, own, table, run));
  }

  /** Both drivers convert every published packet with the same table, or both without one. */
  ghost predicate SameTables(replayRosbag: bool, own: Option<Table>, table: Option<Table>, run: seq<Arrival>) {
    forall i :: 1 <= i < LastChange(run) ==>
      DirectAt(table, run, i) == ReplayAt(replayRosbag, own, table, run, i)
  }

  ghost predicate ReplaysAlike(cv: Conversion, replayRosbag: bool, own: Option<Table>, aggregateNum: nat, table: Option<Table>,
                               run: seq<Arrival>) {
    Replayed(cv, replayRosbag, own, Packeted(aggregateNum, table, run).published).frames == Direct(cv, table, run).frames
  }

  lemma CodingDecides(replayRosbag: bool, own: Option<Table>, aggregateNum: nat, table: Option<Table>, run: seq<Arrival>)
    requires ReplaysAlike(Coding(), replayRosbag, own, aggregateNum, table, run)
    ensures SameTables(replayRosbag, own, table, run)
  {
    ReplayFrames(Coding(), replayRosbag, own, aggregateNum, table, run);
    DirectIsFill(Coding(), table, run);
    var ts, us := DirectTables(table, run), ReplayTables(replayRosbag, own, table, run);
    CodingTells(table, own, run, ts, us);
    forall i | 1 <= i < LastChange(run)
      ensures DirectAt(table, run, i) == ReplayAt(replayRosbag, own, table, run, i)
    {
      assert ts[i] == us[i];
    }
  }

  /** For every conversion at once: the two modes publish the same frames if and only if both drivers convert every
      published packet with the same table. */
  lemma ReplayExact(replayRosbag: bool, own: Option<Table>, aggregateNum: nat, table: Option<Table>, run: seq<Arrival>)
    ensures (forall cv :: ReplaysAlike(cv, replayRosbag, own, aggregateNum, table, run)) <==>
            SameTables(replayRosbag, own, table, run)
  {
    if SameTables(replayRosbag, own, table, run) {
      forall cv
        ensures ReplaysAlike(cv, replayRosbag, own, aggregateNum, table, run)
      {
        ReplayEqualsDirect(cv, replayRosbag, own, aggregateNum, table, run);
      }
    }
    if forall cv :: ReplaysAlike(cv, replayRosbag, own, aggregateNum, table, run) {
      assert ReplaysAlike(Coding(), replayRosbag, own, aggregateNum, table, run);
      CodingDecides(replayRosbag, own, aggregateNum, table, run);
    }
  }

  // ----- the condition, case by case -----

  /** A driver keeps the table it has. */
  lemma {:induction false} TableKept(table: Option<Table>, run: seq<Arrival>, n: nat)
    requires n <= |run| && TableAfter(table, run[..n]) != None
    ensures TableAfter(table, run) == TableAfter(table, run[..n])
    decreases |run|
  {
    if n < |run| {
      var m := |run| - 1;
      assert run[..m][..n] == run[..n];
      TableKept(table, run[..m], n);
    } else {
      assert run[..n] == run;
    }
  }

  lemma {:induction false} OwnTableKept(replayRosbag: bool, own: Option<Table>, table: Option<Table>, run: seq<Arrival>)
    requires own != None || !replayRosbag
    ensures ReplayTable(replayRosbag, own, table, run) == own
  {
    if run != [] { OwnTableKept(replayRosbag, own, table, run[..|run| - 1]); }
  }

  /** A replaying driver that has a table of its own, or takes none, publishes the same frames if and only if frame mode
      converts every published packet with that very table. */
  lemma OwnTableExact(replayRosbag: bool, own: Option<Table>, aggregateNum: nat, table: Option<Table>, run: seq<Arrival>)
    requires own != None || !replayRosbag
    ensures (forall cv :: ReplaysAlike(cv, replayRosbag, own, aggregateNum, table, run)) <==>
            forall i :: 1 <= i < LastChange(run) ==> DirectAt(table, run, i) == own
  {
    ReplayExact(replayRosbag, own, aggregateNum, table, run);
    forall i | 1 <= i < LastChange(run)
      ensures ReplayAt(replayRosbag, own, table, run, i) == own
    {
      OwnTableKept(replayRosbag, own, table, run[..i + 1]);
    }
  }

  /** Drivers that start with the same table agree on every run, whatever the lidar would answer. */
  lemma SameTableReplays(cv: Conversion, replayRosbag: bool, table: Table, aggregateNum: nat, run: seq<Arrival>)
    ensures ReplaysAlike(cv, replayRosbag, Some(table), aggregateNum, Some(table), run)
  {
    forall i | 1 <= i < LastChange(run)
      ensures DirectAt(Some(table), run, i) == Some(table)
    {
      assert run[..i + 1][..0] == [];
      TableKept(Some(table), run[..i + 1], 0);
    }
    OwnTableExact(replayRosbag, Some(table), aggregateNum, Some(table), run);
  }

  // ----- scans -----

  ghost predicate Sized(aggregateNum: nat, scan: Scan) {
    && scan.size == |scan.packets|
    && (if scan.isLastScan || aggregateNum == 0 then scan.size <= aggregateNum || scan.size == 1
        else scan.size == aggregateNum)
  }

  /** Every published scan states its number of packets, which is the aggregate number, unless the scan is a frame's last,
      which may be shorter; it is at most one when the aggregate number is 0. */
  lemma {:induction false} ScansSized(aggregateNum: nat, table: Option<Table>, run: seq<Arrival>)
    ensures var s := Packeted(aggregateNum, table, run);
      && (forall i :: 0 <= i < |s.published| ==> Sized(aggregateNum, s.published[i]))
      && s.packetsWidth == |s.pending.packets| && (s.packetsWidth <= aggregateNum || s.packetsWidth == 1)
  {
    if run != [] {
      ScansSized(aggregateNum, table, run[..|run| - 1]);
    }
  }

  ghost function AllMessages(scans: seq<Scan>): seq<Message> {
    if scans == [] then [] else AllMessages(scans[..|scans| - 1]) + scans[|scans| - 1].packets
  }

  /** What the published scans and the one being filled carry. */
  ghost function Carried(s: Scans): seq<Message> {
    AllMessages(s.published) + s.pending.packets
  }

  lemma ClosedCarries(aggregateNum: nat, s: Scans, timestamp: real, nextIdx: bool)
    ensures Carried(Closed(aggregateNum, s, timestamp, nextIdx)) == Carried(s)
  {
    var t := Closed(aggregateNum, s, timestamp, nextIdx);
    if |t.published| > |s.published| {
      assert t.published[..|s.published|] == s.published;
    }
  }

  lemma AddedCarries(s: Scans, pkt: Packet, table: Option<Table>)
    ensures Carried(Added(s, pkt, table)) == Carried(s) + [Message(pkt, if SendsTable(s, table) then table else None)]
  {
  }

  /** Packet i, with the table sent along with it, if any. */
  ghost function Handed(table: Option<Table>, run: seq<Arrival>, i: nat): Message
    requires i < |run|
  {
    Message(run[i].pkt, SentTable(table, run[..i + 1]))
  }

  ghost function AllHanded(table: Option<Table>, run: seq<Arrival>): seq<Message> {
    seq(|run|, i requires 0 <= i < |run| => Handed(table, run, i))
  }

  lemma OneMoreHanded(table: Option<Table>, run: seq<Arrival>)
    requires |run| > 1
    ensures AllHanded(table, run)[1..] ==
            AllHanded(table, run[..|run| - 1])[1..] + [Message(run[|run| - 1].pkt, SentTable(table, run))]
  {
    var n := |run| - 1;
    assert run[..n + 1] == run;
    forall i | 0 <= i < n
      ensures Handed(table, run[..n], i) == Handed(table, run, i)
    {
      assert run[..n][..i + 1] == run[..i + 1];
    }
  }

  /** Packet mode loses and reorders nothing after the first packet, which both modes use only to start. */
  lemma {:induction false} ScansCarryAllPackets(aggregateNum: nat, table: Option<Table>, run: seq<Arrival>)
    requires run != []
    ensures Carried(Packeted(aggregateNum, table, run)) == AllHanded(table, run)[1..]
  {
    var n := |run| - 1;
    var before, pkt := run[..n], run[n].pkt;
    if n == 0 {
      assert before == [];
    } else {
      ScansCarryAllPackets(aggregateNum, table, before);
      var t, s := Tracked(before), Packeted(aggregateNum, table, before);
      var closed := LastAdded(aggregateNum, table, run);
      ClosedCarries(aggregateNum, s, t.frameStartTs, NextFrame(t, pkt));
      AddedCarries(closed, pkt, TableAfter(table, run));
      OneMoreHanded(table, run);
    }
  }

  // ----- when the table is sent -----

  ghost predicate NoTable(msgs: seq<Message>) {
    forall i :: 0 <= i < |msgs| ==> msgs[i].table == None
  }

  ghost predicate NoTableSent(s: Scans) {
    NoTable(s.pending.packets) && forall i :: 0 <= i < |s.published| ==> NoTable(s.published[i].packets)
  }

  /** The number of times the frame changes in a run. */
  ghost function Changes(run: seq<Arrival>): nat {
    if run == [] then 0
    else
      var before := run[..|run| - 1];
      Changes(before) + if !First(Tracked(before)) && NextFrame(Tracked(before), run[|run| - 1].pkt) then 1 else 0
  }

  lemma ClosedSends(aggregateNum: nat, s: Scans, timestamp: real, nextIdx: bool)
    ensures NoTableSent(Closed(aggregateNum, s, timestamp, nextIdx)) <==> NoTableSent(s)
  {
    var t := Closed(aggregateNum, s, timestamp, nextIdx);
    assert forall i :: 0 <= i < |s.published| ==> t.published[i] == s.published[i];
    if |t.published| > |s.published| { assert t.published[|s.published|].packets == s.pending.packets; }
  }

  lemma AddedSends(s: Scans, pkt: Packet, table: Option<Table>)
    ensures NoTableSent(Added(s, pkt, table)) <==> NoTableSent(s) && !SendsTable(s, table)
  {
    var t := Added(s, pkt, table).pending.packets;
    var n := |s.pending.packets|;
    assert forall i :: 0 <= i < n ==> t[i] == s.pending.packets[i];
    assert t[n].table != None <==> SendsTable(s, table);
  }

  /** The frame count after a possible change of frame. */
  ghost function CountAfter(t: Tracker, s: Scans, pkt: Packet): nat {
    if NextFrame(t, pkt) then (s.frameCount + 1) % TWO32 else s.frameCount
  }

  lemma StepSends(aggregateNum: nat, t: Tracker, s: Scans, pkt: Packet, table: Option<Table>)
    requires !First(t)
    ensures var r, sent := PacketStep(aggregateNum, t, s, pkt, table), CountAfter(t, s, pkt) == TABLE_SEND_HZ && table != None;
      && (NoTableSent(r) <==> NoTableSent(s) && !sent)
      && (!sent ==> r.frameCount == CountAfter(t, s, pkt))
  {
    ClosedSends(aggregateNum, s, t.frameStartTs, NextFrame(t, pkt));
    AddedSends(Closed(aggregateNum, s, t.frameStartTs, NextFrame(t, pkt)), pkt, table);
  }

  /** In the frame that the twentieth change of frame begins the driver never had a table. */
  ghost predicate NeverReady(table: Option<Table>, run: seq<Arrival>) {
    forall n :: 0 <= n <= |run| && Changes(run[..n]) == 20 ==> TableAfter(table, run[..n]) == None
  }

  lemma NeverReadyPrefix(table: Option<Table>, run: seq<Arrival>)
    requires run != []
    ensures NeverReady(table, run) <==>
            NeverReady(table, run[..|run| - 1]) && (Changes(run) == TABLE_SEND_HZ ==> TableAfter(table, run) == None)
  {
    var n := |run| - 1;
    assert run[..n + 1] == run;
    assert forall k :: 0 <= k <= n ==> run[..n][..k] == run[..k];
  }

  /** The frame count stands at 20 only from the twentieth change of frame to the next one, unless it wraps around: a
      table is ever sent if and only if the driver had one by then. A driver that gets its table later sends none. */
  lemma {:induction false} TableSentIff(aggregateNum: nat, table: Option<Table>, run: seq<Arrival>)
    requires Changes(run) < 0x1_0000_0000
    ensures var s := Packeted(aggregateNum, table, run);
      && (NoTableSent(s) <==> NeverReady(table, run))
      && (NeverReady(table, run) ==> s.frameCount == Changes(run))
  {
    if run == [] {
      assert NeverReady(table, run);
    } else {
      var n := |run| - 1;
      var before, pkt := run[..n], run[n].pkt;
      TableSentIff(aggregateNum, table, before);
      NeverReadyPrefix(table, run);
      var t, s := Tracked(before), Packeted(aggregateNum, table, before);
      if !First(t) { StepSends(aggregateNum, t, s, pkt, TableAfter(table, run)); }
    }
  }

  // ----- a replaying driver without a table of its own -----

  /** A table was sent along with some packet of the run. */
  ghost predicate Sent(table: Option<Table>, run: seq<Arrival>) {
    run != [] && (SentTable(table, run) != None || Sent(table, run[..|run| - 1]))
  }

  /** It has the sender's table from the first time one is sent, and none before. */
  lemma {:induction false} TakesSentTable(table: Option<Table>, run: seq<Arrival>)
    ensures ReplayTable(true, None, table, run) == if Sent(table, run) then TableAfter(table, run) else None
    ensures Sent(table, run) ==> TableAfter(table, run) != None
  {
    if run != [] {
      var n := |run| - 1;
      TakesSentTable(table, run[..n]);
      if Sent(table, run[..n]) { TableKept(table, run, n); }
    }
  }

  lemma {:induction false} SentMeansSent(aggregateNum: nat, table: Option<Table>, run: seq<Arrival>)
    ensures Sent(table, run) <==> !NoTableSent(Packeted(aggregateNum, table, run))
  {
    if |run| <= 1 {
      if run != [] { assert run[..0] == []; }
    } else {
      var before, pkt := run[..|run| - 1], run[|run| - 1].pkt;
      SentMeansSent(aggregateNum, table, before);
      var closed := LastAdded(aggregateNum, table, run);
      ClosedSends(aggregateNum, Packeted(aggregateNum, table, before), Tracked(before).frameStartTs,
                  NextFrame(Tracked(before), pkt));
      AddedSends(closed, pkt, TableAfter(table, run));
    }
  }

  /** For fewer than 2^32 changes of frame that is: the driver had a table in the frame that the twentieth one begins. */
  lemma SentIffReady(table: Option<Table>, run: seq<Arrival>)
    requires Changes(run) < 0x1_0000_0000
    ensures Sent(table, run) <==> !NeverReady(table, run)
  {
    SentMeansSent(0, table, run);
    TableSentIff(0, table, run);
  }

  /** If frame mode converts packet i with a table, then one has been sent by that packet. */
  ghost predicate InTime(table: Option<Table>, run: seq<Arrival>, i: nat)
    requires i < |run|
  {
    DirectAt(table, run, i) != None ==> Sent(table, run[..i + 1])
  }

  /** Without a table of its own the replay publishes the same frames if and only if a table has been sent by every
      published packet that frame mode converts with one. */
  lemma NoOwnTableExact(aggregateNum: nat, table: Option<Table>, run: seq<Arrival>)
    ensures (forall cv :: ReplaysAlike(cv, true, None, aggregateNum, table, run)) <==>
            forall i :: 1 <= i < LastChange(run) ==> InTime(table, run, i)
  {
    ReplayExact(true, None, aggregateNum, table, run);
    forall i | 1 <= i < LastChange(run)
      ensures DirectAt(table, run, i) == ReplayAt(true, None, table, run, i) <==> InTime(table, run, i)
    {
      TakesSentTable(table, run[..i + 1]);
    }
  }

  /** Two packets of one frame and one of the next, all compact, from a lidar that answers with a table. */
  ghost function ShortRun(answer: Table): seq<Arrival> {
    [Arrival(Packet(0, 0.0, true, 0), Some(answer)), Arrival(Packet(0, 0.0, true, 1), Some(answer)),
     Arrival(Packet(1, 1.0, true, 2), Some(answer))]
  }

  lemma OneArrival(table: Option<Table>, run: seq<Arrival>)
    requires |run| == 1
    ensures Tracked(run) == Tracker(run[0].pkt.idx, run[0].pkt.tsStart) && TableAfter(table, run) == table
    ensures FrameCount(table, run) == 0 && ReplayTable(true, None, table, run) == None
  {
    var none := run[..|run| - 1];
    assert none == [];
    assert Tracked(none) == Tracker(-1, 0.0) && TableAfter(table, none) == table && FrameCount(table, none) == 0;
    assert ReplayTable(true, None, table, none) == None && SentTable(table, run) == None;
  }

  lemma TwoArrivals(run: seq<Arrival>)
    requires |run| == 2 && run[0].pkt.idx == run[1].pkt.idx && run[1].pkt.compact
    ensures Tracked(run) == Tracked(run[..1]) && LastChange(run) == 0 && TableAfter(None, run) == run[1].answer
  {
    var one := run[..|run| - 1];
    OneArrival(None, run[..1]);
    assert one == [run[0]];
    assert Tracked(run) == Track(Tracked(one), run[1].pkt);
    assert LastChange(one) == 0;
  }

  lemma NoneSentToTwo(run: seq<Arrival>)
    requires |run| == 2 && run[0].pkt.idx == run[1].pkt.idx
    ensures ReplayTable(true, None, None, run) == None
  {
    OneArrival(None, run[..1]);
    assert run[..1] == [run[0]];
    assert CountAt(None, run) == 0;
    assert SentTable(None, run) == None;
  }

  /** Neither driver has a table at first. Frame mode asks for one and converts the published packet with it; the replay
      converts it without, because none is sent before the twentieth change of frame. */
  lemma ShortRunDiffers(aggregateNum: nat, answer: Table)
    ensures !ReplaysAlike(Coding(), true, None, aggregateNum, None, ShortRun(answer))
  {
    var run := ShortRun(answer);
    TwoArrivals(run[..2]);
    NoneSentToTwo(run[..2]);
    OneArrival(None, run[..1]);
    assert run[..2][..1] == [run[0]];
    assert LastChange(run) == 2;
    assert DirectAt(None, run, 1) != ReplayAt(true, None, None, run, 1);
    if ReplaysAlike(Coding(), true, None, aggregateNum, None, run) {
      CodingDecides(true, None, aggregateNum, None, run);
      assert false;
    }
  }
}
