/** What the two modes publish, from the arrivals alone. */
module ReplayOutcomes {
  import opened Options
  import opened Replay

  // ----- frames are stretches of packets with one frame index -----

  /** Packet i begins a stretch of packets with the same frame index. */
  ghost predicate Begins(run: seq<Arrival>, i: nat) {
    i < |run| && (i == 0 || run[i].pkt.idx != run[i - 1].pkt.idx)
  }

  /** The places where the stretches begin, in order. */
  ghost function Starts(run: seq<Arrival>): (starts: seq<nat>)
    ensures forall k :: 0 <= k < |starts| ==> starts[k] < |run|
    ensures run != [] ==> starts != []
  {
    if run == [] then []
    else
      var n := |run| - 1;
      Starts(run[..n]) + if Begins(run, n) then [n] else []
  }

  lemma {:induction false} StartsExact(run: seq<Arrival>)
    ensures forall i: nat :: i in Starts(run) <==> Begins(run, i)
    ensures forall k, l :: 0 <= k < l < |Starts(run)| ==> Starts(run)[k] < Starts(run)[l]
    ensures run != [] ==> Starts(run)[0] == 0
  {
    if run != [] {
      var n := |run| - 1;
      StartsExact(run[..n]);
      assert forall i: nat :: i < n ==> (Begins(run, i) <==> Begins(run[..n], i));
      assert forall k :: 0 <= k < |Starts(run[..n])| ==> Starts(run[..n])[k] in Starts(run[..n]);
    }
  }

  /** The points of the packets from place lo on, before place hi, in order, the first packet of all aside. */
  ghost function PointsIn(cv: Conversion, run: seq<Arrival>, tables: seq<Option<Table>>, lo: nat, hi: nat): Points
    requires |tables| == |run| && hi <= |run|
  {
    if hi <= lo || hi <= 1 then []
    else PointsIn(cv, run, tables, lo, hi - 1) + cv.parse(run[hi - 1].pkt, tables[hi - 1])
  }

  lemma {:induction false} PointsPrefix(cv: Conversion, run: seq<Arrival>, tables: seq<Option<Table>>, n: nat, lo: nat, hi: nat)
    requires |tables| == |run| && hi <= n <= |run|
    ensures PointsIn(cv, run[..n], tables[..n], lo, hi) == PointsIn(cv, run, tables, lo, hi)
    decreases hi
  {
    if lo < hi && 1 < hi { PointsPrefix(cv, run, tables, n, lo, hi - 1); }
  }

  /** The packets from place lo on, before place hi, as a frame: with the start time of the first of them. */
  ghost function StretchFrame(cv: Conversion, run: seq<Arrival>, tables: seq<Option<Table>>, lo: nat, hi: nat): Frame
    requires |tables| == |run| && hi <= |run| && lo < |run|
  {
    Frame(cv.transform(PointsIn(cv, run, tables, lo, hi)), run[lo].pkt.tsStart)
  }

  /** One frame for each stretch but the last one. */
  ghost predicate AreStretches(cv: Conversion, run: seq<Arrival>, tables: seq<Option<Table>>, frames: seq<Frame>)
    requires |tables| == |run|
  {
    var starts := Starts(run);
    && |frames| == (if run == [] then 0 else |starts| - 1)
    && forall k :: 0 <= k < |frames| ==> frames[k] == StretchFrame(cv, run, tables, starts[k], starts[k + 1])
  }

  /** The place where the last stretch begins. */
  ghost function LastStart(run: seq<Arrival>): nat
    requires run != []
  {
    Starts(run)[|Starts(run)| - 1]
  }

  lemma LastStartStep(run: seq<Arrival>)
    requires run != []
    ensures LastStart(run) < |run|
    ensures |run| == 1 ==> Starts(run) == [0]
    ensures |run| > 1 ==> LastStart(run) == if Begins(run, |run| - 1) then |run| - 1 else LastStart(run[..|run| - 1])
  {
    if |run| == 1 { assert run[..0] == []; }
  }

  /** The driver's tracking is of the stretch under way. */
  lemma {:induction false} TracksStretch(run: seq<Arrival>)
    requires run != []
    ensures Tracked(run) == Tracker(run[|run| - 1].pkt.idx, run[LastStart(run)].pkt.tsStart)
  {
    var n := |run| - 1;
    LastStartStep(run);
    if n > 0 {
      TracksStretch(run[..n]);
    } else {
      assert run[..0] == [];
    }
  }

  lemma {:induction false} CloudIsStretch(cv: Conversion, start: Option<Table>, run: seq<Arrival>, tables: seq<Option<Table>>)
    requires |tables| == |run| > 0
    ensures Fill(cv, start, run, tables).cloud == PointsIn(cv, run, tables, LastStart(run), |run|)
  {
    var n := |run| - 1;
    LastStartStep(run);
    NotFirst(run[..n]);
    if n > 0 {
      CloudIsStretch(cv, start, run[..n], tables[..n]);
      TracksStretch(run[..n]);
      PointsPrefix(cv, run, tables, n, LastStart(run[..n]), n);
    } else {
      assert run[..0] == [];
    }
  }

  lemma StillStretch(cv: Conversion, run: seq<Arrival>, tables: seq<Option<Table>>, frames: seq<Frame>, n: nat, k: nat)
    requires |tables| == |run| && n <= |run| && AreStretches(cv, run[..n], tables[..n], frames) && k < |frames|
    ensures var starts := Starts(run[..n]);
      frames[k] == StretchFrame(cv, run, tables, starts[k], starts[k + 1])
  {
    var starts := Starts(run[..n]);
    PointsPrefix(cv, run, tables, n, starts[k], starts[k + 1]);
  }

  lemma OneMoreStretch(cv: Conversion, run: seq<Arrival>, tables: seq<Option<Table>>, frames: seq<Frame>, last: Frame)
    requires |tables| == |run| > 1 && Begins(run, |run| - 1)
    requires AreStretches(cv, run[..|run| - 1], tables[..|run| - 1], frames)
    requires last == StretchFrame(cv, run, tables, LastStart(run[..|run| - 1]), |run| - 1)
    ensures AreStretches(cv, run, tables, frames + [last])
  {
    var before, starts := Starts(run[..|run| - 1]), Starts(run);
    assert starts == before + [|run| - 1] && |frames| == |before| - 1;
    forall k | 0 <= k <= |frames|
      ensures (frames + [last])[k] == StretchFrame(cv, run, tables, starts[k], starts[k + 1])
    {
      assert starts[k] == before[k];
      if k < |frames| {
        assert starts[k + 1] == before[k + 1];
        StillStretch(cv, run, tables, frames, |run| - 1, k);
      }
    }
  }

  lemma SameStretches(cv: Conversion, run: seq<Arrival>, tables: seq<Option<Table>>, frames: seq<Frame>)
    requires |tables| == |run| > 1 && !Begins(run, |run| - 1)
    requires AreStretches(cv, run[..|run| - 1], tables[..|run| - 1], frames)
    ensures AreStretches(cv, run, tables, frames)
  {
    forall k | 0 <= k < |frames|
      ensures frames[k] == StretchFrame(cv, run, tables, Starts(run)[k], Starts(run)[k + 1])
    {
      StillStretch(cv, run, tables, frames, |run| - 1, k);
    }
  }

  /** Whatever tables the packets are converted with. */
  lemma {:induction false} FillStretches(cv: Conversion, start: Option<Table>, run: seq<Arrival>, tables: seq<Option<Table>>)
    requires |tables| == |run|
    ensures AreStretches(cv, run, tables, Fill(cv, start, run, tables).frames)
  {
    if run != [] {
      var n := |run| - 1;
      FillStretches(cv, start, run[..n], tables[..n]);
      NotFirst(run[..n]);
      if n > 0 {
        CloudIsStretch(cv, start, run[..n], tables[..n]);
        TracksStretch(run[..n]);
        PointsPrefix(cv, run, tables, n, LastStart(run[..n]), n);
        if Begins(run, n) {
          var frames := Fill(cv, start, run[..n], tables[..n]).frames;
          var last := StretchFrame(cv, run, tables, LastStart(run[..n]), n);
          assert Fill(cv, start, run, tables).frames == frames + [last];
          OneMoreStretch(cv, run, tables, frames, last);
        } else {
          SameStretches(cv, run, tables, Fill(cv, start, run, tables).frames);
        }
      } else {
        LastStartStep(run);
        assert run[..0] == [];
      }
    }
  }

  /** Frame mode publishes one frame for each change of frame index. */
  lemma FramesAreStretches(cv: Conversion, table: Option<Table>, run: seq<Arrival>)
    ensures AreStretches(cv, run, DirectTables(table, run), Direct(cv, table, run).frames)
  {
    DirectIsFill(cv, table, run);
    FillStretches(cv, table, run, DirectTables(table, run));
  }

  /** So does the replay of what packet mode publishes, with its own tables, whatever the aggregate number. */
  lemma ReplayedAreStretches(cv: Conversion, replayRosbag: bool, own: Option<Table>, aggregateNum: nat, table: Option<Table>,
                             run: seq<Arrival>)
    ensures AreStretches(cv, run, ReplayTables(replayRosbag, own, table, run),
                         Replayed(cv, replayRosbag, own, Packeted(aggregateNum, table, run).published).frames)
  {
    ReplayFrames(cv, replayRosbag, own, aggregateNum, table, run);
    FillStretches(cv, own, run, ReplayTables(replayRosbag, own, table, run));
  }

  // ----- tables -----

  /** The lidar would answer with a table when this compact packet comes; at the first packet it is not asked. */
  ghost predicate Answered(run: seq<Arrival>, i: nat) {
    1 <= i < |run| && run[i].pkt.compact && run[i].answer != None
  }

  /** The driver's table is the one it starts with, or the first answer. */
  lemma {:induction false} TableIsFirstAnswer(table: Option<Table>, run: seq<Arrival>)
    ensures table != None ==> TableAfter(table, run) == table
    ensures table == None ==> (TableAfter(table, run) == None <==> forall i: nat :: !Answered(run, i))
    ensures forall i: nat :: table == None && Answered(run, i) && (forall j: nat :: j < i ==> !Answered(run, j)) ==>
      TableAfter(table, run) == run[i].answer
  {
    if run != [] {
      var n := |run| - 1;
      TableIsFirstAnswer(table, run[..n]);
      NotFirst(run[..n]);
      assert forall i: nat :: i < n ==> (Answered(run, i) <==> Answered(run[..n], i));
      assert TableAfter(table, run) == TableStep(Tracked(run[..n]), TableAfter(table, run[..n]), run[n]);
      assert Answered(run, n) <==> n >= 1 && run[n].pkt.compact && run[n].answer != None;
    }
  }

  // ----- when the table is sent -----

  /** The changes of frame counted, and the last one, are those of the arrivals. */
  lemma {:induction false} ChangesAreStarts(run: seq<Arrival>)
    requires run != []
    ensures Changes(run) == |Starts(run)| - 1 && LastChange(run) == LastStart(run)
  {
    var n := |run| - 1;
    LastStartStep(run);
    NotFirst(run[..n]);
    if n == 0 {
      assert run[..0] == [];
    } else {
      ChangesAreStarts(run[..n]);
      TracksStretch(run[..n]);
    }
  }

  /** The changes of frame there had been when a table was last sent. */
  ghost function ChangesAtLast(table: Option<Table>, run: seq<Arrival>): nat {
    if run == [] then 0
    else if SentTable(table, run) != None then Changes(run)
    else ChangesAtLast(table, run[..|run| - 1])
  }

  lemma {:induction false} CountSinceLast(table: Option<Table>, run: seq<Arrival>)
    requires Changes(run) < 0x1_0000_0000
    ensures FrameCount(table, run) == Changes(run) - ChangesAtLast(table, run)
  {
    if run != [] {
      NotFirst(run[..|run| - 1]);
      CountSinceLast(table, run[..|run| - 1]);
    }
  }

  /** The driver's table goes with a packet after the first if and only if exactly twenty changes of frame have come since it
      was last sent, or since the start. */
  lemma SentEveryTwenty(table: Option<Table>, run: seq<Arrival>)
    requires run != [] && Changes(run) < 0x1_0000_0000
    ensures SentTable(table, run) ==
      if |run| > 1 && Changes(run) == ChangesAtLast(table, run[..|run| - 1]) + 20 then TableAfter(table, run) else None
  {
    var before := run[..|run| - 1];
    CountSinceLast(table, before);
    NotFirst(before);
    assert |run| > 1 ==> CountAt(table, run) == Changes(run) - ChangesAtLast(table, before);
  }
}
