/** What an Archive built from sealed Captures must say: the samples of all
    sources one after the other, with their identities, quality, configuration
    and timing evidence. */
module Compaction {
  import opened Options
  import opened Capture
  import opened CaptureReader
  import opened ControlPoints
  import opened QualityRows
  import opened Archive
  import opened Selections

  datatype EventCode = FifoLoss | Recovery | ConfigurationChange | CalibrationChange | OtherEvent

  datatype Event = Event(code: EventCode, boot: int, anchor: int)

  /** A sequence gap as the recorder has noted it. */
  datatype NotedGap = NotedGap(expected: int, received: int)

  datatype Source = Source(file: File, configurations: seq<Configuration>, gaps: seq<NotedGap>, events: seq<Event>)

  ghost predicate ValidSources(sources: seq<Source>) {
    forall i :: 0 <= i < |sources| ==> ValidCapture(sources[i].file, |sources[i].configurations|)
  }

  // ----- the sources joined -----

  function JoinedRaw(sources: seq<Source>): seq<Xyz> {
    if sources == [] then [] else JoinedRaw(sources[..|sources| - 1]) + sources[|sources| - 1].file.raw
  }

  function Shift(b: Block, offset: int): Block {
    b.(sampleOffset := offset + b.sampleOffset)
  }

  function ShiftAll(blocks: seq<Block>, offset: int): (shifted: seq<Block>)
    ensures |shifted| == |blocks|
    ensures forall k :: 0 <= k < |blocks| ==> shifted[k] == Shift(blocks[k], offset)
  {
    seq(|blocks|, k requires 0 <= k < |blocks| => Shift(blocks[k], offset))
  }

  /** All blocks, at their offsets in the archive. */
  function Joined(sources: seq<Source>): seq<Block> {
    if sources == [] then []
    else
      var n := |sources| - 1;
      Joined(sources[..n]) + ShiftAll(sources[n].file.blocks, |JoinedRaw(sources[..n])|)
  }

  /** The identities of all samples, source by source. */
  ghost function SourceKeys(sources: seq<Source>): seq<Key>
    requires ValidSources(sources)
  {
    if sources == [] then []
    else SourceKeys(sources[..|sources| - 1]) + AllKeys(sources[|sources| - 1].file.blocks)
  }

  lemma {:induction false} ShiftKeepsKeys(blocks: seq<Block>, offset: int)
    requires CountsValid(blocks)
    ensures CountsValid(ShiftAll(blocks, offset))
    ensures AllKeys(ShiftAll(blocks, offset)) == AllKeys(blocks)
  {
    if blocks != [] {
      var n := |blocks| - 1;
      ShiftKeepsKeys(blocks[..n], offset);
      assert ShiftAll(blocks, offset)[..n] == ShiftAll(blocks[..n], offset);
      assert BlockKeys(Shift(blocks[n], offset)) == BlockKeys(blocks[n]);
    }
  }

  lemma TileConcat(a: seq<Block>, m: int, b: seq<Block>, n: int)
    requires BlocksTile(a, m) && BlocksTile(b, n)
    ensures BlocksTile(a + ShiftAll(b, m), m + n)
  {
    var c := a + ShiftAll(b, m);
    forall k | 0 < k < |c|
      ensures c[k].sampleOffset == EndOf(c[k - 1])
    {
      if k > |a| {
        assert c[k] == Shift(b[k - |a|], m) && c[k - 1] == Shift(b[k - |a| - 1], m);
        assert b[k - |a|].sampleOffset == EndOf(b[k - |a| - 1]);
      } else if k == |a| {
        assert c[k] == Shift(b[0], m);
      }
    }
    forall k | 0 <= k < |c|
      ensures c[k].sampleCount > 0
    {
      if k >= |a| {
        assert c[k] == Shift(b[k - |a|], m);
      }
    }
    if b != [] {
      assert c[|c| - 1] == Shift(b[|b| - 1], m);
    } else {
      assert c == a;
    }
  }

  lemma {:induction false} JoinedSigned(sources: seq<Source>)
    requires ValidSources(sources)
    ensures forall i :: 0 <= i < |JoinedRaw(sources)| ==> Signed24(JoinedRaw(sources)[i])
  {
    if sources != [] {
      var n := |sources| - 1;
      assert ValidCapture(sources[n].file, |sources[n].configurations|);
      JoinedSigned(sources[..n]);
    }
  }

  /** Joining keeps identities and row coverage. */
  lemma {:induction false} JoinedTiles(sources: seq<Source>)
    requires ValidSources(sources)
    ensures BlocksTile(Joined(sources), |JoinedRaw(sources)|)
    ensures AllKeys(Joined(sources)) == SourceKeys(sources)
    ensures forall i :: 0 <= i < |JoinedRaw(sources)| ==> Signed24(JoinedRaw(sources)[i])
  {
    JoinedSigned(sources);
    if sources != [] {
      var n := |sources| - 1;
      var init, s := sources[..n], sources[n];
      assert ValidCapture(s.file, |s.configurations|);
      JoinedTiles(init);
      TileConcat(Joined(init), |JoinedRaw(init)|, s.file.blocks, |s.file.raw|);
      ShiftKeepsKeys(s.file.blocks, |JoinedRaw(init)|);
      AllKeysConcat(Joined(init), ShiftAll(s.file.blocks, |JoinedRaw(init)|));
    }
  }

  // ----- quality -----

  const INVALID_TIMING_BIT: int := 4

  /** Firmware bit 2 of the timing flags. */
  predicate TimingInvalid(b: Block) {
    b.timingFlags / INVALID_TIMING_BIT % 2 == 1
  }

  function QualityFromBlock(b: Block): set<Flag> {
    (if b.firstUtcNs < 0 || UtcValid !in b.routing then {TimeUncertain, TimeUnsynced} else {})
    + (if InitiallyUnsynced in b.routing then {TimeUnsynced} else {})
    + (if RoutingFlag.BoundaryUncertain in b.routing then {Flag.BoundaryUncertain} else {})
    + (if TimingInvalid(b) then {TimeUncertain, MeasurementInvalid} else {})
  }

  function QualityRow(b: Block): Row {
    Row(b.sampleOffset, b.sampleCount, QualityFromBlock(b))
  }

  function QualityOf(blocks: seq<Block>): seq<Row> {
    if blocks == [] then [] else AddQuality(QualityOf(blocks[..|blocks| - 1]), QualityRow(blocks[|blocks| - 1]))
  }

  /** The quality of the block that holds sample i. */
  function BlockQualityAt(blocks: seq<Block>, i: int): set<Flag> {
    if blocks == [] then {}
    else
      var b := blocks[|blocks| - 1];
      if QualityRow(b).Holds(i) then QualityFromBlock(b) else BlockQualityAt(blocks[..|blocks| - 1], i)
  }

  lemma {:induction false} QualityOfBlocks(blocks: seq<Block>, n: int)
    requires BlocksTile(blocks, n)
    ensures Tiles(QualityOf(blocks), 0, n) && Canonical(QualityOf(blocks))
    ensures forall i :: FlagsAt(QualityOf(blocks), i) == BlockQualityAt(blocks, i)
  {
    if blocks != [] {
      var m := |blocks| - 1;
      InitTile(blocks, n);
      QualityOfBlocks(blocks[..m], blocks[m].sampleOffset);
      AddQualityTiles(QualityOf(blocks[..m]), 0, blocks[m].sampleOffset, QualityRow(blocks[m]));
      AddQualityCanonical(QualityOf(blocks[..m]), 0, blocks[m].sampleOffset, QualityRow(blocks[m]));
    }
  }

  datatype OverlayRow = OverlayRow(start: int, count: int, flag: Flag)

  /** The last block of the source whose sequence range holds the anchor. */
  function AnchorOffset(blocks: seq<Block>, sourceStart: int, anchor: int): int {
    if blocks == [] then sourceStart
    else
      var b := blocks[|blocks| - 1];
      if b.firstSeq <= anchor < b.firstSeq + b.sampleCount then sourceStart + b.sampleOffset + anchor - b.firstSeq
      else AnchorOffset(blocks[..|blocks| - 1], sourceStart, anchor)
  }

  function EventOverlay(blocks: seq<Block>, sourceStart: int, e: Event): seq<OverlayRow> {
    var at := AnchorOffset(blocks, sourceStart, e.anchor);
    match e.code
    case FifoLoss => [OverlayRow(Capture.Max(0, at - 1), 3, SensorLossAdjacent)]
    case Recovery => [OverlayRow(at, 1, SensorRecovery)]
    case OtherEvent => []
    case _ => [OverlayRow(at, 1, ConfigChanged)]
  }

  function EventOverlays(blocks: seq<Block>, sourceStart: int, events: seq<Event>): seq<OverlayRow> {
    if events == [] then []
    else
      EventOverlays(blocks, sourceStart, events[..|events| - 1])
      + EventOverlay(blocks, sourceStart, events[|events| - 1])
  }

  function OverlaysOf(sources: seq<Source>): seq<OverlayRow> {
    if sources == [] then []
    else
      var n := |sources| - 1;
      OverlaysOf(sources[..n]) + EventOverlays(sources[n].file.blocks, |JoinedRaw(sources[..n])|, sources[n].events)
  }

  /** The flags of all overlays that cover sample i. */
  function CoveringFlags(overlays: seq<OverlayRow>, i: int): set<Flag> {
    if overlays == [] then {}
    else
      var o := overlays[|overlays| - 1];
      CoveringFlags(overlays[..|overlays| - 1], i) + (if Within(o.start, o.count, i) then {o.flag} else {})
  }

  // ----- configuration -----

  predicate Eligible(c: Configuration, boot: int, firstSeq: int) {
    c.startSeq <= firstSeq && c.startBoot in {0, boot}
  }

  /** The configuration in force at the start of a block: the first of the
      eligible rows with the latest start. */
  ghost predicate InForce(configurations: seq<Configuration>, boot: int, firstSeq: int, c: nat) {
    && c < |configurations| && Eligible(configurations[c], boot, firstSeq)
    && (forall d :: 0 <= d < |configurations| && Eligible(configurations[d], boot, firstSeq) ==>
         configurations[d].startSeq < configurations[c].startSeq
         || (configurations[d].startSeq == configurations[c].startSeq && c <= d))
  }

  ghost predicate Covered(configurations: seq<Configuration>, b: Block) {
    exists c :: 0 <= c < |configurations| && Eligible(configurations[c], b.bootEpoch, b.firstSeq)
  }

  // ----- timing -----

  function Candidates(b: Block): seq<ControlPoint> {
    if b.firstUtcNs < 0 then []
    else
      [ControlPoint(b.sampleOffset, b.firstDeviceUs, b.firstUtcNs, b.uncertaintyNs, b.timingFlags)]
      + (if b.sampleCount > 1 && b.lastUtcNs >= 0
         then [ControlPoint(b.sampleOffset + b.sampleCount - 1, b.lastDeviceUs, b.lastUtcNs, b.uncertaintyNs,
                            b.timingFlags)]
         else [])
  }

  function AllCandidates(blocks: seq<Block>): seq<ControlPoint> {
    if blocks == [] then [] else AllCandidates(blocks[..|blocks| - 1]) + Candidates(blocks[|blocks| - 1])
  }

  ghost predicate PointsAscend(points: seq<ControlPoint>) {
    forall j, k :: 0 <= j < k < |points| ==> points[j].offset < points[k].offset
  }

  lemma {:induction false} CandidatesAscend(blocks: seq<Block>, n: int)
    requires BlocksTile(blocks, n)
    ensures OffsetsValid(AllCandidates(blocks), n)
    ensures forall j :: 0 <= j < |AllCandidates(blocks)| ==> AllCandidates(blocks)[j].utcNs >= 0
  {
    if blocks != [] {
      var m := |blocks| - 1;
      InitTile(blocks, n);
      CandidatesAscend(blocks[..m], blocks[m].sampleOffset);
      TilingCounts(blocks[..m], blocks[m].sampleOffset);
    }
  }

  /** The runs of one clock: consecutive timed blocks of the same boot and timing
      segment. */
  datatype Runs = Runs(closed: seq<seq<ControlPoint>>, clock: Option<(int, int)>, current: seq<ControlPoint>)

  function Close(r: Runs): seq<seq<ControlPoint>> {
    if r.current == [] then r.closed else r.closed + [r.current]
  }

  function AddBlock(r: Runs, b: Block): Runs {
    if b.firstUtcNs < 0 then r
    else if r.clock == Some((b.bootEpoch, b.timingSegment)) then r.(current := r.current + Candidates(b))
    else Runs(Close(r), Some((b.bootEpoch, b.timingSegment)), Candidates(b))
  }

  function RunsOf(blocks: seq<Block>): Runs {
    if blocks == [] then Runs([], None, []) else AddBlock(RunsOf(blocks[..|blocks| - 1]), blocks[|blocks| - 1])
  }

  function ConcatRuns(runs: seq<seq<ControlPoint>>): seq<ControlPoint> {
    if runs == [] then [] else ConcatRuns(runs[..|runs| - 1]) + runs[|runs| - 1]
  }

  lemma ConcatSnoc(runs: seq<seq<ControlPoint>>, run: seq<ControlPoint>)
    ensures ConcatRuns(runs + [run]) == ConcatRuns(runs) + run
  {
    assert (runs + [run])[..|runs|] == runs;
  }

  lemma CloseConcat(r: Runs)
    ensures ConcatRuns(Close(r)) == ConcatRuns(r.closed) + r.current
  {
    ConcatSnoc(r.closed, r.current);
    assert r.current == [] ==> ConcatRuns(r.closed) + r.current == ConcatRuns(r.closed);
  }

  lemma AddBlockConcat(r: Runs, b: Block)
    ensures ConcatRuns(AddBlock(r, b).closed) + AddBlock(r, b).current
            == (ConcatRuns(r.closed) + r.current) + Candidates(b)
  {
    CloseConcat(r);
  }

  /** The runs partition the candidates, in order. */
  lemma {:induction false} RunsPartition(blocks: seq<Block>)
    ensures ConcatRuns(RunsOf(blocks).closed) + RunsOf(blocks).current == AllCandidates(blocks)
  {
    if blocks != [] {
      RunsPartition(blocks[..|blocks| - 1]);
      AddBlockConcat(RunsOf(blocks[..|blocks| - 1]), blocks[|blocks| - 1]);
    }
  }

  /** Every point is a candidate of a block that runs on this clock. */
  ghost predicate OfClock(points: seq<ControlPoint>, blocks: seq<Block>, boot: int, segment: int) {
    forall p :: p in points ==>
        exists b :: b in blocks && p in Candidates(b) && b.bootEpoch == boot && b.timingSegment == segment
  }

  ghost predicate OneClock(points: seq<ControlPoint>, blocks: seq<Block>) {
    exists boot, segment :: OfClock(points, blocks, boot, segment)
  }

  lemma OfClockStays(points: seq<ControlPoint>, blocks: seq<Block>, b: Block, boot: int, segment: int)
    requires OfClock(points, blocks, boot, segment)
    ensures OfClock(points, blocks + [b], boot, segment)
  {
    forall p | p in points
      ensures exists c :: c in blocks + [b] && p in Candidates(c) && c.bootEpoch == boot && c.timingSegment == segment
    {
      var c :| c in blocks && p in Candidates(c) && c.bootEpoch == boot && c.timingSegment == segment;
      assert c in blocks + [b];
    }
  }

  /** No run mixes points of different clocks. */
  lemma {:induction false} RunsShareClock(blocks: seq<Block>)
    ensures forall run :: run in RunsOf(blocks).closed ==> OneClock(run, blocks)
    ensures RunsOf(blocks).current != [] ==>
      && RunsOf(blocks).clock.Some?
      && OfClock(RunsOf(blocks).current, blocks, RunsOf(blocks).clock.value.0, RunsOf(blocks).clock.value.1)
  {
    if blocks != [] {
      var init, b := blocks[..|blocks| - 1], blocks[|blocks| - 1];
      var r := RunsOf(init);
      RunsShareClock(init);
      assert blocks == init + [b] && b in blocks;
      forall run | run in r.closed
        ensures OneClock(run, blocks)
      {
        assert OneClock(run, init);
        var boot, segment :| OfClock(run, init, boot, segment);
        OfClockStays(run, init, b, boot, segment);
      }
      if r.current != [] {
        OfClockStays(r.current, init, b, r.clock.value.0, r.clock.value.1);
        assert OneClock(r.current, blocks);
      }
    }
  }

  lemma SelectionOrdered(points: seq<ControlPoint>, kept: seq<ControlPoint>, at: seq<nat>, n: int)
    requires Selection(points, kept, at)
    ensures OffsetsValid(points, n) ==> OffsetsValid(kept, n)
    ensures UtcAscending(points) ==> UtcAscending(kept)
  {
    forall j, k | 0 <= j < k < |kept|
      ensures at[j] < at[k] && kept[j] == points[at[j]] && kept[k] == points[at[k]]
    {}
  }
}
