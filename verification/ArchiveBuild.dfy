/** The rest of the compaction: quality rows, events, control points, and the
    final validation of the finished rows. */
module ArchiveBuild {
  import opened Options
  import opened Capture
  import opened CaptureReader
  import opened ControlPoints
  import opened QualityRows
  import opened Archive
  import opened Selections
  import opened Compaction
  import opened Compactor
  import opened ArchiveGaps

  // ----- placed blocks -----

  method PlacedBlocks(sources: seq<Source>) returns (blocks: seq<Block>)
    ensures blocks == Joined(sources)
  {
    blocks := [];
    var total := 0;
    for i := 0 to |sources|
      invariant blocks == Joined(sources[..i]) && total == |JoinedRaw(sources[..i])|
    {
      JoinedStep(sources, i);
      blocks := blocks + ShiftAll(sources[i].file.blocks, total);
      total := total + |sources[i].file.raw|;
    }
    assert sources[..|sources|] == sources;
  }

  // ----- quality -----

  method BuildQuality(blocks: seq<Block>) returns (rows: seq<Row>)
    ensures rows == QualityOf(blocks)
  {
    rows := [];
    for k := 0 to |blocks|
      invariant rows == QualityOf(blocks[..k])
    {
      assert blocks[..k + 1][..k] == blocks[..k];
      rows := AddQuality(rows, QualityRow(blocks[k]));
    }
    assert blocks[..|blocks|] == blocks;
  }

  /** Search backwards for the block that holds the anchor. */
  method FindAnchor(blocks: seq<Block>, sourceStart: int, anchor: int) returns (offset: int)
    ensures offset == AnchorOffset(blocks, sourceStart, anchor)
  {
    var k := |blocks|;
    assert blocks[..k] == blocks;
    while k > 0
      invariant 0 <= k <= |blocks|
      invariant AnchorOffset(blocks, sourceStart, anchor) == AnchorOffset(blocks[..k], sourceStart, anchor)
    {
      assert blocks[..k][..k - 1] == blocks[..k - 1];
      k := k - 1;
      var b := blocks[k];
      if b.firstSeq <= anchor < b.firstSeq + b.sampleCount {
        return sourceStart + b.sampleOffset + anchor - b.firstSeq;
      }
    }
    offset := sourceStart;
  }

  method SourceOverlays(s: Source, sourceStart: int) returns (overlays: seq<OverlayRow>)
    ensures overlays == EventOverlays(s.file.blocks, sourceStart, s.events)
  {
    overlays := [];
    for i := 0 to |s.events|
      invariant overlays == EventOverlays(s.file.blocks, sourceStart, s.events[..i])
    {
      assert s.events[..i + 1][..i] == s.events[..i];
      var e := s.events[i];
      if e.code != OtherEvent {
        var at := FindAnchor(s.file.blocks, sourceStart, e.anchor);
        if e.code == FifoLoss {
          overlays := overlays + [OverlayRow(Capture.Max(0, at - 1), 3, SensorLossAdjacent)];
        } else if e.code == Recovery {
          overlays := overlays + [OverlayRow(at, 1, SensorRecovery)];
        } else {
          overlays := overlays + [OverlayRow(at, 1, ConfigChanged)];
        }
      }
    }
    assert s.events[..|s.events|] == s.events;
  }

  method AllOverlays(sources: seq<Source>) returns (overlays: seq<OverlayRow>)
    ensures overlays == OverlaysOf(sources)
  {
    overlays := [];
    var total := 0;
    for i := 0 to |sources|
      invariant overlays == OverlaysOf(sources[..i]) && total == |JoinedRaw(sources[..i])|
    {
      assert sources[..i + 1][..i] == sources[..i];
      JoinedStep(sources, i);
      var own := SourceOverlays(sources[i], total);
      overlays := overlays + own;
      total := total + |sources[i].file.raw|;
    }
    assert sources[..|sources|] == sources;
  }

  /** Every sample gets the flags of every event that covers it, and no others. */
  method ApplyOverlays(base: seq<Row>, total: nat, overlays: seq<OverlayRow>) returns (rows: seq<Row>)
    requires Tiles(base, 0, total) && Canonical(base)
    ensures Tiles(rows, 0, total) && Canonical(rows)
    ensures forall i :: 0 <= i < total ==> FlagsAt(rows, i) == FlagsAt(base, i) + CoveringFlags(overlays, i)
  {
    rows := base;
    for k := 0 to |overlays|
      invariant Tiles(rows, 0, total) && Canonical(rows)
      invariant forall i :: 0 <= i < total ==> FlagsAt(rows, i) == FlagsAt(base, i) + CoveringFlags(overlays[..k], i)
    {
      var o := overlays[k];
      var room := Capture.Max(0, total - o.start);
      var count := if o.count <= room then o.count else room;
      var next := Overlay(rows, 0, total, o.start, count, {o.flag});
      forall i | 0 <= i < total
        ensures FlagsAt(next, i) == FlagsAt(base, i) + CoveringFlags(overlays[..k + 1], i)
      {
        assert overlays[..k + 1][..k] == overlays[..k];
        assert FlagsAt(next, i) == Overlaid(FlagsAt(rows, i), o.start, count, {o.flag}, i);
      }
      rows := next;
    }
    assert overlays[..|overlays|] == overlays;
  }

  // ----- control points -----

  method BuildRuns(blocks: seq<Block>) returns (runs: seq<seq<ControlPoint>>)
    ensures runs == Close(RunsOf(blocks))
    ensures ConcatRuns(runs) == AllCandidates(blocks)
  {
    var closed: seq<seq<ControlPoint>>, clock: Option<(int, int)>, current: seq<ControlPoint> := [], None, [];
    for k := 0 to |blocks|
      invariant Runs(closed, clock, current) == RunsOf(blocks[..k])
    {
      assert blocks[..k + 1][..k] == blocks[..k];
      var b := blocks[k];
      if b.firstUtcNs >= 0 {
        var key := Some((b.bootEpoch, b.timingSegment));
        if key != clock {
          if current != [] {
            closed := closed + [current];
          }
          current := [];
          clock := key;
        }
        var points := Candidates(b);
        assert [] + points == points;
        current := current + points;
      }
    }
    assert blocks[..|blocks|] == blocks;
    RunsPartition(blocks);
    CloseConcat(RunsOf(blocks));
    runs := if current == [] then closed else closed + [current];
  }

  /** Points at the same offset are kept once; with ascending offsets there are
      none. */
  method Unique(run: seq<ControlPoint>) returns (unique: seq<ControlPoint>)
    ensures PointsAscend(run) ==> unique == run
  {
    unique := [];
    for k := 0 to |run|
      invariant PointsAscend(run) ==> unique == run[..k]
    {
      if unique != [] && unique[|unique| - 1].offset == run[k].offset {
        unique := unique[..|unique| - 1] + [run[k]];
      } else {
        unique := unique + [run[k]];
      }
    }
  }

  /** Every candidate is kept, or lies within the tolerance of the line between
      two consecutive kept points that enclose it. */
  ghost predicate Recovered(p: ControlPoint, controls: seq<ControlPoint>, tolerance: int) {
    p in controls || exists j :: Reconstructs(controls, j, p, tolerance)
  }

  ghost predicate AllRecovered(points: seq<ControlPoint>, controls: seq<ControlPoint>, tolerance: int) {
    forall i :: 0 <= i < |points| ==> Recovered(points[i], controls, tolerance)
  }

  lemma RecoveredInMore(
    p: ControlPoint, before: seq<ControlPoint>, kept: seq<ControlPoint>, after: seq<ControlPoint>, tolerance: int)
    requires Recovered(p, kept, tolerance)
    ensures Recovered(p, before + kept + after, tolerance)
  {
    var all := before + kept + after;
    if p in kept {
      assert p in before + kept;
    } else {
      var j :| Reconstructs(kept, j, p, tolerance);
      assert all[|before| + j] == kept[j] && all[|before| + j + 1] == kept[j + 1];
      assert Reconstructs(all, |before| + j, p, tolerance);
    }
  }

  lemma AllRecoveredAppend(
    points: seq<ControlPoint>, controls: seq<ControlPoint>, run: seq<ControlPoint>, kept: seq<ControlPoint>,
    tolerance: int)
    requires AllRecovered(points, controls, tolerance) && AllRecovered(run, kept, tolerance)
    ensures AllRecovered(points + run, controls + kept, tolerance)
  {
    forall i | 0 <= i < |points + run|
      ensures Recovered((points + run)[i], controls + kept, tolerance)
    {
      if i < |points| {
        RecoveredInMore(points[i], [], controls, kept, tolerance);
        assert [] + controls + kept == controls + kept;
      } else {
        RecoveredInMore(run[i - |points|], controls, kept, [], tolerance);
        assert controls + kept + [] == controls + kept;
      }
    }
  }

  function ShiftIndices(base: nat, idx: seq<nat>): (at: seq<nat>)
    ensures |at| == |idx| && forall j :: 0 <= j < |idx| ==> at[j] == base + idx[j]
  {
    seq(|idx|, j requires 0 <= j < |idx| => base + idx[j])
  }

  lemma SelectionAppend(points: seq<ControlPoint>, kept: seq<ControlPoint>, at: seq<nat>,
                        run: seq<ControlPoint>, part: seq<ControlPoint>, idx: seq<nat>)
    requires Selection(points, kept, at) && Selection(run, part, idx)
    ensures Selection(points + run, kept + part, at + ShiftIndices(|points|, idx))
  {
    var at' := at + ShiftIndices(|points|, idx);
    forall j | 0 <= j < |at'|
      ensures at'[j] < |points + run| && (kept + part)[j] == (points + run)[at'[j]]
    {
      if j >= |at| {
        assert at'[j] == |points| + idx[j - |at|];
      }
    }
    forall j, k | 0 <= j < k < |at'|
      ensures at'[j] < at'[k]
    {
      if j >= |at| {
        assert idx[j - |at|] < idx[k - |at|];
      }
    }
  }

  lemma AscendParts(a: seq<ControlPoint>, b: seq<ControlPoint>)
    requires PointsAscend(a + b)
    ensures PointsAscend(a) && PointsAscend(b)
  {
    var c := a + b;
    assert forall i :: 0 <= i < |a| ==> a[i] == c[i];
    forall j, k | 0 <= j < k < |b|
      ensures b[j].offset < b[k].offset
    {
      assert b[j] == c[|a| + j] && b[k] == c[|a| + k];
    }
  }

  lemma {:induction false} RunsAscend(runs: seq<seq<ControlPoint>>, r: nat)
    requires r < |runs| && PointsAscend(ConcatRuns(runs))
    ensures PointsAscend(runs[r])
    decreases |runs|
  {
    var n := |runs| - 1;
    AscendParts(ConcatRuns(runs[..n]), runs[n]);
    if r < n {
      RunsAscend(runs[..n], r);
    }
  }

  method SimplifyRun(run: seq<ControlPoint>, tolerance: int) returns (kept: seq<ControlPoint>, ghost idx: seq<nat>)
    requires tolerance >= 0 && PointsAscend(run)
    ensures Selection(run, kept, idx) && AllRecovered(run, kept, tolerance)
  {
    var unique := Unique(run);
    kept, idx := Simplify(unique, tolerance);
    RunRecovered(run, tolerance, idx, kept);
  }

  lemma RunRecovered(run: seq<ControlPoint>, tolerance: int, idx: seq<nat>, kept: seq<ControlPoint>)
    requires tolerance >= 0 && PointsAscend(run) && Simplification(run, tolerance, idx, kept)
    ensures Selection(run, kept, idx) && AllRecovered(run, kept, tolerance)
  {
    forall i | 0 <= i < |run|
      ensures Recovered(run[i], kept, tolerance)
    {
      if |run| >= 2 {
        TimingReconstructed(run, tolerance, idx, kept, i);
      } else {
        assert kept[0] == run[idx[0]];
      }
    }
  }

  /** Each run is simplified by itself; together the kept points are a selection
      of the candidates from which all of them are recovered. */
  method SimplifyRuns(runs: seq<seq<ControlPoint>>, tolerance: int)
    returns (controls: seq<ControlPoint>, ghost at: seq<nat>)
    requires tolerance >= 0 && PointsAscend(ConcatRuns(runs))
    ensures Selection(ConcatRuns(runs), controls, at) && AllRecovered(ConcatRuns(runs), controls, tolerance)
  {
    controls, at := [], [];
    ghost var points: seq<ControlPoint> := [];
    for r := 0 to |runs|
      invariant points == ConcatRuns(runs[..r])
      invariant Selection(points, controls, at) && AllRecovered(points, controls, tolerance)
    {
      RunsAscend(runs, r);
      var kept, idx := SimplifyRun(runs[r], tolerance);
      SelectionAppend(points, controls, at, runs[r], kept, idx);
      AllRecoveredAppend(points, controls, runs[r], kept, tolerance);
      ConcatSnoc(runs[..r], runs[r]);
      assert runs[..r + 1] == runs[..r] + [runs[r]];
      at := at + ShiftIndices(|points|, idx);
      controls, points := controls + kept, points + runs[r];
    }
    assert runs[..|runs|] == runs;
  }

  // ----- the archive -----

  /** What an archive of these sources must say. */
  ghost predicate Faithful(a: ArchiveFile, sources: seq<Source>)
    requires ValidSources(sources)
  {
    && a.raw == JoinedRaw(sources)
    && SegmentsMatch(a.segments, Joined(sources))
    && CountsValid(AsBlocks(a.segments)) && AllKeys(AsBlocks(a.segments)) == SourceKeys(sources)
    && SourcesConfigured(sources, a.segments, a.configurations) && ConfigurationsKept(sources, a.configurations)
    && Canonical(a.quality)
    && (forall i :: 0 <= i < |a.raw| ==>
         FlagsAt(a.quality, i) == BlockQualityAt(Joined(sources), i) + CoveringFlags(OverlaysOf(sources), i))
    && a.gaps == GapRows(sources)
    && |a.sourceCounts| == |sources|
    && (forall i :: 0 <= i < |sources| ==> a.sourceCounts[i] == |sources[i].file.raw|)
  }

  /** The archived timing: a selection of the time stamps of the sources from
      which all of them are recovered within the tolerance. */
  ghost predicate Timed(a: ArchiveFile, sources: seq<Source>, tolerance: int, at: seq<nat>) {
    && Selection(AllCandidates(Joined(sources)), a.controls, at)
    && AllRecovered(AllCandidates(Joined(sources)), a.controls, tolerance)
  }

  method AssembleRows(
    sources: seq<Source>, tolerance: int, raw: seq<Xyz>, segments: seq<Segment>, rows: seq<Configuration>,
    counts: seq<int>)
    returns (a: ArchiveFile, ghost at: seq<nat>)
    requires tolerance >= 0 && ValidSources(sources)
    requires Placed(sources, |sources|, raw, segments, rows, counts)
    ensures Faithful(a, sources) && Timed(a, sources, tolerance, at)
    ensures Tiles(a.quality, 0, |a.raw|) && a.sampleCount == |a.raw| == Sum(a.sourceCounts)
    ensures a == ArchiveFile(raw, segments, rows, a.quality, a.controls, a.gaps, counts, |raw|)
  {
    assert sources[..|sources|] == sources;
    JoinedTiles(sources);
    MatchKeepsKeys(segments, Joined(sources));
    var blocks := PlacedBlocks(sources);
    var base := BuildQuality(blocks);
    QualityOfBlocks(blocks, |raw|);
    var overlays := AllOverlays(sources);
    var quality := ApplyOverlays(base, |raw|, overlays);
    var runs := BuildRuns(blocks);
    CandidatesAscend(blocks, |raw|);
    var controls;
    controls, at := SimplifyRuns(runs, tolerance);
    var gaps := BuildGaps(sources);
    a := ArchiveFile(raw, segments, rows, quality, controls, gaps, counts, |raw|);
  }

  datatype BuildResult =
    | Built(archive: ArchiveFile)
    | NegativeTolerance
    | NoSources
    | InvalidCapture(source: nat)
    | Failed(failure: Failure)
    | Unpublishable(errors: seq<ArchiveError>)

  /** The rows handed to the final validation fail it exactly if the samples are
      not in stream order across the sources, the kept times do not ascend, or a
      gap is noted outside the measurement. */
  lemma RowsValidIff(a: ArchiveFile, sources: seq<Source>, tolerance: int, at: seq<nat>)
    requires ValidSources(sources) && Faithful(a, sources) && Timed(a, sources, tolerance, at)
    requires Tiles(a.quality, 0, |a.raw|) && a.sampleCount == |a.raw| == Sum(a.sourceCounts)
    ensures ValidArchive(a) <==> Ascending(SourceKeys(sources)) && UtcAscending(a.controls) && GapsPlaced(sources)
  {
    var blocks := Joined(sources);
    JoinedTiles(sources);
    MatchKeepsTiling(a.segments, blocks, |a.raw|);
    StreamOrderIsSampleOrder(AsBlocks(a.segments), |a.raw|);
    CandidatesAscend(blocks, |a.raw|);
    SelectionOrdered(AllCandidates(blocks), a.controls, at, |a.raw|);
    IndicesValid(sources, a.segments, a.configurations);
    GapsInsideIff(sources);
  }

  lemma {:induction false} IndicesValid(sources: seq<Source>, segments: seq<Segment>, rows: seq<Configuration>)
    requires SourcesConfigured(sources, segments, rows)
    ensures forall k :: 0 <= k < |segments| ==> 0 <= segments[k].configurationIndex < |rows|
    decreases |sources|
  {
    if sources != [] {
      var n := |sources| - 1;
      var m := |Joined(sources[..n])|;
      IndicesValid(sources[..n], segments[..m], rows);
      forall k | 0 <= k < |segments|
        ensures 0 <= segments[k].configurationIndex < |rows|
      {
        if k < m {
          assert segments[k] == segments[..m][k];
        } else {
          assert segments[k] == segments[m..][k - m];
          assert Configured(segments[m..][k - m], sources[n].configurations, rows);
        }
      }
    }
  }

  lemma {:induction false} JoinedTyped(sources: seq<Source>)
    requires forall i :: 0 <= i < |sources| ==> WellTyped(sources[i].file.blocks)
    ensures WellTyped(Joined(sources))
  {
    if sources != [] {
      JoinedTyped(sources[..|sources| - 1]);
      var blocks := sources[|sources| - 1].file.blocks;
      assert WellTyped(blocks);
      assert WellTyped(ShiftAll(blocks, |JoinedRaw(sources[..|sources| - 1])|));
    }
  }

  lemma MatchTyped(segments: seq<Segment>, blocks: seq<Block>)
    requires SegmentsMatch(segments, blocks) && WellTyped(blocks)
    ensures WellTyped(AsBlocks(segments))
  {
    forall k | 0 <= k < |segments|
      ensures AsBlock(segments[k]).sampleCount >= 0 && AsBlock(segments[k]).firstSeq >= 0
    {
      assert segments[k] == SegmentOf(blocks[k], segments[k].configurationIndex);
    }
  }

  method ValidateSources(sources: seq<Source>) returns (bad: int)
    requires forall i :: 0 <= i < |sources| ==> WellTyped(sources[i].file.blocks)
    ensures bad == -1 ==> ValidSources(sources)
    ensures bad != -1 ==> 0 <= bad < |sources| && !ValidCapture(sources[bad].file, |sources[bad].configurations|)
  {
    bad := -1;
    for i := 0 to |sources|
      invariant forall j :: 0 <= j < i ==> ValidCapture(sources[j].file, |sources[j].configurations|)
    {
      var errors := Validate(sources[i].file, |sources[i].configurations|);
      if errors != [] {
        return i;
      }
    }
  }

  /** Everything a caller can check beforehand that makes compaction succeed. */
  ghost predicate Compactable(sources: seq<Source>) {
    && sources != [] && ValidSources(sources)
    && (forall i :: 0 <= i < |sources| ==> !SomeUncovered(sources[i]))
    && Ascending(SourceKeys(sources))
    && UtcAscending(AllCandidates(Joined(sources)))
    && GapsPlaced(sources)
  }

  lemma AscendingIsDistinct(keys: seq<Key>)
    ensures Ascending(keys) ==> Distinct(keys)
  {}

  /** A published archive is valid and says what the sources say; compaction does
      not fail without one of the reasons given. */
  method Build(sources: seq<Source>, tolerance: int)
    returns (r: BuildResult, ghost at: seq<nat>)
    requires forall i :: 0 <= i < |sources| ==> WellTyped(sources[i].file.blocks)
    ensures r.NegativeTolerance? <==> tolerance < 0
    ensures r.NoSources? <==> tolerance >= 0 && sources == []
    ensures r.InvalidCapture? ==>
        r.source < |sources| && !ValidCapture(sources[r.source].file, |sources[r.source].configurations|)
    ensures r.Built? || r.Failed? || r.Unpublishable? ==> ValidSources(sources)
    ensures r == Failed(Duplicate) ==> !Distinct(SourceKeys(sources))
    ensures r == Failed(Unconfigured) ==> exists i :: 0 <= i < |sources| && SomeUncovered(sources[i])
    ensures r.Unpublishable? ==>
              !(Ascending(SourceKeys(sources)) && UtcAscending(AllCandidates(Joined(sources))) && GapsPlaced(sources))
    ensures r.Built? ==> ValidArchive(r.archive) && Faithful(r.archive, sources)
                         && Timed(r.archive, sources, tolerance, at)
    ensures r.Built? ==> Ascending(SourceKeys(sources)) && GapsPlaced(sources)
    ensures tolerance >= 0 && Compactable(sources) ==> r.Built?
  {
    at := [];
    if tolerance < 0 {
      r := NegativeTolerance;
      return;
    }
    if sources == [] {
      r := NoSources;
      return;
    }
    var bad := ValidateSources(sources);
    if bad != -1 {
      assert !ValidSources(sources);
      r := InvalidCapture(bad);
      return;
    }
    AscendingIsDistinct(SourceKeys(sources));
    var failure, raw, segments, rows, counts := PlaceAll(sources);
    if failure != None {
      if failure.value == Unconfigured {
        assert !Compactable(sources);
      }
      r := Failed(failure.value);
      return;
    }
    r, at := Finish(sources, tolerance, raw, segments, rows, counts);
  }

  method Finish(
    sources: seq<Source>, tolerance: int, raw: seq<Xyz>, segments: seq<Segment>, rows: seq<Configuration>,
    counts: seq<int>)
    returns (r: BuildResult, ghost at: seq<nat>)
    requires tolerance >= 0 && ValidSources(sources)
    requires forall i :: 0 <= i < |sources| ==> WellTyped(sources[i].file.blocks)
    requires Placed(sources, |sources|, raw, segments, rows, counts)
    ensures r.Built? || r.Unpublishable?
    ensures r.Built? ==> ValidArchive(r.archive) && Faithful(r.archive, sources)
                         && Timed(r.archive, sources, tolerance, at)
                         && Ascending(SourceKeys(sources)) && GapsPlaced(sources)
    ensures r.Unpublishable? ==>
              !(Ascending(SourceKeys(sources)) && UtcAscending(AllCandidates(Joined(sources))) && GapsPlaced(sources))
  {
    var a;
    a, at := AssembleRows(sources, tolerance, raw, segments, rows, counts);
    RowsValidIff(a, sources, tolerance, at);
    SelectionOrdered(AllCandidates(Joined(sources)), a.controls, at, |a.raw|);
    JoinedTyped(sources);
    MatchTyped(a.segments, Joined(sources));
    var errors := ValidateArchive(a);
    r := if errors == [] then Built(a) else Unpublishable(errors);
  }

  /** Sample by sample: the archive holds at position i the raw value and the
      identity of sample i of the sources read one after the other. */
  lemma ArchiveSample(a: ArchiveFile, sources: seq<Source>, i: nat)
    requires ValidSources(sources) && Faithful(a, sources) && i < |a.raw|
    ensures |AllKeys(AsBlocks(a.segments))| == |SourceKeys(sources)| == |JoinedRaw(sources)| == |a.raw|
    ensures a.raw[i] == JoinedRaw(sources)[i]
    ensures AllKeys(AsBlocks(a.segments))[i] == SourceKeys(sources)[i]
  {
    JoinedTiles(sources);
    TilingCounts(Joined(sources), |JoinedRaw(sources)|);
  }
}
