/** The rows of an Archive file and its strict structural validator. */
module Archive {
  import opened Capture
  import opened CaptureReader
  import opened ControlPoints
  import opened QualityRows

  /** One configuration interval; `settings` are all its columns except the two
      that say where it starts. */
  datatype Configuration = Configuration(startBoot: int, startSeq: int, settings: seq<int>)

  datatype Segment = Segment(sampleOffset: int, sampleCount: int, bootEpoch: int, firstSeq: int,
                             timingSegment: int, configurationIndex: int)

  datatype GapKind = SequenceGap | FifoGap

  datatype GapRow = GapRow(after: int, boot: int, expected: int, received: int, missing: int, kind: GapKind)

  /** Gap rows are stored sorted and without repetition: a set. */
  datatype ArchiveFile = ArchiveFile(
    raw: seq<Xyz>,
    segments: seq<Segment>,
    configurations: seq<Configuration>,
    quality: seq<Row>,
    controls: seq<ControlPoint>,
    gaps: set<GapRow>,
    sourceCounts: seq<int>,
    sampleCount: int)

  /** The stream columns of a segment, as a block row. */
  function AsBlock(s: Segment): Block {
    Block(s.sampleOffset, s.sampleCount, s.bootEpoch, s.firstSeq, s.timingSegment, 0, 0, 0, -1, -1, 0, 0, {})
  }

  function AsBlocks(segments: seq<Segment>): (blocks: seq<Block>)
    ensures |blocks| == |segments|
    ensures forall k :: 0 <= k < |segments| ==> blocks[k] == AsBlock(segments[k])
  {
    seq(|segments|, k requires 0 <= k < |segments| => AsBlock(segments[k]))
  }

  function Sum(counts: seq<int>): int {
    if counts == [] then 0 else Sum(counts[..|counts| - 1]) + counts[|counts| - 1]
  }

  // ----- validity -----

  ghost predicate SegmentsValid(a: ArchiveFile) {
    && BlocksTile(AsBlocks(a.segments), |a.raw|)
    && StreamOrdered(AsBlocks(a.segments))
    && forall k :: 0 <= k < |a.segments| ==> a.segments[k].configurationIndex < |a.configurations|
  }

  ghost predicate OffsetsValid(controls: seq<ControlPoint>, n: int) {
    && (forall k :: 0 <= k < |controls| ==> 0 <= controls[k].offset < n)
    && (forall j, k :: 0 <= j < k < |controls| ==> controls[j].offset < controls[k].offset)
  }

  ghost predicate UtcAscending(controls: seq<ControlPoint>) {
    && (forall k :: 0 <= k < |controls| ==> controls[k].utcNs >= 0)
    && (forall j, k :: 0 <= j < k < |controls| ==> controls[j].utcNs < controls[k].utcNs)
  }

  ghost predicate GapsInside(gaps: set<GapRow>, n: int) {
    forall g :: g in gaps ==> n > 0 && g.after < n
  }

  ghost predicate ValidArchive(a: ArchiveFile) {
    && (forall i :: 0 <= i < |a.raw| ==> Signed24(a.raw[i]))
    && SegmentsValid(a)
    && Tiles(a.quality, 0, |a.raw|)
    && OffsetsValid(a.controls, |a.raw|) && UtcAscending(a.controls)
    && GapsInside(a.gaps, |a.raw|)
    && Sum(a.sourceCounts) == |a.raw| == a.sampleCount
  }

  // ----- the validator -----

  datatype ArchiveError =
    | RawOutsideSigned24
    | SegmentGap(index: nat)
    | BadConfiguration(index: nat)
    | Overlap(index: nat)
    | SegmentCoverage
    | QualityGap(index: nat)
    | QualityCoverage
    | ControlOutside(index: nat)
    | ControlOrder
    | ControlUtcOrder
    | GapOutside(gap: GapRow)
    | Provenance
    | Summary

  ghost predicate SegmentOk(a: ArchiveFile, k: nat)
    requires k < |a.segments|
  {
    var blocks := AsBlocks(a.segments);
    && blocks[k].sampleOffset == OffsetBefore(blocks, k)
    && blocks[k].sampleCount > 0
    && a.segments[k].configurationIndex < |a.configurations|
    && LaterThanEarlier(blocks, k)
  }

  ghost predicate SegmentsOk(a: ArchiveFile, n: nat)
    requires n <= |a.segments|
  {
    n == 0 || (SegmentsOk(a, n - 1) && SegmentOk(a, n - 1))
  }

  method CheckSegment(a: ArchiveFile, k: nat, expected: int, last: map<int, int>)
    returns (errors: seq<ArchiveError>, last': map<int, int>)
    requires k < |a.segments| && WellTyped(AsBlocks(a.segments))
    requires expected == OffsetBefore(AsBlocks(a.segments), k)
    requires Tracks(last, AsBlocks(a.segments), k)
    ensures errors == [] <==> SegmentOk(a, k)
    ensures Tracks(last', AsBlocks(a.segments), k + 1)
  {
    errors := [];
    var s := a.segments[k];
    if s.sampleOffset != expected || s.sampleCount == 0 {
      errors := errors + [SegmentGap(k)];
    }
    if s.configurationIndex >= |a.configurations| {
      errors := errors + [BadConfiguration(k)];
    }
    if s.bootEpoch in last && s.firstSeq <= last[s.bootEpoch] {
      errors := errors + [Overlap(k)];
    }
    ghost var blocks := AsBlocks(a.segments);
    assert blocks[k] == AsBlock(s);
    TrackedOrder(last, blocks, k);
    var previous := if s.bootEpoch in last then last[s.bootEpoch] else -1;
    last' := last[s.bootEpoch := Capture.Max(previous, s.firstSeq + Capture.Max(0, s.sampleCount) - 1)];
    TrackStep(last, blocks, k, last');
  }

  method CheckSegments(a: ArchiveFile) returns (errors: seq<ArchiveError>)
    requires WellTyped(AsBlocks(a.segments))
    ensures errors == [] <==> SegmentsOk(a, |a.segments|) && OffsetBefore(AsBlocks(a.segments), |a.segments|) == |a.raw|
  {
    errors := [];
    var expected := 0;
    var last: map<int, int> := map[];
    for k := 0 to |a.segments|
      invariant expected == OffsetBefore(AsBlocks(a.segments), k)
      invariant Tracks(last, AsBlocks(a.segments), k)
      invariant errors == [] <==> SegmentsOk(a, k)
    {
      var found, last' := CheckSegment(a, k, expected, last);
      errors := errors + found;
      last := last';
      expected := a.segments[k].sampleOffset + a.segments[k].sampleCount;
    }
    if expected != |a.raw| {
      errors := errors + [SegmentCoverage];
    }
  }

  lemma {:induction false} SegmentsOkEach(a: ArchiveFile, n: nat)
    requires n <= |a.segments|
    ensures SegmentsOk(a, n) <==> forall k :: 0 <= k < n ==> SegmentOk(a, k)
  {
    if n > 0 {
      SegmentsOkEach(a, n - 1);
    }
  }

  lemma OffsetChecksAreTiling(blocks: seq<Block>, n: int)
    ensures (forall k :: 0 <= k < |blocks| ==>
               blocks[k].sampleOffset == OffsetBefore(blocks, k) && blocks[k].sampleCount > 0)
            && OffsetBefore(blocks, |blocks|) == n
            <==> BlocksTile(blocks, n)
  {
    if forall k :: 0 <= k < |blocks| ==>
        blocks[k].sampleOffset == OffsetBefore(blocks, k) && blocks[k].sampleCount > 0 {
      forall k | 0 < k < |blocks|
        ensures blocks[k].sampleOffset == EndOf(blocks[k - 1])
      {
        assert blocks[k].sampleOffset == OffsetBefore(blocks, k);
      }
    }
  }

  lemma OrderChecksAreOrder(blocks: seq<Block>)
    ensures (forall k :: 0 <= k < |blocks| ==> LaterThanEarlier(blocks, k)) <==> StreamOrdered(blocks)
  {
    if forall k :: 0 <= k < |blocks| ==> LaterThanEarlier(blocks, k) {
      forall j, k | 0 <= j < k < |blocks| && blocks[j].bootEpoch == blocks[k].bootEpoch
        ensures LastSeq(blocks[j]) < blocks[k].firstSeq
      {
        assert LaterThanEarlier(blocks, k);
      }
    }
  }

  lemma SegmentChecksAreValidity(a: ArchiveFile)
    ensures SegmentsOk(a, |a.segments|) && OffsetBefore(AsBlocks(a.segments), |a.segments|) == |a.raw|
            <==> SegmentsValid(a)
  {
    SegmentsOkEach(a, |a.segments|);
    OffsetChecksAreTiling(AsBlocks(a.segments), |a.raw|);
    OrderChecksAreOrder(AsBlocks(a.segments));
    SegmentsOkParts(a);
  }

  lemma SegmentsOkParts(a: ArchiveFile)
    ensures var blocks := AsBlocks(a.segments);
            (forall k :: 0 <= k < |a.segments| ==> SegmentOk(a, k))
            <==> && (forall k :: 0 <= k < |blocks| ==>
                       blocks[k].sampleOffset == OffsetBefore(blocks, k) && blocks[k].sampleCount > 0)
                 && (forall k :: 0 <= k < |a.segments| ==> a.segments[k].configurationIndex < |a.configurations|)
                 && (forall k :: 0 <= k < |blocks| ==> LaterThanEarlier(blocks, k))
  {
    if forall k :: 0 <= k < |a.segments| ==> SegmentOk(a, k) {
      forall k | 0 <= k < |a.segments|
        ensures AsBlocks(a.segments)[k].sampleOffset == OffsetBefore(AsBlocks(a.segments), k)
                && AsBlocks(a.segments)[k].sampleCount > 0
        ensures a.segments[k].configurationIndex < |a.configurations| && LaterThanEarlier(AsBlocks(a.segments), k)
      {
        assert SegmentOk(a, k);
      }
    }
  }

  ghost predicate RowOk(rows: seq<Row>, k: nat)
    requires k < |rows|
  {
    rows[k].count > 0 && rows[k].start == if k == 0 then 0 else rows[k - 1].Stop()
  }

  ghost predicate RowsOk(rows: seq<Row>, n: nat)
    requires n <= |rows|
  {
    n == 0 || (RowsOk(rows, n - 1) && RowOk(rows, n - 1))
  }

  lemma {:induction false} RowsOkEach(rows: seq<Row>, n: nat)
    requires n <= |rows|
    ensures RowsOk(rows, n) <==> forall k :: 0 <= k < n ==> RowOk(rows, k)
  {
    if n > 0 {
      RowsOkEach(rows, n - 1);
    }
  }

  method CheckQuality(rows: seq<Row>, n: int) returns (errors: seq<ArchiveError>)
    requires forall k :: 0 <= k < |rows| ==> rows[k].count >= 0
    ensures errors == [] <==> Tiles(rows, 0, n)
  {
    errors := [];
    var expected := 0;
    for k := 0 to |rows|
      invariant expected == if k == 0 then 0 else rows[k - 1].Stop()
      invariant errors == [] <==> RowsOk(rows, k)
    {
      if rows[k].start != expected || rows[k].count == 0 {
        errors := errors + [QualityGap(k)];
      }
      expected := rows[k].Stop();
    }
    if expected != n {
      errors := errors + [QualityCoverage];
    }
    RowChecksAreTiling(rows, n);
  }

  lemma RowChecksAreTiling(rows: seq<Row>, n: int)
    ensures RowsOk(rows, |rows|) && n == (if rows == [] then 0 else rows[|rows| - 1].Stop()) <==> Tiles(rows, 0, n)
  {
    RowsOkEach(rows, |rows|);
    if RowsOk(rows, |rows|) {
      forall k | 0 <= k < |rows|
        ensures rows[k].count > 0
      {
        assert RowOk(rows, k);
      }
      forall k | 0 < k < |rows|
        ensures rows[k].start == rows[k - 1].Stop()
      {
        assert RowOk(rows, k);
      }
      assert rows != [] ==> RowOk(rows, 0);
    }
  }

  ghost predicate ControlsUpTo(controls: seq<ControlPoint>, n: int, m: nat)
    requires m <= |controls|
  {
    && (forall k :: 0 <= k < m ==> 0 <= controls[k].offset < n && controls[k].utcNs >= 0)
    && (forall k :: 0 < k < m ==>
        controls[k - 1].offset < controls[k].offset && controls[k - 1].utcNs < controls[k].utcNs)
  }

  method CheckControls(controls: seq<ControlPoint>, n: int) returns (errors: seq<ArchiveError>)
    ensures errors == [] <==> OffsetsValid(controls, n) && UtcAscending(controls)
  {
    errors := [];
    var previous, previousUtc := -1, -1;
    for k := 0 to |controls|
      invariant errors == [] ==> previous == if k == 0 then -1 else controls[k - 1].offset
      invariant errors == [] ==> previousUtc == if k == 0 then -1 else controls[k - 1].utcNs
      invariant errors == [] ==> ControlsUpTo(controls, n, k)
      invariant errors != [] ==> !(OffsetsValid(controls, n) && UtcAscending(controls))
    {
      if controls[k].offset < 0 || controls[k].offset >= n {
        errors := errors + [ControlOutside(k)];
      }
      if controls[k].offset <= previous {
        if errors == [] && k > 0 { assert controls[k - 1].offset >= controls[k].offset; }
        errors := errors + [ControlOrder];
        break;
      }
      if controls[k].utcNs <= previousUtc {
        if errors == [] && k > 0 { assert controls[k - 1].utcNs >= controls[k].utcNs; }
        errors := errors + [ControlUtcOrder];
        break;
      }
      previous, previousUtc := controls[k].offset, controls[k].utcNs;
    }
    if errors == [] {
      ControlsAscend(controls, n, |controls|);
    }
  }

  lemma {:induction false} ControlsAscend(controls: seq<ControlPoint>, n: int, m: nat)
    requires m <= |controls| && ControlsUpTo(controls, n, m)
    ensures forall j, k :: 0 <= j < k < m ==>
        controls[j].offset < controls[k].offset && controls[j].utcNs < controls[k].utcNs
  {
    if m > 1 {
      ControlsAscend(controls, n, m - 1);
      forall j, k | 0 <= j < k < m
        ensures controls[j].offset < controls[k].offset && controls[j].utcNs < controls[k].utcNs
      {
        if k == m - 1 {
          assert controls[k - 1].offset < controls[k].offset && controls[k - 1].utcNs < controls[k].utcNs;
        }
      }
    }
  }

  method CheckGaps(gaps: set<GapRow>, n: nat) returns (errors: seq<ArchiveError>)
    ensures errors == [] <==> GapsInside(gaps, n)
  {
    errors := [];
    var todo := gaps;
    while todo != {}
      invariant todo <= gaps && (errors == [] <==> GapsInside(gaps - todo, n))
      decreases todo
    {
      var g :| g in todo;
      assert gaps - (todo - {g}) == (gaps - todo) + {g};
      if n == 0 || g.after >= n {
        errors := errors + [GapOutside(g)];
      }
      todo := todo - {g};
    }
    assert gaps - {} == gaps;
  }

  method Total(counts: seq<int>) returns (sum: int)
    ensures sum == Sum(counts)
  {
    sum := 0;
    for i := 0 to |counts|
      invariant sum == Sum(counts[..i])
    {
      assert counts[..i + 1][..i] == counts[..i];
      sum := sum + counts[i];
    }
    assert counts[..|counts|] == counts;
  }

  /** No error is reported exactly for the valid archives. */
  method ValidateArchive(a: ArchiveFile) returns (errors: seq<ArchiveError>)
    requires WellTyped(AsBlocks(a.segments))
    requires forall k :: 0 <= k < |a.quality| ==> a.quality[k].count >= 0
    ensures errors == [] <==> ValidArchive(a)
  {
    var inRange := true;
    for i := 0 to |a.raw|
      invariant inRange <==> forall j :: 0 <= j < i ==> Signed24(a.raw[j])
    {
      if !Signed24(a.raw[i]) {
        inRange := false;
      }
    }
    errors := if inRange then [] else [RawOutsideSigned24];
    var found := CheckSegments(a);
    SegmentChecksAreValidity(a);
    errors := errors + found;
    found := CheckQuality(a.quality, |a.raw|);
    errors := errors + found;
    found := CheckControls(a.controls, |a.raw|);
    errors := errors + found;
    found := CheckGaps(a.gaps, |a.raw|);
    errors := errors + found;
    var accounted := Total(a.sourceCounts);
    if accounted != |a.raw| {
      errors := errors + [Provenance];
    }
    if a.sampleCount != |a.raw| {
      errors := errors + [Summary];
    }
  }

  /** In a valid archive the segments partition the rows and all sample
      identities are distinct. */
  lemma ValidArchiveIdentities(a: ArchiveFile)
    requires ValidArchive(a)
    ensures CountsValid(AsBlocks(a.segments))
    ensures |AllKeys(AsBlocks(a.segments))| == |a.raw|
    ensures Ascending(AllKeys(AsBlocks(a.segments))) && Distinct(AllKeys(AsBlocks(a.segments)))
  {
    TilingCounts(AsBlocks(a.segments), |a.raw|);
    OrderedBlocksAscend(AsBlocks(a.segments));
  }
}
