/** The gap rows of an Archive: where they are put, and exactly when the validator
    finds them inside the measurement. */
module ArchiveGaps {
  import opened Options
  import opened Capture
  import opened CaptureReader
  import opened Archive
  import opened Compaction

  // ----- the rows -----

  predicate HoldsNumber(b: Block, q: int) { b.firstSeq <= q < b.firstSeq + b.sampleCount }

  /** The first block of the source whose sequence range holds a number. */
  function FirstHolding(blocks: seq<Block>, q: int): (b: Option<Block>)
    ensures b.Some? ==> b.value in blocks && HoldsNumber(b.value, q)
  {
    if blocks == [] then None
    else if HoldsNumber(blocks[0], q) then Some(blocks[0])
    else FirstHolding(blocks[1..], q)
  }

  /** A sequence gap stands before the sample that was received after it. */
  function SequenceRow(blocks: seq<Block>, sourceStart: int, g: NotedGap): GapRow {
    var b := FirstHolding(blocks, g.received);
    var at := if b.Some? then sourceStart + b.value.sampleOffset + g.received - b.value.firstSeq else sourceStart;
    GapRow(Capture.Max(0, at - 1), if b.Some? then b.value.bootEpoch else 0, g.expected, g.received,
           Capture.Max(0, g.received - g.expected), SequenceGap)
  }

  function FifoRow(blocks: seq<Block>, sourceStart: int, e: Event): GapRow {
    GapRow(AnchorOffset(blocks, sourceStart, e.anchor), e.boot, e.anchor, e.anchor, 0, FifoGap)
  }

  function SourceGapRows(s: Source, sourceStart: int): set<GapRow> {
    (set g | g in s.gaps :: SequenceRow(s.file.blocks, sourceStart, g))
    + (set e | e in s.events && e.code == FifoLoss :: FifoRow(s.file.blocks, sourceStart, e))
  }

  function GapRows(sources: seq<Source>): set<GapRow> {
    if sources == [] then {}
    else
      var n := |sources| - 1;
      GapRows(sources[..n]) + SourceGapRows(sources[n], |JoinedRaw(sources[..n])|)
  }

  method BuildGaps(sources: seq<Source>) returns (rows: set<GapRow>)
    ensures rows == GapRows(sources)
  {
    rows := {};
    var total := 0;
    for i := 0 to |sources|
      invariant rows == GapRows(sources[..i]) && total == |JoinedRaw(sources[..i])|
    {
      assert sources[..i + 1][..i] == sources[..i];
      var own := BuildSourceGaps(sources[i], total);
      rows := rows + own;
      total := total + |sources[i].file.raw|;
    }
    assert sources[..|sources|] == sources;
  }

  method BuildSourceGaps(s: Source, sourceStart: int) returns (rows: set<GapRow>)
    ensures rows == SourceGapRows(s, sourceStart)
  {
    rows := {};
    for i := 0 to |s.gaps|
      invariant rows == set g | g in s.gaps[..i] :: SequenceRow(s.file.blocks, sourceStart, g)
    {
      assert s.gaps[..i + 1] == s.gaps[..i] + [s.gaps[i]];
      rows := rows + {SequenceRow(s.file.blocks, sourceStart, s.gaps[i])};
    }
    assert s.gaps[..|s.gaps|] == s.gaps;
    ghost var noted := rows;
    for i := 0 to |s.events|
      invariant rows == noted
                + set e | e in s.events[..i] && e.code == FifoLoss :: FifoRow(s.file.blocks, sourceStart, e)
    {
      assert s.events[..i + 1] == s.events[..i] + [s.events[i]];
      if s.events[i].code == FifoLoss {
        rows := rows + {FifoRow(s.file.blocks, sourceStart, s.events[i])};
      }
    }
    assert s.events[..|s.events|] == s.events;
  }

  // ----- inside the measurement -----

  ghost predicate LosesFifo(s: Source) {
    exists e :: e in s.events && e.code == FifoLoss
  }

  /** A source with a gap is not all there is without samples, and a FIFO loss is
      not noted behind the last sample. */
  ghost predicate GapsPlaced(sources: seq<Source>) {
    forall i :: 0 <= i < |sources| ==>
      && (sources[i].gaps != [] ==> |JoinedRaw(sources)| > 0)
      && (LosesFifo(sources[i]) ==> |JoinedRaw(sources[..i])| < |JoinedRaw(sources)|)
  }

  lemma BlockInside(blocks: seq<Block>, n: int, b: Block)
    requires BlocksTile(blocks, n) && b in blocks
    ensures 0 <= b.sampleOffset && b.sampleOffset + b.sampleCount <= n
  {
    var k :| 0 <= k < |blocks| && blocks[k] == b;
    KeyAt(blocks, n, k, b.sampleCount - 1);
  }

  lemma SequenceRowInside(blocks: seq<Block>, n: int, sourceStart: nat, g: NotedGap)
    requires BlocksTile(blocks, n)
    ensures 0 <= SequenceRow(blocks, sourceStart, g).after
    ensures SequenceRow(blocks, sourceStart, g).after < Capture.Max(1, sourceStart + n)
  {
    var b := FirstHolding(blocks, g.received);
    if b.Some? {
      BlockInside(blocks, n, b.value);
    } else {
      TilingCounts(blocks, n);
    }
  }

  lemma {:induction false} AnchorInside(blocks: seq<Block>, n: int, sourceStart: int, anchor: int)
    requires BlocksTile(blocks, n)
    ensures var at := AnchorOffset(blocks, sourceStart, anchor);
            at == sourceStart || sourceStart <= at < sourceStart + n
  {
    if blocks != [] {
      var m := |blocks| - 1;
      BlockInside(blocks, n, blocks[m]);
      InitTile(blocks, n);
      AnchorInside(blocks[..m], blocks[m].sampleOffset, sourceStart, anchor);
    }
  }

  lemma {:induction false} JoinedPrefix(sources: seq<Source>, i: nat)
    requires i < |sources|
    ensures |JoinedRaw(sources[..i])| + |sources[i].file.raw| <= |JoinedRaw(sources)|
  {
    var n := |sources| - 1;
    if i < n {
      JoinedPrefix(sources[..n], i);
      assert sources[..n][..i] == sources[..i];
    }
  }

  ghost predicate NotedBy(sources: seq<Source>, i: nat, row: GapRow)
    requires i < |sources|
  {
    row in SourceGapRows(sources[i], |JoinedRaw(sources[..i])|)
  }

  lemma NotedByPrefix(sources: seq<Source>, n: nat, i: nat, row: GapRow)
    requires i < n <= |sources|
    ensures NotedBy(sources[..n], i, row) <==> NotedBy(sources, i, row)
  {
    assert sources[..n][..i] == sources[..i];
  }

  /** A gap row comes from one of the sources. */
  lemma {:induction false} GapRowsMember(sources: seq<Source>, row: GapRow)
    ensures row in GapRows(sources) <==> exists i :: 0 <= i < |sources| && NotedBy(sources, i, row)
  {
    if sources != [] {
      var n := |sources| - 1;
      GapRowsMember(sources[..n], row);
      forall i | 0 <= i < n
        ensures NotedBy(sources[..n], i, row) <==> NotedBy(sources, i, row)
      {
        NotedByPrefix(sources, n, i, row);
      }
      assert row in GapRows(sources) <==> row in GapRows(sources[..n]) || NotedBy(sources, n, row);
    }
  }

  /** The rows of one source are inside exactly under its part of the condition. */
  lemma SourceGapsIff(s: Source, sourceStart: nat, total: nat)
    requires BlocksTile(s.file.blocks, |s.file.raw|) && sourceStart + |s.file.raw| <= total
    ensures GapsInside(SourceGapRows(s, sourceStart), total)
            <==> (s.gaps != [] ==> total > 0) && (LosesFifo(s) ==> sourceStart < total)
  {
    var blocks, n := s.file.blocks, |s.file.raw|;
    forall g | g in s.gaps
      ensures 0 <= SequenceRow(blocks, sourceStart, g).after < Capture.Max(1, total)
    {
      SequenceRowInside(blocks, n, sourceStart, g);
    }
    forall e | e in s.events
      ensures FifoRow(blocks, sourceStart, e).after < total <==> sourceStart < total
    {
      AnchorInside(blocks, n, sourceStart, e.anchor);
    }
    if GapsInside(SourceGapRows(s, sourceStart), total) {
      if s.gaps != [] {
        assert s.gaps[0] in s.gaps;
        assert SequenceRow(blocks, sourceStart, s.gaps[0]) in SourceGapRows(s, sourceStart);
      }
      if e :| e in s.events && e.code == FifoLoss {
        assert FifoRow(blocks, sourceStart, e) in SourceGapRows(s, sourceStart);
      }
    }
  }

  /** All gap rows are inside the measurement exactly if the gaps are so placed. */
  lemma GapsInsideIff(sources: seq<Source>)
    requires ValidSources(sources)
    ensures GapsInside(GapRows(sources), |JoinedRaw(sources)|) <==> GapsPlaced(sources)
  {
    var total := |JoinedRaw(sources)|;
    forall i | 0 <= i < |sources|
      ensures GapsInside(SourceGapRows(sources[i], |JoinedRaw(sources[..i])|), total)
              <==> && (sources[i].gaps != [] ==> total > 0)
                   && (LosesFifo(sources[i]) ==> |JoinedRaw(sources[..i])| < total)
    {
      JoinedPrefix(sources, i);
      assert ValidCapture(sources[i].file, |sources[i].configurations|);
      SourceGapsIff(sources[i], |JoinedRaw(sources[..i])|, total);
    }
    GapsBySource(sources, total);
  }

  lemma GapsBySource(sources: seq<Source>, total: int)
    ensures GapsInside(GapRows(sources), total)
            <==> forall i :: 0 <= i < |sources| ==>
                GapsInside(SourceGapRows(sources[i], |JoinedRaw(sources[..i])|), total)
  {
    if GapsInside(GapRows(sources), total) {
      forall i, row | 0 <= i < |sources| && row in SourceGapRows(sources[i], |JoinedRaw(sources[..i])|)
        ensures total > 0 && row.after < total
      {
        assert NotedBy(sources, i, row);
        GapRowsMember(sources, row);
      }
    }
    if forall i :: 0 <= i < |sources| ==> GapsInside(SourceGapRows(sources[i], |JoinedRaw(sources[..i])|), total) {
      forall row | row in GapRows(sources)
        ensures total > 0 && row.after < total
      {
        GapRowsMember(sources, row);
        var i :| 0 <= i < |sources| && NotedBy(sources, i, row);
        assert GapsInside(SourceGapRows(sources[i], |JoinedRaw(sources[..i])|), total);
      }
    }
  }

  /** A FIFO loss noted in a last source without samples stands behind the
      measurement. */
  lemma TrailingLossOutside(s: Source, configurations: seq<Configuration>, anchor: int)
    requires ValidCapture(s.file, |s.configurations|) && configurations != []
    ensures var last := Source(File([], []), configurations, [], [Event(FifoLoss, 1, anchor)]);
            ValidSources([s, last]) && !GapsInside(GapRows([s, last]), |JoinedRaw([s, last])|)
  {
    var last := Source(File([], []), configurations, [], [Event(FifoLoss, 1, anchor)]);
    var sources := [s, last];
    assert last.events[0] in last.events && LosesFifo(last);
    assert sources[..1] == [s] && [s][..0] == [];
    GapsInsideIff(sources);
    assert LosesFifo(sources[1]) && |JoinedRaw(sources[..1])| == |JoinedRaw(sources)|;
  }
}
