/** What an Archive says about each sample, its gaps and its time stamps, in terms
    of the samples that the recorder has stored. */
module ArchiveMeaning {
  import opened Options
  import opened Capture
  import opened CaptureReader
  import opened CaptureRuns
  import opened BlockRows
  import opened ControlPoints
  import opened QualityRows
  import opened Archive
  import opened Compaction
  import opened Compactor
  import opened ArchiveGaps
  import opened ArchiveBuild
  import opened SourceRows

  /** A sample as the router leaves it: the flags tell whether it has a time, and
      its time is not before the epoch. */
  ghost predicate Resolved(s: Sample) {
    && (UtcValid in s.routing <==> s.utcNs.Some?)
    && (InitiallyUnsynced in s.routing <==> s.utcNs == None)
    && (s.utcNs.Some? ==> s.utcNs.value >= 0)
  }

  ghost predicate AllResolved(samples: seq<Sample>) {
    forall i :: 0 <= i < |samples| ==> Resolved(samples[i])
  }

  // ----- quality -----

  lemma {:induction false} QualityHere(blocks: seq<Block>, n: int, k: nat, i: int)
    requires BlocksTile(blocks, n) && k < |blocks|
    requires blocks[k].sampleOffset <= i < blocks[k].sampleOffset + blocks[k].sampleCount
    ensures BlockQualityAt(blocks, i) == QualityFromBlock(blocks[k])
    decreases |blocks|
  {
    var m := |blocks| - 1;
    if k < m {
      RowBefore(blocks, n, k);
      InitTile(blocks, n);
      QualityHere(blocks[..m], blocks[m].sampleOffset, k, i);
    }
  }

  /** The base quality of a sample. */
  ghost predicate QualityTells(q: set<Flag>, s: Sample) {
    && (TimeUnsynced in q <==> s.utcNs == None)
    && (TimeUncertain in q <==> s.utcNs == None || s.timingFlags / 4 % 2 == 1)
    && (MeasurementInvalid in q <==> s.timingFlags / 4 % 2 == 1)
    && (Flag.BoundaryUncertain in q <==> RoutingFlag.BoundaryUncertain in s.routing)
  }

  lemma BaseQuality(blocks: seq<Block>, samples: seq<Sample>, i: nat)
    requires AllTell(blocks, samples) && AllResolved(samples) && i < |samples|
    ensures QualityTells(BlockQualityAt(blocks, i), samples[i])
    ensures BlockQualityAt(blocks, i) <= {TimeUnsynced, TimeUncertain, MeasurementInvalid, Flag.BoundaryUncertain}
  {
    var k := RowOver(blocks, |samples|, i);
    var b := blocks[k];
    assert Tells(b, samples);
    QualityHere(blocks, |samples|, k, i);
    assert Resolved(samples[b.sampleOffset]) && Resolved(samples[i]);
    assert samples[b.sampleOffset].routing == b.routing == samples[i].routing;
  }

  // ----- events -----

  /** What an event at this position says of sample i. */
  ghost predicate Says(e: Compaction.Event, at: int, i: int, flag: Flag) {
    match e.code
    case FifoLoss =>
      flag == SensorLossAdjacent && (if at <= 0 then 0 <= i <= 2 else at - 1 <= i <= at + 1)
    case Recovery => flag == SensorRecovery && i == at
    case ConfigurationChange => flag == ConfigChanged && i == at
    case CalibrationChange => flag == ConfigChanged && i == at
    case OtherEvent => false
  }

  /** Some event of source j, at the last sample of its number, says so. */
  ghost predicate SaidBy(sources: seq<Source>, histories: seq<History>, j: nat, i: int, flag: Flag)
    requires j < |sources| == |histories|
  {
    exists e, at :: e in sources[j].events && Says(e, at, i, flag)
      && LastOf(Stored(histories[j]), |AllStored(histories[..j])|, e.anchor, at)
  }

  lemma {:induction false} CoveringMember(overlays: seq<OverlayRow>, i: int, flag: Flag)
    ensures flag in CoveringFlags(overlays, i) <==>
              exists o :: o in overlays && o.flag == flag && Within(o.start, o.count, i)
  {
    if overlays != [] {
      var n := |overlays| - 1;
      CoveringMember(overlays[..n], i, flag);
      assert overlays == overlays[..n] + [overlays[n]];
    }
  }

  lemma {:induction false} EventOverlayMember(
    blocks: seq<Block>, sourceStart: int, events: seq<Compaction.Event>, o: OverlayRow)
    ensures o in EventOverlays(blocks, sourceStart, events) <==>
              exists e :: e in events && o in EventOverlay(blocks, sourceStart, e)
  {
    if events != [] {
      var n := |events| - 1;
      EventOverlayMember(blocks, sourceStart, events[..n], o);
      assert events == events[..n] + [events[n]];
    }
  }

  ghost predicate OverlaidBy(sources: seq<Source>, j: nat, o: OverlayRow)
    requires j < |sources|
  {
    o in EventOverlays(sources[j].file.blocks, |JoinedRaw(sources[..j])|, sources[j].events)
  }

  lemma OverlaidPrefix(sources: seq<Source>, n: nat, j: nat, o: OverlayRow)
    requires j < n <= |sources|
    ensures OverlaidBy(sources[..n], j, o) <==> OverlaidBy(sources, j, o)
  {
    assert sources[..n][..j] == sources[..j];
  }

  lemma LastOverlays(sources: seq<Source>, o: OverlayRow)
    requires sources != []
    ensures var n := |sources| - 1;
            o in OverlaysOf(sources) <==> o in OverlaysOf(sources[..n]) || OverlaidBy(sources, n, o)
  {
  }

  lemma {:induction false} OverlayMember(sources: seq<Source>, o: OverlayRow)
    ensures o in OverlaysOf(sources) <==> exists j :: 0 <= j < |sources| && OverlaidBy(sources, j, o)
  {
    if sources != [] {
      var n := |sources| - 1;
      OverlayMember(sources[..n], o);
      LastOverlays(sources, o);
      forall j | 0 <= j < n
        ensures OverlaidBy(sources[..n], j, o) <==> OverlaidBy(sources, j, o)
      {
        OverlaidPrefix(sources, n, j, o);
      }
    }
  }

  lemma LastUnique(samples: seq<Sample>, sourceStart: int, number: int, at: int, at': int)
    requires LastOf(samples, sourceStart, number, at) && LastOf(samples, sourceStart, number, at')
    ensures at == at'
  {
    if !NoneOf(samples, number) {
      var r :| 0 <= r < |samples| && samples[r].sampleSeq == number && at == sourceStart + r
        && forall q :: r < q < |samples| ==> samples[q].sampleSeq != number;
      var r' :| 0 <= r' < |samples| && samples[r'].sampleSeq == number && at' == sourceStart + r'
        && forall q :: r' < q < |samples| ==> samples[q].sampleSeq != number;
    }
  }

  lemma OverlaySays(blocks: seq<Block>, sourceStart: int, e: Compaction.Event, i: int, flag: Flag)
    requires AnchorOffset(blocks, sourceStart, e.anchor) >= 0
    ensures (exists o :: o in EventOverlay(blocks, sourceStart, e) && o.flag == flag && Within(o.start, o.count, i))
            <==> Says(e, AnchorOffset(blocks, sourceStart, e.anchor), i, flag)
  {
    var row := EventOverlay(blocks, sourceStart, e);
    if row != [] {
      assert row == [row[0]];
    }
  }

  ghost predicate EventSays(sources: seq<Source>, j: nat, i: int, flag: Flag)
    requires j < |sources|
  {
    exists o :: OverlaidBy(sources, j, o) && o.flag == flag && Within(o.start, o.count, i)
  }

  lemma SourceSays(sources: seq<Source>, histories: seq<History>, j: nat, i: int, flag: Flag)
    requires WrittenBy(sources, histories) && j < |sources|
    ensures EventSays(sources, j, i, flag) <==> SaidBy(sources, histories, j, i, flag)
  {
    var blocks, start, samples := sources[j].file.blocks, |JoinedRaw(sources[..j])|, Stored(histories[j]);
    SourceStored(sources, histories, j);
    forall e: Compaction.Event
      ensures LastOf(samples, start, e.anchor, AnchorOffset(blocks, start, e.anchor))
      ensures (exists o :: o in EventOverlay(blocks, start, e) && o.flag == flag && Within(o.start, o.count, i))
              <==> Says(e, AnchorOffset(blocks, start, e.anchor), i, flag)
    {
      AnchorIsLast(blocks, samples, start, e.anchor);
      OverlaySays(blocks, start, e, i, flag);
    }
    if EventSays(sources, j, i, flag) {
      var o :| OverlaidBy(sources, j, o) && o.flag == flag && Within(o.start, o.count, i);
      EventOverlayMember(blocks, start, sources[j].events, o);
      var e :| e in sources[j].events && o in EventOverlay(blocks, start, e);
      assert Says(e, AnchorOffset(blocks, start, e.anchor), i, flag);
    }
    if SaidBy(sources, histories, j, i, flag) {
      var e, at :| e in sources[j].events && Says(e, at, i, flag) && LastOf(samples, start, e.anchor, at);
      LastUnique(samples, start, e.anchor, at, AnchorOffset(blocks, start, e.anchor));
      var o :| o in EventOverlay(blocks, start, e) && o.flag == flag && Within(o.start, o.count, i);
      EventOverlayMember(blocks, start, sources[j].events, o);
    }
  }

  lemma EventFlags(sources: seq<Source>, histories: seq<History>, i: int, flag: Flag)
    requires WrittenBy(sources, histories)
    ensures flag in CoveringFlags(OverlaysOf(sources), i)
            <==> exists j: nat :: j < |sources| && SaidBy(sources, histories, j, i, flag)
  {
    CoveringMember(OverlaysOf(sources), i, flag);
    forall j: nat | j < |sources|
      ensures EventSays(sources, j, i, flag) <==> SaidBy(sources, histories, j, i, flag)
    {
      SourceSays(sources, histories, j, i, flag);
    }
    if flag in CoveringFlags(OverlaysOf(sources), i) {
      var o :| o in OverlaysOf(sources) && o.flag == flag && Within(o.start, o.count, i);
      OverlayMember(sources, o);
      var j :| 0 <= j < |sources| && OverlaidBy(sources, j, o);
      assert EventSays(sources, j, i, flag);
    }
    if j: nat :| j < |sources| && SaidBy(sources, histories, j, i, flag) {
      assert EventSays(sources, j, i, flag);
      var o :| OverlaidBy(sources, j, o) && o.flag == flag && Within(o.start, o.count, i);
      OverlayMember(sources, o);
    }
  }

  ghost predicate OfEvent(flag: Flag) { flag in {SensorLossAdjacent, SensorRecovery, ConfigChanged} }

  lemma {:induction false} EventKinds(blocks: seq<Block>, sourceStart: int, events: seq<Compaction.Event>)
    ensures forall o :: o in EventOverlays(blocks, sourceStart, events) ==> OfEvent(o.flag)
  {
    if events != [] {
      EventKinds(blocks, sourceStart, events[..|events| - 1]);
    }
  }

  lemma OverlayKinds(sources: seq<Source>, i: int, flag: Flag)
    ensures flag in CoveringFlags(OverlaysOf(sources), i) ==> OfEvent(flag)
  {
    CoveringMember(OverlaysOf(sources), i, flag);
    if flag in CoveringFlags(OverlaysOf(sources), i) {
      var o :| o in OverlaysOf(sources) && o.flag == flag && Within(o.start, o.count, i);
      OverlayMember(sources, o);
      var j :| 0 <= j < |sources| && OverlaidBy(sources, j, o);
      EventKinds(sources[j].file.blocks, |JoinedRaw(sources[..j])|, sources[j].events);
    }
  }

  /** The flags of an event are those of the overlays, the others those of the
      block. */
  lemma FlagsApart(q: set<Flag>, base: set<Flag>, covering: set<Flag>, s: Sample)
    requires q == base + covering && QualityTells(base, s) && forall flag :: flag in covering ==> OfEvent(flag)
    requires base <= {TimeUnsynced, TimeUncertain, MeasurementInvalid, Flag.BoundaryUncertain}
    ensures QualityTells(q, s) && CalibrationUnknown !in q
    ensures forall flag :: OfEvent(flag) ==> (flag in q <==> flag in covering)
  {
  }

  /** What a published Archive says of the quality of sample i: whether it has a
      time, whether that and the measurement are to be trusted, whether it was
      uncertain in which window it lies, and what events lie next to it. */
  lemma ArchiveQuality(a: ArchiveFile, sources: seq<Source>, histories: seq<History>, i: nat)
    requires ValidSources(sources) && Faithful(a, sources) && WrittenBy(sources, histories)
    requires AllResolved(AllStored(histories)) && i < |a.raw|
    ensures a.raw == RawOf(AllStored(histories)) && QualityTells(FlagsAt(a.quality, i), AllStored(histories)[i])
    ensures forall flag :: OfEvent(flag) ==>
              (flag in FlagsAt(a.quality, i)
               <==> exists j: nat :: j < |sources| && SaidBy(sources, histories, j, i, flag))
    ensures CalibrationUnknown !in FlagsAt(a.quality, i)
  {
    JoinedTell(sources, histories);
    BaseQuality(Joined(sources), AllStored(histories), i);
    var covering := CoveringFlags(OverlaysOf(sources), i);
    forall flag
      ensures flag in covering <==> exists j: nat :: j < |sources| && SaidBy(sources, histories, j, i, flag)
      ensures flag in covering ==> OfEvent(flag)
    {
      EventFlags(sources, histories, i, flag);
      OverlayKinds(sources, i, flag);
    }
    FlagsApart(FlagsAt(a.quality, i), BlockQualityAt(Joined(sources), i), covering, AllStored(histories)[i]);
  }

  // ----- gaps -----

  lemma {:induction false} FirstHoldingRow(blocks: seq<Block>, number: int) returns (k: nat)
    ensures FirstHolding(blocks, number) == None ==> forall j :: 0 <= j < |blocks| ==> !HoldsNumber(blocks[j], number)
    ensures FirstHolding(blocks, number).Some? ==>
              && k < |blocks| && blocks[k] == FirstHolding(blocks, number).value
              && HoldsNumber(blocks[k], number) && forall j :: 0 <= j < k ==> !HoldsNumber(blocks[j], number)
  {
    k := 0;
    if blocks != [] && !HoldsNumber(blocks[0], number) {
      k := FirstHoldingRow(blocks[1..], number);
      k := k + 1;
      assert forall j :: 0 < j < |blocks| ==> blocks[j] == blocks[1..][j - 1];
    }
  }

  lemma FirstHoldingIsFirst(blocks: seq<Block>, samples: seq<Sample>, number: int)
    requires AllTell(blocks, samples)
    ensures FirstHolding(blocks, number) == None ==> NoneOf(samples, number)
    ensures FirstHolding(blocks, number).Some? ==>
              var b := FirstHolding(blocks, number).value;
              var r := b.sampleOffset + number - b.firstSeq;
              FirstOf(samples, number, r) && samples[r].bootEpoch == b.bootEpoch
  {
    var k := FirstHoldingRow(blocks, number);
    if FirstHolding(blocks, number).Some? {
      NumbersOf(blocks[k], samples, number);
    }
    forall q | 0 <= q < |samples| && samples[q].sampleSeq == number
      ensures FirstHolding(blocks, number).Some? && q >= blocks[k].sampleOffset + number - blocks[k].firstSeq
    {
      var j := NumberAt(blocks, samples, q);
      assert HoldsNumber(blocks[j], number);
      if k < j {
        RowsAscend(blocks, |samples|, k, j);
      }
    }
  }

  /** The row of a noted gap: before the first sample of the number received, or
      before the source if there is none, and how many numbers are missing. */
  ghost predicate GapTold(row: GapRow, g: NotedGap, samples: seq<Sample>, sourceStart: int) {
    && row.kind == SequenceGap && row.expected == g.expected && row.received == g.received
    && row.missing == (if g.received > g.expected then g.received - g.expected else 0)
    && (NoneOf(samples, g.received) ==> row.boot == 0 && row.after == if sourceStart > 0 then sourceStart - 1 else 0)
    && (forall r :: FirstOf(samples, g.received, r) ==>
         && row.boot == samples[r].bootEpoch
         && row.after == if sourceStart + r > 0 then sourceStart + r - 1 else 0)
  }

  /** The row of a FIFO loss: at the last sample of its number. */
  ghost predicate LossTold(row: GapRow, e: Compaction.Event, samples: seq<Sample>, sourceStart: int) {
    && e.code == FifoLoss && row.kind == FifoGap && row.boot == e.boot && row.missing == 0
    && row.expected == row.received == e.anchor && LastOf(samples, sourceStart, e.anchor, row.after)
  }

  /** The row is that of a gap or of a loss in source j. */
  ghost predicate ToldBy(row: GapRow, sources: seq<Source>, histories: seq<History>, j: nat)
    requires j < |sources| == |histories|
  {
    var samples, start := Stored(histories[j]), |AllStored(histories[..j])|;
    || (exists g :: g in sources[j].gaps && GapTold(row, g, samples, start))
    || (exists e :: e in sources[j].events && LossTold(row, e, samples, start))
  }

  lemma FirstUnique(samples: seq<Sample>, number: int, r: int, r': int)
    requires FirstOf(samples, number, r) && FirstOf(samples, number, r')
    ensures r == r'
  {
  }

  lemma SequenceRowTold(blocks: seq<Block>, samples: seq<Sample>, sourceStart: nat, g: NotedGap, row: GapRow)
    requires AllTell(blocks, samples)
    ensures GapTold(row, g, samples, sourceStart) <==> row == SequenceRow(blocks, sourceStart, g)
  {
    FirstHoldingIsFirst(blocks, samples, g.received);
    var b := FirstHolding(blocks, g.received);
    if b.Some? {
      var r := b.value.sampleOffset + g.received - b.value.firstSeq;
      assert FirstOf(samples, g.received, r) && !NoneOf(samples, g.received);
      forall r' | FirstOf(samples, g.received, r')
        ensures r' == r
      {
        FirstUnique(samples, g.received, r, r');
      }
    } else {
      assert NoneOf(samples, g.received) && forall r :: !FirstOf(samples, g.received, r);
    }
  }

  lemma FifoRowTold(blocks: seq<Block>, samples: seq<Sample>, sourceStart: nat, e: Compaction.Event, row: GapRow)
    requires AllTell(blocks, samples)
    ensures LossTold(row, e, samples, sourceStart) <==> e.code == FifoLoss && row == FifoRow(blocks, sourceStart, e)
  {
    AnchorIsLast(blocks, samples, sourceStart, e.anchor);
    if LossTold(row, e, samples, sourceStart) {
      LastUnique(samples, sourceStart, e.anchor, row.after, AnchorOffset(blocks, sourceStart, e.anchor));
    }
  }

  lemma {:induction false} SourceTold(row: GapRow, sources: seq<Source>, histories: seq<History>, j: nat)
    requires WrittenBy(sources, histories) && j < |sources|
    ensures NotedBy(sources, j, row) <==> ToldBy(row, sources, histories, j)
  {
    var blocks, start, samples := sources[j].file.blocks, |JoinedRaw(sources[..j])|, Stored(histories[j]);
    SourceStored(sources, histories, j);
    forall g: NotedGap
      ensures GapTold(row, g, samples, start) <==> row == SequenceRow(blocks, start, g)
    {
      SequenceRowTold(blocks, samples, start, g, row);
    }
    forall e: Compaction.Event
      ensures LossTold(row, e, samples, start) <==> e.code == FifoLoss && row == FifoRow(blocks, start, e)
    {
      FifoRowTold(blocks, samples, start, e, row);
    }
  }

  /** The gap rows of a published Archive are exactly those of the gaps and FIFO
      losses its sources note. */
  lemma ArchiveGapsTold(a: ArchiveFile, sources: seq<Source>, histories: seq<History>, row: GapRow)
    requires ValidSources(sources) && Faithful(a, sources) && WrittenBy(sources, histories)
    ensures row in a.gaps <==> exists j: nat :: j < |sources| && ToldBy(row, sources, histories, j)
  {
    GapRowsMember(sources, row);
    forall j: nat | j < |sources|
      ensures NotedBy(sources, j, row) <==> ToldBy(row, sources, histories, j)
    {
      SourceTold(row, sources, histories, j);
    }
  }

  // ----- segments and configurations -----

  lemma {:induction false} JoinedRow(sources: seq<Source>, j: nat, k: nat)
    requires j < |sources| && k < |sources[j].file.blocks|
    ensures var m := |Joined(sources[..j])| + k;
            m < |Joined(sources)| && Joined(sources)[m] == Shift(sources[j].file.blocks[k], |JoinedRaw(sources[..j])|)
  {
    var n := |sources| - 1;
    if j < n {
      JoinedRow(sources[..n], j, k);
      assert sources[..n][..j] == sources[..j];
    }
  }

  lemma LastConfigured(segments: seq<Segment>, m: nat, own: seq<Configuration>, rows: seq<Configuration>, k: nat)
    requires m + k < |segments| && AllConfigured(segments[m..], own, rows)
    ensures Configured(segments[m + k], own, rows)
  {
    assert segments[m..][k] == segments[m + k];
  }

  lemma JoinedSize(sources: seq<Source>)
    requires sources != []
    ensures var n := |sources| - 1; |Joined(sources)| == |Joined(sources[..n])| + |sources[n].file.blocks|
  {
  }

  lemma {:induction false} ConfiguredRow(
    sources: seq<Source>, segments: seq<Segment>, rows: seq<Configuration>, j: nat, k: nat)
    requires SourcesConfigured(sources, segments, rows) && |segments| == |Joined(sources)|
    requires j < |sources| && k < |sources[j].file.blocks|
    ensures var m := |Joined(sources[..j])| + k;
            m < |segments| && Configured(segments[m], sources[j].configurations, rows)
    decreases |sources|
  {
    var n := |sources| - 1;
    var before := |Joined(sources[..n])|;
    JoinedSize(sources);
    if j < n {
      assert sources[..n][..j] == sources[..j];
      ConfiguredRow(sources[..n], segments[..before], rows, j, k);
    } else {
      LastConfigured(segments, before, sources[n].configurations, rows, k);
    }
  }

  /** The settings are those of the configuration of this source that has the latest
      start among those which start at or before the number, in this boot or in any;
      of several with that start, the first. */
  ghost predicate SettingsAt(own: seq<Configuration>, boot: int, number: int, settings: seq<int>) {
    exists c :: 0 <= c < |own| && own[c].settings == settings && Started(own[c], boot, number)
      && forall d :: 0 <= d < |own| && Started(own[d], boot, number) ==>
          own[d].startSeq < own[c].startSeq || (own[d].startSeq == own[c].startSeq && c <= d)
  }

  ghost predicate Started(c: Configuration, boot: int, number: int) {
    c.startSeq <= number && (c.startBoot == 0 || c.startBoot == boot)
  }

  lemma InForceSettings(own: seq<Configuration>, boot: int, number: int, c: nat)
    requires InForce(own, boot, number, c)
    ensures SettingsAt(own, boot, number, own[c].settings)
  {
    assert forall d: Configuration :: Started(d, boot, number) <==> Eligible(d, boot, number);
  }

  /** The segment covers sample i and says its boot, number and timing segment, and
      that its source was configured so when the segment began. */
  ghost predicate SegmentTells(a: ArchiveFile, k: nat, s: Sample, i: int, own: seq<Configuration>)
    requires k < |a.segments|
  {
    var g := a.segments[k];
    && g.sampleOffset <= i < g.sampleOffset + g.sampleCount
    && s.bootEpoch == g.bootEpoch && s.sampleSeq == g.firstSeq + i - g.sampleOffset
    && s.timingSegment == g.timingSegment
    && 0 <= g.configurationIndex < |a.configurations|
    && SettingsAt(own, g.bootEpoch, g.firstSeq, a.configurations[g.configurationIndex].settings)
  }

  lemma {:induction false} StoredAt(histories: seq<History>, j: nat, r: nat)
    requires j < |histories| && r < |Stored(histories[j])|
    ensures var i := |AllStored(histories[..j])| + r;
            i < |AllStored(histories)| && AllStored(histories)[i] == Stored(histories[j])[r]
  {
    var n := |histories| - 1;
    if j < n {
      StoredAt(histories[..n], j, r);
      assert histories[..n][..j] == histories[..j];
    }
  }

  /** Sample r of source j stands in the Archive behind the samples of the sources
      before it, and a segment there tells where it came from and how its sensor was
      configured. */
  lemma {:induction false} ArchiveSegment(
    a: ArchiveFile, sources: seq<Source>, histories: seq<History>, j: nat, r: nat)
    returns (k: nat)
    requires ValidSources(sources) && Faithful(a, sources) && WrittenBy(sources, histories)
    requires j < |sources| && r < |Stored(histories[j])|
    ensures var i, s := |AllStored(histories[..j])| + r, Stored(histories[j])[r];
            && i < |a.raw| && a.raw[i] == s.raw
            && k < |a.segments| && SegmentTells(a, k, s, i, sources[j].configurations)
  {
    JoinedStored(sources, histories);
    RawAt(a.raw, histories, j, r);
    var own := OwnRow(sources, histories, j, r);
    k := SegmentOf(a, sources, j, own);
    var b, i := sources[j].file.blocks[own], |AllStored(histories[..j])| + r;
    SegmentOver(a, k, b, Stored(histories[j]), r, i - r, sources[j].configurations);
  }

  lemma {:induction false} RawAt(raw: seq<Xyz>, histories: seq<History>, j: nat, r: nat)
    requires raw == RawOf(AllStored(histories)) && j < |histories| && r < |Stored(histories[j])|
    ensures var i := |AllStored(histories[..j])| + r; i < |raw| && raw[i] == Stored(histories[j])[r].raw
  {
    StoredAt(histories, j, r);
  }

  /** The segment of a row of source j. */
  lemma {:induction false} SegmentOf(a: ArchiveFile, sources: seq<Source>, j: nat, own: nat) returns (k: nat)
    requires ValidSources(sources) && Faithful(a, sources)
    requires j < |sources| && own < |sources[j].file.blocks|
    ensures k < |a.segments| && Configured(a.segments[k], sources[j].configurations, a.configurations)
    ensures var b := Shift(sources[j].file.blocks[own], |JoinedRaw(sources[..j])|);
            a.segments[k] == Compactor.SegmentOf(b, a.segments[k].configurationIndex)
  {
    k := |Joined(sources[..j])| + own;
    JoinedRow(sources, j, own);
    ConfiguredRow(sources, a.segments, a.configurations, j, own);
  }

  predicate Over(g: Segment, i: int) { g.sampleOffset <= i < g.sampleOffset + g.sampleCount }

  /** No sample lies in two segments. */
  lemma OneSegment(a: ArchiveFile, sources: seq<Source>, j: nat, k: nat, i: int)
    requires ValidSources(sources) && Faithful(a, sources)
    requires j < |a.segments| && k < |a.segments| && Over(a.segments[j], i) && Over(a.segments[k], i)
    ensures j == k
  {
    JoinedTiles(sources);
    MatchKeepsTiling(a.segments, Joined(sources), |a.raw|);
    OneRow(AsBlocks(a.segments), |a.raw|, j, k, i);
  }

  lemma OneRow(blocks: seq<Block>, n: int, j: nat, k: nat, i: int)
    requires BlocksTile(blocks, n) && j < |blocks| && k < |blocks|
    requires blocks[j].sampleOffset <= i < blocks[j].sampleOffset + blocks[j].sampleCount
    requires blocks[k].sampleOffset <= i < blocks[k].sampleOffset + blocks[k].sampleCount
    ensures j == k
  {
    if j < k {
      RowsAscend(blocks, n, j, k);
    } else if k < j {
      RowsAscend(blocks, n, k, j);
    }
  }

  lemma SegmentOver(
    a: ArchiveFile, k: nat, b: Block, samples: seq<Sample>, r: nat, start: int, own: seq<Configuration>)
    requires Tells(b, samples) && b.sampleOffset <= r < b.sampleOffset + b.sampleCount && r < |samples|
    requires k < |a.segments| && Configured(a.segments[k], own, a.configurations)
    requires a.segments[k] == Compactor.SegmentOf(Shift(b, start), a.segments[k].configurationIndex)
    ensures SegmentTells(a, k, samples[r], start + r, own)
  {
    var g := a.segments[k];
    var c: nat :| InForce(own, g.bootEpoch, g.firstSeq, c)
      && a.configurations[g.configurationIndex].settings == own[c].settings;
    InForceSettings(own, g.bootEpoch, g.firstSeq, c);
  }
}
