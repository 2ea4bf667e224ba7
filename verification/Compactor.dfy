/** The compactor: one Archive from any number of sealed Captures. */
module Compactor {
  import opened Options
  import opened Capture
  import opened CaptureReader
  import opened CaptureRuns
  import opened Selections
  import opened Archive
  import opened Compaction

  datatype Failure = Duplicate | Unconfigured

  // ----- configurations -----

  /** The map from settings to archive rows, and the rows. */
  ghost predicate ConfigTable(index: map<seq<int>, nat>, rows: seq<Configuration>) {
    && |index| == |rows|
    && (forall s :: s in index ==> index[s] < |rows| && rows[index[s]].settings == s)
    && (forall k :: 0 <= k < |rows| ==> rows[k].settings in index)
  }

  /** The rows are, in order, the first of all configurations with their settings. */
  ghost predicate FirstSeen(all: seq<Configuration>, rows: seq<Configuration>, at: seq<nat>) {
    && Selection(all, rows, at)
    && (forall j, k :: 0 <= j < k < |rows| ==> rows[j].settings != rows[k].settings)
    && (forall p :: 0 <= p < |all| ==> SeenBefore(all, rows, at, p))
  }

  ghost predicate SeenBefore(all: seq<Configuration>, rows: seq<Configuration>, at: seq<nat>, p: nat)
    requires p < |all| && |at| == |rows|
  {
    exists k :: 0 <= k < |rows| && at[k] <= p && rows[k].settings == all[p].settings
  }

  lemma SeenAgain(all: seq<Configuration>, rows: seq<Configuration>, at: seq<nat>, c: Configuration, k: nat)
    requires FirstSeen(all, rows, at) && k < |rows| && rows[k].settings == c.settings
    ensures FirstSeen(all + [c], rows, at)
  {
    SelectionSnoc(all, rows, at, c);
    forall p | 0 <= p < |all + [c]|
      ensures SeenBefore(all + [c], rows, at, p)
    {
      if p < |all| {
        assert SeenBefore(all, rows, at, p);
      }
    }
  }

  lemma SeenFirst(all: seq<Configuration>, rows: seq<Configuration>, at: seq<nat>, c: Configuration)
    requires FirstSeen(all, rows, at) && forall k :: 0 <= k < |rows| ==> rows[k].settings != c.settings
    ensures FirstSeen(all + [c], rows + [c], at + [|all|])
  {
    SelectionSnoc(all, rows, at, c);
    forall p | 0 <= p < |all + [c]|
      ensures SeenBefore(all + [c], rows + [c], at + [|all|], p)
    {
      if p < |all| {
        assert SeenBefore(all, rows, at, p);
        var k :| 0 <= k < |rows| && at[k] <= p && rows[k].settings == all[p].settings;
        assert (rows + [c])[k] == rows[k] && (at + [|all|])[k] == at[k];
      } else {
        assert (rows + [c])[|rows|] == c;
      }
    }
  }

  /** The configurations of all sources, one after the other. */
  ghost function AllConfigurations(sources: seq<Source>): seq<Configuration> {
    if sources == [] then [] else AllConfigurations(sources[..|sources| - 1]) + sources[|sources| - 1].configurations
  }

  /** The row of one more configuration: a new one for new settings. */
  method IndexOne(
    c: Configuration, index: map<seq<int>, nat>, rows: seq<Configuration>, ghost all: seq<Configuration>,
    ghost at: seq<nat>)
    returns (index': map<seq<int>, nat>, rows': seq<Configuration>, ghost at': seq<nat>)
    requires ConfigTable(index, rows) && FirstSeen(all, rows, at)
    ensures ConfigTable(index', rows') && FirstSeen(all + [c], rows', at') && rows <= rows'
    ensures c.settings in index' && rows'[index'[c.settings]].settings == c.settings
  {
    index', rows', at' := index, rows, at;
    if c.settings !in index {
      SeenFirst(all, rows, at, c);
      at' := at + [|all|];
      index' := index[c.settings := |index|];
      rows' := rows + [c];
    } else {
      SeenAgain(all, rows, at, c, index[c.settings]);
    }
  }

  ghost predicate Placing(places: seq<nat>, own: seq<Configuration>, rows: seq<Configuration>, n: nat) {
    && |places| == n <= |own|
    && forall j :: 0 <= j < n ==> places[j] < |rows| && rows[places[j]].settings == own[j].settings
  }

  lemma PlacingMore(
    places: seq<nat>, own: seq<Configuration>, rows: seq<Configuration>, rows': seq<Configuration>, n: nat, p: nat)
    requires Placing(places, own, rows, n) && rows <= rows' && n < |own|
    requires p < |rows'| && rows'[p].settings == own[n].settings
    ensures Placing(places + [p], own, rows', n + 1)
  {
  }

  lemma NextJoinedOne<T>(a: seq<T>, b: seq<T>, j: nat)
    requires j < |b|
    ensures a + b[..j + 1] == (a + b[..j]) + [b[j]]
  {
  }

  lemma JoinedEnds<T>(a: seq<T>, b: seq<T>)
    ensures a + b[..0] == a && a + b[..|b|] == a + b
  {
    assert b[..|b|] == b;
  }

  method IndexConfigurations(
    own: seq<Configuration>, index: map<seq<int>, nat>, rows: seq<Configuration>, ghost all: seq<Configuration>,
    ghost at: seq<nat>)
    returns (index': map<seq<int>, nat>, rows': seq<Configuration>, places: seq<nat>, ghost at': seq<nat>)
    requires ConfigTable(index, rows) && FirstSeen(all, rows, at)
    ensures ConfigTable(index', rows') && FirstSeen(all + own, rows', at') && rows <= rows'
    ensures |places| == |own|
    ensures forall j :: 0 <= j < |own| ==> places[j] < |rows'| && rows'[places[j]].settings == own[j].settings
  {
    index', rows', places, at' := index, rows, [], at;
    ghost var known := all;
    JoinedEnds(all, own);
    for j := 0 to |own|
      invariant known == all + own[..j]
      invariant ConfigTable(index', rows') && FirstSeen(known, rows', at') && rows <= rows'
      invariant Placing(places, own, rows', j)
    {
      ghost var before := rows';
      index', rows', at' := IndexOne(own[j], index', rows', known, at');
      PlacingMore(places, own, before, rows', j, index'[own[j].settings]);
      NextJoinedOne(all, own, j);
      known := known + [own[j]];
      places := places + [index'[own[j].settings]];
    }
  }

  method ChooseConfiguration(own: seq<Configuration>, boot: int, firstSeq: int) returns (c: int)
    ensures c == -1 ==> forall d :: 0 <= d < |own| ==> !Eligible(own[d], boot, firstSeq)
    ensures c != -1 ==> c >= 0 && InForce(own, boot, firstSeq, c)
  {
    c := -1;
    for j := 0 to |own|
      invariant c == -1 || 0 <= c < j
      invariant c == -1 ==> forall d :: 0 <= d < j ==> !Eligible(own[d], boot, firstSeq)
      invariant c != -1 ==>
          Eligible(own[c], boot, firstSeq) && forall d :: 0 <= d < j && Eligible(own[d], boot, firstSeq) ==>
                  own[d].startSeq < own[c].startSeq || (own[d].startSeq == own[c].startSeq && c <= d)
    {
      if Eligible(own[j], boot, firstSeq) && (c == -1 || own[j].startSeq > own[c].startSeq) {
        c := j;
      }
    }
  }

  // ----- segments -----

  function SegmentOf(b: Block, configurationIndex: int): Segment {
    Segment(b.sampleOffset, b.sampleCount, b.bootEpoch, b.firstSeq, b.timingSegment, configurationIndex)
  }

  ghost predicate SegmentsMatch(segments: seq<Segment>, blocks: seq<Block>) {
    |segments| == |blocks| && forall k :: 0 <= k < |blocks| ==>
      segments[k] == SegmentOf(blocks[k], segments[k].configurationIndex)
  }

  /** The segment points at the settings in force at its first sample. */
  ghost predicate Configured(segment: Segment, own: seq<Configuration>, rows: seq<Configuration>) {
    && 0 <= segment.configurationIndex < |rows|
    && exists c: nat :: InForce(own, segment.bootEpoch, segment.firstSeq, c)
                && rows[segment.configurationIndex].settings == own[c].settings
  }

  ghost predicate AllConfigured(segments: seq<Segment>, own: seq<Configuration>, rows: seq<Configuration>) {
    forall k :: 0 <= k < |segments| ==> Configured(segments[k], own, rows)
  }

  lemma {:induction false} MatchKeepsKeys(segments: seq<Segment>, blocks: seq<Block>)
    requires SegmentsMatch(segments, blocks) && CountsValid(blocks)
    ensures CountsValid(AsBlocks(segments))
    ensures AllKeys(AsBlocks(segments)) == AllKeys(blocks)
    decreases |blocks|
  {
    if blocks != [] {
      var n := |blocks| - 1;
      MatchKeepsKeys(segments[..n], blocks[..n]);
      assert AsBlocks(segments)[..n] == AsBlocks(segments[..n]);
      assert BlockKeys(AsBlock(segments[n])) == BlockKeys(blocks[n]);
    }
  }

  lemma MatchKeepsTiling(segments: seq<Segment>, blocks: seq<Block>, n: int)
    requires SegmentsMatch(segments, blocks) && BlocksTile(blocks, n)
    ensures BlocksTile(AsBlocks(segments), n)
  {
    var rows := AsBlocks(segments);
    forall k | 0 < k < |rows|
      ensures rows[k].sampleOffset == EndOf(rows[k - 1])
    {
      assert segments[k] == SegmentOf(blocks[k], segments[k].configurationIndex);
      assert segments[k - 1] == SegmentOf(blocks[k - 1], segments[k - 1].configurationIndex);
    }
  }

  lemma BlockKeysDistinct(b: Block)
    requires b.sampleCount >= 0
    ensures Distinct(BlockKeys(b))
  {}

  /** One more block: either it shares no identity with the blocks before, or the
      identities are no longer distinct. */
  lemma NextBlock(before: seq<Block>, b: Block)
    requires CountsValid(before) && b.sampleCount >= 0
    ensures CountsValid(before + [b])
    ensures CommittedKeys(before + [b]) == CommittedKeys(before) + (set key | key in BlockKeys(b))
    ensures Distinct(AllKeys(before + [b]))
            <==> Distinct(AllKeys(before)) && CommittedKeys(before) !! (set key | key in BlockKeys(b))
  {
    assert (before + [b])[..|before|] == before;
    BlockKeysDistinct(b);
    DistinctConcat(AllKeys(before), BlockKeys(b));
    assert forall x :: x in AllKeys(before) <==> x in CommittedKeys(before);
    assert (forall x :: x in AllKeys(before) ==> x !in BlockKeys(b))
      <==> CommittedKeys(before) !! (set key | key in BlockKeys(b));
  }

  lemma MoreBlocks(before: seq<Block>, more: seq<Block>)
    requires CountsValid(before) && CountsValid(more)
    ensures CountsValid(before + more)
    ensures Distinct(AllKeys(before + more)) ==> Distinct(AllKeys(before))
  {
    AllKeysConcat(before, more);
    DistinctConcat(AllKeys(before), AllKeys(more));
  }

  lemma DuplicatePersists(before: seq<Block>, more: seq<Block>, k: nat)
    requires CountsValid(before) && CountsValid(more) && k <= |more|
    ensures CountsValid(before + more) && CountsValid(before + more[..k])
    ensures Distinct(AllKeys(before + more)) ==> Distinct(AllKeys(before + more[..k]))
  {
    assert before + more == (before + more[..k]) + more[k..];
    MoreBlocks(before + more[..k], more[k..]);
  }

  /** Take the keys of the next block, unless one of them is already taken. */
  method ClaimKeys(b: Block, seen: set<Key>, ghost before: seq<Block>) returns (ok: bool, seen': set<Key>)
    requires CountsValid(before) && b.sampleCount >= 0 && seen == CommittedKeys(before)
    ensures CountsValid(before + [b])
    ensures ok ==>
        seen' == CommittedKeys(before + [b]) && (Distinct(AllKeys(before)) ==> Distinct(AllKeys(before + [b])))
    ensures !ok ==> !Distinct(AllKeys(before + [b]))
  {
    NextBlock(before, b);
    var keys := set key | key in BlockKeys(b);
    ok, seen' := seen !! keys, seen + keys;
  }

  ghost predicate SomeUncovered(s: Source) {
    exists k :: 0 <= k < |s.file.blocks| && !Covered(s.configurations, s.file.blocks[k])
  }

  lemma MatchSnoc(added: seq<Segment>, blocks: seq<Block>, k: nat, segment: Segment)
    requires k < |blocks| && SegmentsMatch(added, blocks[..k])
             && segment == SegmentOf(blocks[k], segment.configurationIndex)
    ensures SegmentsMatch(added + [segment], blocks[..k + 1])
  {}

  method ConfigureBlock(placed: Block, own: seq<Configuration>, places: seq<nat>, rows: seq<Configuration>)
    returns (found: bool, segment: Segment)
    requires |places| == |own|
    requires forall j :: 0 <= j < |places| ==> places[j] < |rows| && rows[places[j]].settings == own[j].settings
    ensures found ==> segment == SegmentOf(placed, segment.configurationIndex) && Configured(segment, own, rows)
    ensures !found ==> !Covered(own, placed)
  {
    var c := ChooseConfiguration(own, placed.bootEpoch, placed.firstSeq);
    found := c != -1;
    segment := SegmentOf(placed, if found then places[c] else 0);
  }

  /** One block: its identities must be new, and a configuration must cover it. */
  method PlaceBlock(
    placed: Block, own: seq<Configuration>, places: seq<nat>, rows: seq<Configuration>, seen: set<Key>,
    ghost before: seq<Block>)
    returns (failure: Option<Failure>, segment: Segment, seen': set<Key>)
    requires CountsValid(before) && placed.sampleCount >= 0 && seen == CommittedKeys(before) && |places| == |own|
    requires forall j :: 0 <= j < |places| ==> places[j] < |rows| && rows[places[j]].settings == own[j].settings
    ensures CountsValid(before + [placed])
    ensures failure == Some(Duplicate) ==> !Distinct(AllKeys(before + [placed]))
    ensures failure == Some(Unconfigured) ==> !Covered(own, placed)
    ensures failure == None ==>
              && segment == SegmentOf(placed, segment.configurationIndex) && Configured(segment, own, rows)
              && seen' == CommittedKeys(before + [placed])
              && (Distinct(AllKeys(before)) ==> Distinct(AllKeys(before + [placed])))
  {
    var ok;
    ok, seen' := ClaimKeys(placed, seen, before);
    var found;
    found, segment := ConfigureBlock(placed, own, places, rows);
    failure := if !ok then Some(Duplicate) else if !found then Some(Unconfigured) else None;
  }

  lemma NextJoined(before: seq<Block>, shifted: seq<Block>, k: nat)
    requires k < |shifted|
    ensures before + shifted[..k] + [shifted[k]] == before + shifted[..k + 1]
  {
    assert shifted[..k + 1] == shifted[..k] + [shifted[k]];
  }

  lemma ConfiguredSnoc(added: seq<Segment>, segment: Segment, own: seq<Configuration>, rows: seq<Configuration>)
    requires AllConfigured(added, own, rows) && Configured(segment, own, rows)
    ensures AllConfigured(added + [segment], own, rows)
  {
  }

  method PlaceSource(s: Source, sourceStart: nat, seen: set<Key>, ghost before: seq<Block>,
                     places: seq<nat>, rows: seq<Configuration>)
    returns (failure: Option<Failure>, added: seq<Segment>, seen': set<Key>)
    requires CountsValid(before) && CountsValid(s.file.blocks) && seen == CommittedKeys(before)
    requires |places| == |s.configurations|
    requires forall j :: 0 <= j < |places| ==>
        places[j] < |rows| && rows[places[j]].settings == s.configurations[j].settings
    ensures CountsValid(before + ShiftAll(s.file.blocks, sourceStart))
    ensures failure == None ==>
              && SegmentsMatch(added, ShiftAll(s.file.blocks, sourceStart))
              && AllConfigured(added, s.configurations, rows)
              && seen' == CommittedKeys(before + ShiftAll(s.file.blocks, sourceStart))
              && (Distinct(AllKeys(before)) ==> Distinct(AllKeys(before + ShiftAll(s.file.blocks, sourceStart))))
    ensures failure == Some(Duplicate) ==> !Distinct(AllKeys(before + ShiftAll(s.file.blocks, sourceStart)))
    ensures failure == Some(Unconfigured) ==> SomeUncovered(s)
  {
    ghost var shifted := ShiftAll(s.file.blocks, sourceStart);
    ghost var joined := before;
    failure, added, seen' := None, [], seen;
    DuplicatePersists(before, shifted, 0);
    assert before + shifted[..0] == before;
    for k := 0 to |s.file.blocks|
      invariant failure == None && joined == before + shifted[..k] && CountsValid(joined)
      invariant SegmentsMatch(added, shifted[..k]) && AllConfigured(added, s.configurations, rows)
      invariant seen' == CommittedKeys(joined)
      invariant Distinct(AllKeys(before)) ==> Distinct(AllKeys(joined))
    {
      var placed := Shift(s.file.blocks[k], sourceStart);
      var segment;
      failure, segment, seen' := PlaceBlock(placed, s.configurations, places, rows, seen', joined);
      NextJoined(before, shifted, k);
      joined := joined + [placed];
      if failure != None {
        DuplicatePersists(before, shifted, k + 1);
        assert failure == Some(Unconfigured) ==> !Covered(s.configurations, s.file.blocks[k]);
        return;
      }
      MatchSnoc(added, shifted, k, segment);
      ConfiguredSnoc(added, segment, s.configurations, rows);
      added := added + [segment];
    }
    assert shifted[..|s.file.blocks|] == shifted;
  }

  ghost predicate SourcesConfigured(sources: seq<Source>, segments: seq<Segment>, rows: seq<Configuration>) {
    if sources == [] then segments == []
    else
      var n := |sources| - 1;
      var m := |Joined(sources[..n])|;
      && m <= |segments|
      && SourcesConfigured(sources[..n], segments[..m], rows)
      && AllConfigured(segments[m..], sources[n].configurations, rows)
  }

  lemma {:induction false} ConfiguredStays(
    sources: seq<Source>, segments: seq<Segment>, rows: seq<Configuration>, rows': seq<Configuration>)
    requires SourcesConfigured(sources, segments, rows) && rows <= rows'
    ensures SourcesConfigured(sources, segments, rows')
    decreases |sources|
  {
    if sources != [] {
      var n := |sources| - 1;
      var m := |Joined(sources[..n])|;
      ConfiguredStays(sources[..n], segments[..m], rows, rows');
      forall k | 0 <= k < |segments[m..]|
        ensures Configured(segments[m..][k], sources[n].configurations, rows')
      {
        assert Configured(segments[m..][k], sources[n].configurations, rows);
      }
    }
  }

  lemma MatchConcat(a: seq<Segment>, x: seq<Block>, b: seq<Segment>, y: seq<Block>)
    requires SegmentsMatch(a, x) && SegmentsMatch(b, y)
    ensures SegmentsMatch(a + b, x + y)
  {}

  lemma JoinedStep(sources: seq<Source>, n: nat)
    requires n < |sources|
    ensures Joined(sources[..n + 1])
            == Joined(sources[..n]) + ShiftAll(sources[n].file.blocks, |JoinedRaw(sources[..n])|)
    ensures JoinedRaw(sources[..n + 1]) == JoinedRaw(sources[..n]) + sources[n].file.raw
  {
    assert sources[..n + 1][..n] == sources[..n];
  }

  lemma ConfiguredStep(
    sources: seq<Source>, n: nat, segments: seq<Segment>, added: seq<Segment>, rows: seq<Configuration>)
    requires n < |sources|
    requires |segments| == |Joined(sources[..n])| && SourcesConfigured(sources[..n], segments, rows)
    requires AllConfigured(added, sources[n].configurations, rows)
    ensures SourcesConfigured(sources[..n + 1], segments + added, rows)
  {
    assert sources[..n + 1][..n] == sources[..n];
    assert (segments + added)[..|segments|] == segments && (segments + added)[|segments|..] == added;
  }

  ghost predicate Placed(
    sources: seq<Source>, n: nat, raw: seq<Xyz>, segments: seq<Segment>, rows: seq<Configuration>, counts: seq<int>)
    requires n <= |sources|
  {
    && PlacedOver(sources, n, raw, segments, rows, counts)
    && ConfigurationsKept(sources[..n], rows)
  }

  ghost predicate ConfigurationsKept(sources: seq<Source>, rows: seq<Configuration>) {
    exists at :: FirstSeen(AllConfigurations(sources), rows, at)
  }

  lemma KeptStep(sources: seq<Source>, n: nat, rows: seq<Configuration>, at: seq<nat>)
    requires n < |sources|
    requires FirstSeen(AllConfigurations(sources[..n]) + sources[n].configurations, rows, at)
    ensures FirstSeen(AllConfigurations(sources[..n + 1]), rows, at) && ConfigurationsKept(sources[..n + 1], rows)
  {
    assert sources[..n + 1][..n] == sources[..n];
  }

  /** The same of all but the configurations, which are indexed first. */
  ghost predicate PlacedOver(
    sources: seq<Source>, n: nat, raw: seq<Xyz>, segments: seq<Segment>, rows: seq<Configuration>, counts: seq<int>)
    requires n <= |sources|
  {
    && raw == JoinedRaw(sources[..n])
    && SegmentsMatch(segments, Joined(sources[..n]))
    && SourcesConfigured(sources[..n], segments, rows)
    && |counts| == n && (forall i :: 0 <= i < n ==> counts[i] == |sources[i].file.raw|)
    && Sum(counts) == |raw|
  }

  lemma PlacedStep(sources: seq<Source>, n: nat, raw: seq<Xyz>, segments: seq<Segment>, added: seq<Segment>,
                   rows: seq<Configuration>, counts: seq<int>)
    requires n < |sources| && PlacedOver(sources, n, raw, segments, rows, counts)
    requires ConfigurationsKept(sources[..n + 1], rows)
    requires SegmentsMatch(added, ShiftAll(sources[n].file.blocks, |raw|))
    requires AllConfigured(added, sources[n].configurations, rows)
    ensures Placed(sources, n + 1, raw + sources[n].file.raw, segments + added, rows, counts + [|sources[n].file.raw|])
  {
    JoinedStep(sources, n);
    MatchConcat(segments, Joined(sources[..n]), added, ShiftAll(sources[n].file.blocks, |raw|));
    ConfiguredStep(sources, n, segments, added, rows);
    assert (counts + [|sources[n].file.raw|])[..n] == counts;
  }

  /** The keys seen so far are those of the blocks placed so far, each once. */
  ghost predicate Claimed(blocks: seq<Block>, seen: set<Key>) {
    CountsValid(blocks) && seen == CommittedKeys(blocks) && Distinct(AllKeys(blocks))
  }

  lemma SourceCounts(sources: seq<Source>, i: nat)
    requires ValidSources(sources) && i < |sources|
    ensures CountsValid(sources[i].file.blocks)
  {
    assert ValidCapture(sources[i].file, |sources[i].configurations|);
  }

  method PlaceAll(sources: seq<Source>)
    returns (
      failure: Option<Failure>, raw: seq<Xyz>, segments: seq<Segment>, rows: seq<Configuration>, counts: seq<int>)
    requires ValidSources(sources)
    ensures failure == None ==> Placed(sources, |sources|, raw, segments, rows, counts)
    ensures failure == None ==> Distinct(SourceKeys(sources))
    ensures failure == Some(Duplicate) ==> !Distinct(SourceKeys(sources))
    ensures failure == Some(Unconfigured) ==> exists i :: 0 <= i < |sources| && SomeUncovered(sources[i])
  {
    failure, raw, segments, rows, counts := None, [], [], [], [];
    var index: map<seq<int>, nat> := map[];
    var seen: set<Key> := {};
    ghost var at: seq<nat> := [];
    for i := 0 to |sources|
      invariant failure == None
      invariant ConfigTable(index, rows)
      invariant PlacedOver(sources, i, raw, segments, rows, counts)
      invariant FirstSeen(AllConfigurations(sources[..i]), rows, at)
      invariant Claimed(Joined(sources[..i]), seen)
    {
      var s := sources[i];
      SourceCounts(sources, i);
      JoinedStep(sources, i);
      var index', rows', places;
      ghost var at';
      ghost var known := AllConfigurations(sources[..i]);
      index', rows', places, at' := IndexConfigurations(s.configurations, index, rows, known, at);
      KeptStep(sources, i, rows', at');
      ConfiguredStays(sources[..i], segments, rows, rows');
      index, rows, at := index', rows', at';
      var added;
      failure, added, seen := PlaceSource(s, |raw|, seen, Joined(sources[..i]), places, rows);
      if failure != None {
        DuplicateInSources(sources, i + 1);
        return;
      }
      PlacedStep(sources, i, raw, segments, added, rows, counts);
      raw := raw + s.file.raw;
      segments := segments + added;
      counts := counts + [|s.file.raw|];
    }
    assert sources[..|sources|] == sources;
    JoinedTiles(sources);
  }

  lemma {:induction false} DuplicateInSources(sources: seq<Source>, n: nat)
    requires ValidSources(sources) && n <= |sources|
    ensures CountsValid(Joined(sources[..n]))
    ensures Distinct(SourceKeys(sources)) ==> Distinct(AllKeys(Joined(sources[..n])))
    decreases |sources| - n
  {
    assert ValidSources(sources[..n]);
    JoinedTiles(sources[..n]);
    if n == |sources| {
      assert sources[..n] == sources;
    } else {
      DuplicateInSources(sources, n + 1);
      assert sources[..n + 1][..n] == sources[..n];
      ShiftCounts(sources[n].file.blocks, |JoinedRaw(sources[..n])|, sources[n]);
      MoreBlocks(Joined(sources[..n]), ShiftAll(sources[n].file.blocks, |JoinedRaw(sources[..n])|));
    }
  }

  lemma ShiftCounts(blocks: seq<Block>, offset: int, s: Source)
    requires ValidCapture(s.file, |s.configurations|) && blocks == s.file.blocks
    ensures CountsValid(ShiftAll(blocks, offset))
  {}
}
