/** What a block row says about the samples it covers, and which samples share a
    row. */
module BlockRows {
  import KeyedLists
  import opened Options
  import opened Capture
  import opened CaptureReader
  import opened CaptureRuns

  /** A row covers some of the samples, from the first of them on. */
  ghost predicate Covers(b: Block, samples: seq<Sample>) {
    0 <= b.sampleOffset < b.sampleOffset + b.sampleCount <= |samples|
  }

  /** The row says of every sample it covers where it belongs, what packet it came
      in, how it was timed and how it was routed. */
  ghost predicate Describes(b: Block, samples: seq<Sample>)
    requires Covers(b, samples)
  {
    forall i :: b.sampleOffset <= i < b.sampleOffset + b.sampleCount ==>
      && samples[i].bootEpoch == b.bootEpoch && samples[i].sampleSeq == b.firstSeq + i - b.sampleOffset
      && samples[i].packetSeq == b.packetSeq && samples[i].routing == b.routing
      && samples[i].timingSegment == b.timingSegment && samples[i].timingFlags == b.timingFlags
  }

  /** The row has the times of its first and its last sample. */
  ghost predicate Times(b: Block, samples: seq<Sample>)
    requires Covers(b, samples)
  {
    var first, last := samples[b.sampleOffset], samples[b.sampleOffset + b.sampleCount - 1];
    && (first.deviceTimeUs == None ==> b.firstDeviceUs == 0)
    && (first.deviceTimeUs.Some? ==> b.firstDeviceUs == first.deviceTimeUs.value)
    && (last.deviceTimeUs == None ==> b.lastDeviceUs == 0)
    && (last.deviceTimeUs.Some? ==> b.lastDeviceUs == last.deviceTimeUs.value)
    && (first.utcNs == None ==> b.firstUtcNs == -1)
    && (first.utcNs.Some? ==> b.firstUtcNs == first.utcNs.value)
    && (last.utcNs == None ==> b.lastUtcNs == -1)
    && (last.utcNs.Some? ==> b.lastUtcNs == last.utcNs.value)
  }

  /** The row's uncertainty is the largest of its samples, none counting as zero. */
  ghost predicate Bounds(b: Block, samples: seq<Sample>)
    requires Covers(b, samples)
  {
    && b.uncertaintyNs >= 0
    && (forall i :: b.sampleOffset <= i < b.sampleOffset + b.sampleCount && samples[i].uncertaintyNs.Some? ==>
         samples[i].uncertaintyNs.value <= b.uncertaintyNs)
    && (b.uncertaintyNs > 0 ==>
         exists i :: b.sampleOffset <= i < b.sampleOffset + b.sampleCount
           && samples[i].uncertaintyNs == Some(b.uncertaintyNs))
  }

  ghost predicate Tells(b: Block, samples: seq<Sample>) {
    Covers(b, samples) && Describes(b, samples) && Times(b, samples) && Bounds(b, samples)
  }

  ghost predicate AllTell(blocks: seq<Block>, samples: seq<Sample>) {
    BlocksTile(blocks, |samples|) && forall k :: 0 <= k < |blocks| ==> Tells(blocks[k], samples)
  }

  lemma {:induction false} MaxUncertaintyIs(f: seq<Sample>)
    ensures MaxUncertainty(f) >= 0
    ensures forall i :: 0 <= i < |f| && f[i].uncertaintyNs.Some? ==> f[i].uncertaintyNs.value <= MaxUncertainty(f)
    ensures MaxUncertainty(f) > 0 ==> exists i :: 0 <= i < |f| && f[i].uncertaintyNs == Some(MaxUncertainty(f))
  {
    if f != [] {
      var n := |f| - 1;
      MaxUncertaintyIs(f[..n]);
      if MaxUncertainty(f) > 0 {
        if MaxUncertainty(f) == MaxUncertainty(f[..n]) {
          var i :| 0 <= i < n && f[..n][i].uncertaintyNs == Some(MaxUncertainty(f));
          assert f[i].uncertaintyNs == Some(MaxUncertainty(f));
        } else {
          assert f[n].uncertaintyNs == Some(MaxUncertainty(f));
        }
      }
    }
  }

  /** The row of a fragment tells of it, wherever the fragment stands. */
  lemma FragmentTells(before: seq<Sample>, f: seq<Sample>, after: seq<Sample>)
    requires Uniform(f)
    ensures Tells(BlockOf(f, |before|), before + f + after)
  {
    var b, all := BlockOf(f, |before|), before + f + after;
    forall i | b.sampleOffset <= i < b.sampleOffset + b.sampleCount
      ensures all[i] == f[i - |before|]
      ensures all[i].bootEpoch == b.bootEpoch && all[i].sampleSeq == b.firstSeq + i - b.sampleOffset
      ensures all[i].packetSeq == b.packetSeq && all[i].routing == b.routing
      ensures all[i].timingSegment == b.timingSegment && all[i].timingFlags == b.timingFlags
    {
      UniformSeq(f, i - |before|);
    }
    MaxUncertaintyIs(f);
    if b.uncertaintyNs > 0 {
      var i :| 0 <= i < |f| && f[i].uncertaintyNs == Some(b.uncertaintyNs);
      assert all[|before| + i] == f[i];
    }
  }

  lemma LastApart<T>(a: seq<T>, b: seq<T>)
    requires b != []
    ensures a + b == (a + b[..|b| - 1]) + [b[|b| - 1]]
  {
  }

  lemma Around<T>(s: seq<T>, k: nat)
    requires k < |s|
    ensures s == (s[..k] + [s[k]]) + s[k + 1..]
  {
  }

  lemma FlattenAround(log: seq<seq<Sample>>, k: nat)
    requires k < |log|
    ensures Flatten(log) == Flatten(log[..k]) + log[k] + Flatten(log[k + 1..])
  {
    Around(log, k);
    FlattenConcat(log[..k] + [log[k]], log[k + 1..]);
    FlattenSnoc(log[..k], log[k]);
  }

  lemma LogTells(log: seq<seq<Sample>>)
    requires AllUniform(log)
    ensures AllTell(BlocksOf(log, 0), Flatten(log))
  {
    ImageTiles(log);
    forall k | 0 <= k < |log|
      ensures Tells(BlocksOf(log, 0)[k], Flatten(log))
    {
      BlockIsFragment(log, k);
      FlattenAround(log, k);
      FragmentTells(Flatten(log[..k]), log[k], Flatten(log[k + 1..]));
    }
  }

  /** Through batches, interruptions and reopenings: each block row of the file
      tells of the stored samples it covers, and the rows cover all of them. */
  lemma RowsTell(events: seq<Event>)
    ensures AllTell(Run(events).blocks, Stored(events))
  {
    FragmentsOfStored(events);
    LogTells(StoredFragments(events));
  }

  // ----- which samples share a row -----

  /** The second sample continues the first. */
  predicate Continues(a: Sample, b: Sample) {
    && b.bootEpoch == a.bootEpoch && b.sampleSeq - a.sampleSeq == 1
    && a.packetSeq == b.packetSeq && a.routing == b.routing
    && a.timingSegment == b.timingSegment && a.timingFlags == b.timingFlags
  }

  /** One row covers the samples i and i + 1. */
  ghost predicate ShareRow(blocks: seq<Block>, i: int) {
    exists k :: 0 <= k < |blocks| && CoversBoth(blocks[k], i)
  }

  predicate CoversBoth(b: Block, i: int) { b.sampleOffset <= i < i + 1 < b.sampleOffset + b.sampleCount }

  /** The samples i and i + 1 came in one batch. */
  ghost predicate SameBatch(events: seq<Event>, i: int) {
    exists n :: 0 <= n < |events| && |Stored(events[..n])| <= i < i + 1 < |Stored(events[..n + 1])|
  }

  /** Where one fragment ends and another begins. */
  ghost function Cuts(log: seq<seq<Sample>>): set<int> {
    if |log| <= 1 then {} else Cuts(log[..|log| - 1]) + {|Flatten(log[..|log| - 1])|}
  }

  lemma CutsSnoc(log: seq<seq<Sample>>, f: seq<Sample>)
    ensures Cuts(log + [f]) == if log == [] then {} else Cuts(log) + {|Flatten(log)|}
  {
    assert (log + [f])[..|log|] == log;
  }

  lemma {:induction false} CutsConcat(a: seq<seq<Sample>>, b: seq<seq<Sample>>, c: int)
    requires a != []
    ensures c in Cuts(a + b) <==>
              || c in Cuts(a) || (b != [] && c == |Flatten(a)|) || c - |Flatten(a)| in Cuts(b)
  {
    if b == [] {
      assert a + b == a;
    } else {
      var n := |b| - 1;
      LastApart(a, b);
      CutsConcat(a, b[..n], c);
      CutsSnoc(a + b[..n], b[n]);
      FlattenConcat(a, b[..n]);
      assert b[..n] == [] ==> Flatten(a) + Flatten(b[..n]) == Flatten(a);
    }
  }

  lemma LastOfFlatten(log: seq<seq<Sample>>)
    requires log != [] && AllUniform(log)
    ensures var f := log[|log| - 1]; f != [] && |Flatten(log)| > 0 && Flatten(log)[|Flatten(log)| - 1] == f[|f| - 1]
  {
    assert Uniform(log[|log| - 1]);
  }

  lemma CutsOfAdded(log: seq<seq<Sample>>, s: Sample)
    requires AllUniform(log) && log != []
    ensures var all := Flatten(log);
            |all| > 0 && Cuts(AddToFragments(log, s))
            == Cuts(log) + if Continues(all[|all| - 1], s) then {} else {|all|}
  {
    var m := |log| - 1;
    LastOfFlatten(log);
    CutsSnoc(log, [s]);
    LastLonger(log, log[m] + [s]);
  }

  lemma LastLonger(log: seq<seq<Sample>>, f: seq<Sample>)
    requires log != []
    ensures Cuts(log[..|log| - 1] + [f]) == Cuts(log)
  {
    var m := |log| - 1;
    KeyedLists.InitAndLast(log);
    CutsSnoc(log[..m], log[m]);
    CutsSnoc(log[..m], f);
  }

  /** A batch is cut exactly where a sample does not continue the one before it. */
  lemma {:induction false} BatchCuts(samples: seq<Sample>, c: int)
    ensures c in Cuts(FragmentsOf(samples)) <==> 0 < c < |samples| && !Continues(samples[c - 1], samples[c])
  {
    if samples != [] {
      var n := |samples| - 1;
      BatchCuts(samples[..n], c);
      FragmentsUniform(samples[..n]);
      FragmentsRestore(samples[..n]);
      if n > 0 {
        assert FragmentsOf(samples[..n]) != [];
        CutsOfAdded(FragmentsOf(samples[..n]), samples[n]);
      }
    }
  }

  lemma SameBatchSnoc(events: seq<Event>, i: int)
    requires events != []
    ensures var init := events[..|events| - 1];
            SameBatch(events, i) <==> SameBatch(init, i) || |Stored(init)| <= i < i + 1 < |Stored(events)|
  {
    var n := |events| - 1;
    assert events[..n + 1] == events;
    assert forall m :: 0 <= m <= n ==> events[..n][..m] == events[..m];
  }

  lemma {:induction false} StoredGrows(events: seq<Event>, i: int)
    requires SameBatch(events, i)
    ensures 0 <= i < i + 1 < |Stored(events)|
  {
    var n := |events| - 1;
    SameBatchSnoc(events, i);
    if SameBatch(events[..n], i) {
      StoredGrows(events[..n], i);
    }
  }

  /** Where the rows of a whole run are cut: between batches, and within a batch
      where a sample does not continue the one before it. */
  lemma {:induction false} RunCuts(events: seq<Event>, c: int)
    ensures c in Cuts(StoredFragments(events)) <==>
              0 < c < |Stored(events)|
              && !(SameBatch(events, c - 1) && Continues(Stored(events)[c - 1], Stored(events)[c]))
  {
    if events != [] {
      var init, e := events[..|events| - 1], events[|events| - 1];
      RunCuts(init, c);
      SameBatchSnoc(events, c - 1);
      if SameBatch(init, c - 1) {
        StoredGrows(init, c - 1);
      }
      if e.Batch? {
        var novel := Fresh(e.samples, KeySet(Stored(init)));
        FragmentsOfStored(init);
        BatchCuts(novel, c - |Stored(init)|);
        BatchAppended(StoredFragments(init), novel, c);
      }
    }
  }

  lemma BatchAppended(log: seq<seq<Sample>>, novel: seq<Sample>, c: int)
    ensures var all, more := Flatten(log) + novel, FragmentsOf(novel);
            c in Cuts(log + more) <==>
              || c in Cuts(log) || (log != [] && novel != [] && c == |Flatten(log)|)
              || c - |Flatten(log)| in Cuts(more)
  {
    FragmentsRestore(novel);
    if log == [] {
      assert log + FragmentsOf(novel) == FragmentsOf(novel);
    } else {
      CutsConcat(log, FragmentsOf(novel), c);
    }
  }

  lemma {:induction false} CutsInside(log: seq<seq<Sample>>, c: int)
    requires AllUniform(log) && c in Cuts(log)
    ensures 0 < c < |Flatten(log)|
  {
    var n := |log| - 1;
    assert Uniform(log[n]) && Uniform(log[n - 1]);
    LastOfFlatten(log[..n]);
    if c in Cuts(log[..n]) {
      CutsInside(log[..n], c);
    }
  }

  lemma ShareSnoc(blocks: seq<Block>, b: Block, i: int)
    ensures ShareRow(blocks + [b], i)
            <==> ShareRow(blocks, i) || CoversBoth(b, i)
  {
    var more := blocks + [b];
    assert more[|blocks|] == b;
    if ShareRow(blocks, i) {
      var k :| 0 <= k < |blocks| && CoversBoth(blocks[k], i);
      assert more[k] == blocks[k];
    }
  }

  /** Two samples share a row exactly if no cut is between them. */
  lemma {:induction false} ShareIffUncut(log: seq<seq<Sample>>, i: int)
    requires AllUniform(log)
    ensures ShareRow(BlocksOf(log, 0), i) <==> 0 <= i < |Flatten(log)| - 1 && i + 1 !in Cuts(log)
  {
    if log != [] {
      var n := |log| - 1;
      ShareIffUncut(log[..n], i);
      ShareSnoc(BlocksOf(log[..n], 0), BlockOf(log[n], |Flatten(log[..n])|), i);
      if i + 1 in Cuts(log[..n]) {
        CutsInside(log[..n], i + 1);
      }
    }
  }

  /** Two stored samples share a block row if and only if they came in one batch and
      the second continues the first. */
  lemma ShareRowIff(events: seq<Event>, i: int)
    requires 0 <= i < |Stored(events)| - 1
    ensures ShareRow(Run(events).blocks, i)
            <==> SameBatch(events, i) && Continues(Stored(events)[i], Stored(events)[i + 1])
  {
    FragmentsOfStored(events);
    ShareIffUncut(StoredFragments(events), i);
    RunCuts(events, i + 1);
  }
}
