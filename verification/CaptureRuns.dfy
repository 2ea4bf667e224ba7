/** Whole lives of a Capture file: batches, interrupted batches, reopenings, in
    any order. */
module CaptureRuns {
  import opened Options
  import opened Capture
  import opened CaptureReader

  /** An interrupted batch is followed by reopening the file: it died either
      before its raw rows were flushed or between the two flushes. */
  datatype Event = Batch(samples: seq<Sample>) | Interrupted(samples: seq<Sample>, rawFlushed: bool) | Reopened

  function Apply(d: File, e: Event): File
    requires forall k :: 0 <= k < |d.blocks| ==> d.blocks[k].sampleCount >= 0
  {
    match e
    case Batch(samples) => BlockPhase(d, NewSamples(d, samples))
    case Interrupted(samples, rawFlushed) =>
      Recover(if rawFlushed then RawPhase(d, NewSamples(d, samples)) else d)
    case Reopened => Recover(d)
  }

  /** The samples of the completed batches that were new when they came. */
  function Stored(events: seq<Event>): seq<Sample> {
    if events == [] then []
    else
      var before := Stored(events[..|events| - 1]);
      match events[|events| - 1]
      case Batch(samples) => before + Fresh(samples, KeySet(before))
      case _ => before
  }

  /** The same, as the fragments the batches were cut into. */
  function StoredFragments(events: seq<Event>): seq<seq<Sample>> {
    if events == [] then []
    else
      var before := StoredFragments(events[..|events| - 1]);
      match events[|events| - 1]
      case Batch(samples) => before + FragmentsOf(Fresh(samples, KeySet(Stored(events[..|events| - 1]))))
      case _ => before
  }

  /** The file that holds exactly these fragments. */
  function ImageOf(log: seq<seq<Sample>>): File
    requires forall k :: 0 <= k < |log| ==> log[k] != []
  {
    File(RawOf(Flatten(log)), BlocksOf(log, 0))
  }

  lemma {:induction false} FragmentsOfStored(events: seq<Event>)
    ensures AllUniform(StoredFragments(events))
    ensures Flatten(StoredFragments(events)) == Stored(events)
  {
    if events != [] {
      var init, e := events[..|events| - 1], events[|events| - 1];
      FragmentsOfStored(init);
      if e.Batch? {
        var novel := Fresh(e.samples, KeySet(Stored(init)));
        FragmentsUniform(novel);
        FragmentsRestore(novel);
        FlattenConcat(StoredFragments(init), FragmentsOf(novel));
      }
    }
  }

  lemma ImageKeys(log: seq<seq<Sample>>)
    requires AllUniform(log)
    ensures CountsValid(ImageOf(log).blocks)
    ensures CommittedKeys(ImageOf(log).blocks) == KeySet(Flatten(log))
  {
    BlocksRestoreKeys(log, 0);
    KeySetOfKeys(Flatten(log));
  }

  /** Raw rows beyond the committed ones are exactly what recovery removes. */
  lemma RecoverImage(log: seq<seq<Sample>>, tail: seq<Xyz>)
    requires AllUniform(log)
    ensures Recover(File(ImageOf(log).raw + tail, ImageOf(log).blocks)) == ImageOf(log)
  {
    CommittedIsTotal(log);
    assert (ImageOf(log).raw + tail)[..|ImageOf(log).raw|] == ImageOf(log).raw;
    if tail == [] {
      assert ImageOf(log).raw + tail == ImageOf(log).raw;
    }
  }

  lemma RawConcat(a: seq<Sample>, b: seq<Sample>)
    ensures RawOf(a + b) == RawOf(a) + RawOf(b)
  {}

  lemma FlattenRaw(log: seq<seq<Sample>>, more: seq<seq<Sample>>)
    ensures RawOf(Flatten(log + more)) == RawOf(Flatten(log)) + RawOf(Flatten(more))
  {
    FlattenConcat(log, more);
    RawConcat(Flatten(log), Flatten(more));
  }

  lemma AppendImage(log: seq<seq<Sample>>, novel: seq<Sample>, more: seq<seq<Sample>>)
    requires AllUniform(log) && more == FragmentsOf(novel)
    ensures AllUniform(more) && AllUniform(log + more)
    ensures BlockPhase(ImageOf(log), novel) == ImageOf(log + more)
  {
    FragmentsUniform(novel);
    FragmentsRestore(novel);
    FlattenRaw(log, more);
    BlocksConcat(log, more, 0);
  }

  lemma ApplyImage(log: seq<seq<Sample>>, e: Event)
    requires AllUniform(log)
    ensures CountsValid(ImageOf(log).blocks)
    ensures e.Batch? ==> AllUniform(log + FragmentsOf(Fresh(e.samples, KeySet(Flatten(log)))))
    ensures Apply(ImageOf(log), e)
         == if e.Batch? then ImageOf(log + FragmentsOf(Fresh(e.samples, KeySet(Flatten(log))))) else ImageOf(log)
  {
    ImageKeys(log);
    var f := ImageOf(log);
    match e
    case Batch(samples) =>
      var novel := Fresh(samples, KeySet(Flatten(log)));
      AppendImage(log, novel, FragmentsOf(novel));
    case Interrupted(samples, rawFlushed) =>
      RecoverImage(log, if rawFlushed then RawOf(NewSamples(f, samples)) else []);
      assert f.raw + [] == f.raw;
    case Reopened =>
      RecoverImage(log, []);
      assert f.raw + [] == f.raw;
  }

  /** The file after a run, starting from an empty one. */
  ghost function Run(events: seq<Event>): (f: File)
    ensures AllUniform(StoredFragments(events)) && f == ImageOf(StoredFragments(events))
  {
    FragmentsOfStored(events);
    if events == [] then EMPTY
    else
      var init, e := events[..|events| - 1], events[|events| - 1];
      FragmentsOfStored(init);
      ApplyImage(StoredFragments(init), e);
      Apply(Run(init), e)
  }

  /** After any run the blocks tile the raw rows, the raw rows are those of the
      completed batches in order, and the identities read back from the block
      rows are the identities that were stored. */
  lemma RunHoldsCompletedBatches(events: seq<Event>)
    ensures Run(events).raw == RawOf(Stored(events))
    ensures CountsValid(Run(events).blocks)
    ensures AllKeys(Run(events).blocks) == KeysOf(Stored(events))
    ensures BlocksTile(Run(events).blocks, |Run(events).raw|)
  {
    var log := StoredFragments(events);
    FragmentsOfStored(events);
    BlocksRestoreKeys(log, 0);
    ImageTiles(log);
  }

  /** The time stamps of a fragment ascend as the validator demands. */
  ghost predicate TimesAscend(f: seq<Sample>)
    requires f != []
  {
    var first, last := f[0], f[|f| - 1];
    && (|f| > 1 && GetOr(first.deviceTimeUs, 0) > 0 ==> GetOr(first.deviceTimeUs, 0) < GetOr(last.deviceTimeUs, 0))
    && (GetOr(first.utcNs, -1) < 0 <==> GetOr(last.utcNs, -1) < 0)
    && (|f| > 1 && GetOr(first.utcNs, -1) >= 0 ==> GetOr(first.utcNs, -1) < GetOr(last.utcNs, -1))
  }

  lemma {:induction false} BlockIsFragment(log: seq<seq<Sample>>, k: nat)
    requires k < |log| && forall j :: 0 <= j < |log| ==> log[j] != []
    ensures BlocksOf(log, 0)[k] == BlockOf(log[k], |Flatten(log[..k])|)
  {
    var n := |log| - 1;
    if k < n {
      BlockIsFragment(log[..n], k);
      assert log[..n][..k] == log[..k];
    }
  }

  ghost predicate BlockTimesOk(b: Block) { DeviceTimeOk(b) && UtcOk(b) }

  lemma FragmentTimes(log: seq<seq<Sample>>, k: nat)
    requires k < |log| && forall j :: 0 <= j < |log| ==> log[j] != []
    ensures BlockTimesOk(BlocksOf(log, 0)[k]) <==> TimesAscend(log[k])
  {
    BlockIsFragment(log, k);
  }

  ghost predicate AllBlockTimesOk(blocks: seq<Block>) {
    forall k :: 0 <= k < |blocks| ==> BlockTimesOk(blocks[k])
  }

  lemma AllFragmentTimes(log: seq<seq<Sample>>, blocks: seq<Block>)
    requires (forall j :: 0 <= j < |log| ==> log[j] != []) && blocks == BlocksOf(log, 0)
    ensures AllBlockTimesOk(blocks) <==> AllTimesAscend(log)
  {
    forall k | 0 <= k < |log|
      ensures BlockTimesOk(blocks[k]) <==> TimesAscend(log[k])
    {
      FragmentTimes(log, k);
    }
    if AllBlockTimesOk(blocks) {
      forall k | 0 <= k < |log|
        ensures TimesAscend(log[k])
      {
        assert BlockTimesOk(blocks[k]);
      }
    }
  }

  ghost predicate AllTimesAscend(log: seq<seq<Sample>>)
    requires forall j :: 0 <= j < |log| ==> log[j] != []
  {
    forall k :: 0 <= k < |log| ==> TimesAscend(log[k])
  }

  ghost predicate AllSigned24(samples: seq<Sample>) {
    forall i :: 0 <= i < |samples| ==> Signed24(samples[i].raw)
  }

  lemma ImageValidIff(log: seq<seq<Sample>>, samples: seq<Sample>, configurations: nat)
    requires AllUniform(log) && samples == Flatten(log)
    ensures ValidCapture(ImageOf(log), configurations) <==>
              Ascending(KeysOf(samples)) && AllTimesAscend(log) && AllSigned24(samples) && configurations > 0
  {
    BlocksRestoreKeys(log, 0);
    ImageTiles(log);
    ValidParts(ImageOf(log), samples, configurations);
    AllFragmentTimes(log, BlocksOf(log, 0));
  }

  lemma ValidParts(f: File, samples: seq<Sample>, configurations: nat)
    requires f.raw == RawOf(samples) && BlocksTile(f.blocks, |samples|)
    requires CountsValid(f.blocks) && AllKeys(f.blocks) == KeysOf(samples)
    ensures ValidCapture(f, configurations) <==>
              Ascending(KeysOf(samples)) && AllBlockTimesOk(f.blocks) && AllSigned24(samples) && configurations > 0
  {
    StreamOrderIsSampleOrder(f.blocks, |samples|);
    InRange(samples);
  }

  /** A file written by any run passes the validator exactly when its samples are
      in stream order and in range, and the time stamps of every fragment of a
      batch ascend. */
  lemma RunValidIff(events: seq<Event>, configurations: nat)
    ensures AllUniform(StoredFragments(events))
    ensures ValidCapture(Run(events), configurations) <==>
              && Ascending(KeysOf(Stored(events))) && AllTimesAscend(StoredFragments(events))
              && AllSigned24(Stored(events)) && configurations > 0
  {
    FragmentsOfStored(events);
    ImageValidIff(StoredFragments(events), Stored(events), configurations);
  }

  lemma InRange(samples: seq<Sample>)
    ensures (forall i :: 0 <= i < |RawOf(samples)| ==> Signed24(RawOf(samples)[i]))
            <==> AllSigned24(samples)
  {
    assert forall i :: 0 <= i < |samples| ==> RawOf(samples)[i] == samples[i].raw;
  }

  lemma {:induction false} ImageTiles(log: seq<seq<Sample>>)
    requires AllUniform(log)
    ensures BlocksTile(BlocksOf(log, 0), |Flatten(log)|)
  {
    if log != [] {
      var n := |log| - 1;
      ImageTiles(log[..n]);
      var blocks, init := BlocksOf(log, 0), BlocksOf(log[..n], 0);
      forall k | 0 < k < |blocks|
        ensures blocks[k].sampleOffset == EndOf(blocks[k - 1])
      {
        assert blocks[k - 1] == init[k - 1];
        if k < n {
          assert blocks[k] == init[k];
        }
      }
      forall k | 0 <= k < |blocks|
        ensures blocks[k].sampleCount > 0
      {
        if k < n {
          assert blocks[k] == init[k];
        }
      }
      assert n > 0 ==> blocks[0] == init[0];
    }
  }

  /** An interrupted batch leaves no trace, and replaying it stores it in full. */
  lemma InterruptionLeavesNoTrace(events: seq<Event>, samples: seq<Sample>, rawFlushed: bool)
    ensures Run(events + [Interrupted(samples, rawFlushed)]) == Run(events)
    ensures Run(events + [Interrupted(samples, rawFlushed)] + [Batch(samples)]) == Run(events + [Batch(samples)])
  {
    var broken := events + [Interrupted(samples, rawFlushed)];
    assert broken[..|events|] == events;
    assert (events + [Batch(samples)])[..|events|] == events;
    assert (broken + [Batch(samples)])[..|broken|] == broken;
  }

  // ----- stored once -----

  lemma DistinctConcat<T>(a: seq<T>, b: seq<T>)
    ensures Distinct(a + b) <==> Distinct(a) && Distinct(b) && forall x :: x in a ==> x !in b
  {
    var c := a + b;
    if Distinct(c) {
      forall i, j | 0 <= i < j < |a|
        ensures a[i] != a[j]
      {
        assert c[i] != c[j];
      }
      forall i, j | 0 <= i < j < |b|
        ensures b[i] != b[j]
      {
        assert c[|a| + i] != c[|a| + j];
      }
      forall x | x in a
        ensures x !in b
      {
        var i :| 0 <= i < |a| && a[i] == x;
        forall j | 0 <= j < |b|
          ensures b[j] != x
        {
          assert c[i] != c[|a| + j];
        }
      }
    }
    if Distinct(a) && Distinct(b) && forall x :: x in a ==> x !in b {
      forall i, j | 0 <= i < j < |c|
        ensures c[i] != c[j]
      {
        if i < |a| <= j {
          assert a[i] in a && b[j - |a|] in b;
        }
      }
    }
  }

  /** Every batch brings each new identity at most once. */
  ghost predicate BatchesClean(events: seq<Event>) {
    forall n :: 0 <= n < |events| && events[n].Batch? ==>
      Distinct(KeysOf(Fresh(events[n].samples, KeySet(Stored(events[..n])))))
  }

  /** De-duplication looks at earlier calls only, so identities are stored once
      if and only if no batch repeats an identity that is new in it. */
  lemma {:induction false} StoredOnceIff(events: seq<Event>)
    ensures Distinct(KeysOf(Stored(events))) <==> BatchesClean(events)
  {
    if events != [] {
      var n := |events| - 1;
      var init, e := events[..n], events[n];
      StoredOnceIff(init);
      assert BatchesClean(events)
        <==> BatchesClean(init) && (e.Batch? ==> Distinct(KeysOf(Fresh(e.samples, KeySet(Stored(init)))))) by {
        assert forall m :: 0 <= m < n ==> events[m] == init[m] && events[..m] == init[..m];
      }
      if e.Batch? {
        var before, novel := Stored(init), Fresh(e.samples, KeySet(Stored(init)));
        FreshKeys(e.samples, KeySet(before));
        KeySetOfKeys(before);
        KeySetOfKeys(novel);
        assert KeysOf(before + novel) == KeysOf(before) + KeysOf(novel);
        DistinctConcat(KeysOf(before), KeysOf(novel));
        assert forall k :: k in KeysOf(before) ==> k in KeySet(before);
        assert forall k :: k in KeysOf(novel) ==> k in KeySet(novel);
      }
    }
  }

  /** The identities in the file are those of the completed batches. */
  lemma {:induction false} StoredKeys(events: seq<Event>, key: Key)
    ensures key in KeySet(Stored(events)) <==> Submitted(events, key)
  {
    if events != [] {
      var n := |events| - 1;
      var init, e := events[..n], events[n];
      StoredKeys(init, key);
      SubmittedSnoc(events, key);
      if e.Batch? {
        FreshKeys(e.samples, KeySet(Stored(init)));
        KeySetConcat(Stored(init), Fresh(e.samples, KeySet(Stored(init))));
      }
    }
  }

  /** Some finished batch carried the identity. */
  ghost predicate Submitted(events: seq<Event>, key: Key) {
    exists n :: 0 <= n < |events| && events[n].Batch? && key in KeySet(events[n].samples)
  }

  lemma SubmittedSnoc(events: seq<Event>, key: Key)
    requires events != []
    ensures var n := |events| - 1;
            Submitted(events, key)
            <==> Submitted(events[..n], key) || (events[n].Batch? && key in KeySet(events[n].samples))
  {
    var n := |events| - 1;
    assert forall m :: 0 <= m < n ==> events[m] == events[..n][m];
  }

  // ----- time stamps of routed samples -----

  /** What routing establishes: the flag says whether there is a UTC estimate. */
  ghost predicate Routed(s: Sample) {
    UtcValid in s.routing <==> s.utcNs.Some?
  }

  lemma RoutedFragmentUtc(f: seq<Sample>, offset: int)
    requires Uniform(f) && forall i :: 0 <= i < |f| ==> Routed(f[i])
    ensures forall i :: 0 <= i < |f| ==> f[i].utcNs.Some? == f[0].utcNs.Some?
    ensures !UtcComplete(BlockOf(f, offset)) <==>
            f[0].utcNs.Some? && (f[0].utcNs.value < 0) != (f[|f| - 1].utcNs.value < 0)
  {
    forall i | 0 <= i < |f|
      ensures f[i].utcNs.Some? == f[0].utcNs.Some?
    {
      UniformSeq(f, i);
    }
  }

  ghost predicate AllRouted(samples: seq<Sample>) {
    forall s :: s in samples ==> Routed(s)
  }

  ghost predicate RoutedBatches(events: seq<Event>) {
    forall n :: 0 <= n < |events| && events[n].Batch? ==> AllRouted(events[n].samples)
  }

  lemma {:induction false} FreshMember(samples: seq<Sample>, seen: set<Key>, s: Sample)
    requires s in Fresh(samples, seen)
    ensures s in samples
  {
    var n := |samples| - 1;
    if s in Fresh(samples[..n], seen) {
      FreshMember(samples[..n], seen, s);
    }
  }

  /** What is stored came in a finished batch. */
  lemma {:induction false} StoredMember(events: seq<Event>, s: Sample) returns (n: nat)
    requires s in Stored(events)
    ensures n < |events| && events[n].Batch? && s in events[n].samples
  {
    var last := |events| - 1;
    if s in Stored(events[..last]) {
      n := StoredMember(events[..last], s);
    } else {
      FreshMember(events[last].samples, KeySet(Stored(events[..last])), s);
      n := last;
    }
  }

  lemma {:induction false} FlattenMember(log: seq<seq<Sample>>, k: nat, s: Sample)
    requires k < |log| && s in log[k]
    ensures s in Flatten(log)
  {
    var n := |log| - 1;
    if k < n {
      FlattenMember(log[..n], k, s);
    }
  }

  lemma FragmentMember(events: seq<Event>, k: nat, s: Sample) returns (n: nat)
    requires k < |StoredFragments(events)| && s in StoredFragments(events)[k]
    ensures n < |events| && events[n].Batch? && s in events[n].samples
  {
    FragmentsOfStored(events);
    FlattenMember(StoredFragments(events), k, s);
    n := StoredMember(events, s);
  }

  /** The incomplete-endpoints error fires on a block of routed batches exactly
      if the times of its two ends lie on different sides of the epoch. */
  lemma RoutedBlockUtc(events: seq<Event>, k: nat)
    requires RoutedBatches(events) && k < |Run(events).blocks|
    ensures |Run(events).blocks| == |StoredFragments(events)| && StoredFragments(events)[k] != []
    ensures var f := StoredFragments(events)[k];
            && (forall i :: 0 <= i < |f| ==> f[i].utcNs.Some? == f[0].utcNs.Some?)
            && (!UtcComplete(Run(events).blocks[k]) <==>
                  f[0].utcNs.Some? && (f[0].utcNs.value < 0) != (f[|f| - 1].utcNs.value < 0))
  {
    var log := StoredFragments(events);
    var f := log[k];
    assert Uniform(f);
    forall i | 0 <= i < |f|
      ensures Routed(f[i])
    {
      var n := FragmentMember(events, k, f[i]);
      assert AllRouted(events[n].samples);
    }
    BlockIsFragment(log, k);
    RoutedFragmentUtc(f, |Flatten(log[..k])|);
  }

  /** One block across the epoch, with incomplete endpoints. */
  lemma EpochBlockIncomplete(s: Sample)
    ensures var a := s.(utcNs := Some(-1), routing := {UtcValid});
            var b := a.(sampleSeq := s.sampleSeq + 1, utcNs := Some(1));
            && RoutedBatches([Batch([a, b])]) && StoredFragments([Batch([a, b])]) == [[a, b]]
            && !UtcComplete(Run([Batch([a, b])]).blocks[0])
  {
    var a := s.(utcNs := Some(-1), routing := {UtcValid});
    var b := a.(sampleSeq := s.sampleSeq + 1, utcNs := Some(1));
    var samples := [a, b];
    var events := [Batch(samples)];
    assert events[..0] == [] && samples[..1] == [a] && [a][..0] == [];
    assert Fresh([a], {}) == [a] && Fresh(samples, {}) == samples;
    assert KeySet(Stored(events[..0])) == {};
    assert FragmentsOf([a]) == [[a]];
    assert FragmentsOf(samples) == [samples];
    RoutedBlockUtc(events, 0);
  }
}
