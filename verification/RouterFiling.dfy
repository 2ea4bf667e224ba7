/** Where the samples of a call end up, sample by sample and in which order. */
module RouterFiling {
  import opened Options
  import opened Selections
  import opened Capture
  import opened CaptureReader
  import opened CaptureRuns
  import opened Windows
  import opened Router
  import opened RouterRuns

  // ----- one file: what a batch adds -----

  /** The writer of a file keeps, in their order, exactly the samples whose identity
      it has not seen. */
  lemma {:induction false} FreshSelects(samples: seq<Sample>, seen: set<Key>) returns (at: seq<nat>)
    ensures Selection(samples, Fresh(samples, seen), at)
    ensures forall i: nat :: i in at <==> i < |samples| && Key(samples[i].bootEpoch, samples[i].sampleSeq) !in seen
  {
    if samples == [] {
      at := [];
    } else {
      var n := |samples| - 1;
      at := FreshSelects(samples[..n], seen);
      var before := Fresh(samples[..n], seen);
      assert samples == samples[..n] + [samples[n]];
      SelectionSnoc(samples[..n], before, at, samples[n]);
      if KeyOf(samples[n]) !in seen {
        at := at + [n];
      } else {
        assert before + [] == before;
      }
    }
  }

  // ----- which samples of a call are new -----

  /** The published file of the window of the sample's own time has its identity. */
  ghost predicate InPublished(w: int, st: State, s: Sample)
    requires w > 0
  {
    && s.utcNs.Some? && WindowStart(w, s.utcNs.value) in st.finals
    && exists o :: o in st.finals[WindowStart(w, s.utcNs.value)]
                && o.bootEpoch == s.bootEpoch && o.sampleSeq == s.sampleSeq
  }

  ghost predicate SameIdentity(s: Sample, o: Sample) { s.bootEpoch == o.bootEpoch && s.sampleSeq == o.sampleSeq }

  /** The session does not remember the identity, and none of the samples of this
      identity up to here was found in a published file. */
  ghost predicate TakenForNew(w: int, st: State, samples: seq<Sample>, i: nat)
    requires w > 0 && i < |samples|
  {
    && Key(samples[i].bootEpoch, samples[i].sampleSeq) !in st.seen
    && forall j :: 0 <= j <= i && SameIdentity(samples[j], samples[i]) ==> !InPublished(w, st, samples[j])
  }

  lemma ArchivedIs(w: int, st: State, s: Sample)
    requires w > 0
    ensures Archived(w, st, s) <==> InPublished(w, st, s)
  {
    if InPublished(w, st, s) {
      var o :| o in st.finals[WindowStart(w, s.utcNs.value)]
        && o.bootEpoch == s.bootEpoch && o.sampleSeq == s.sampleSeq;
      assert KeyOf(o) == KeyOf(s);
    }
    if Archived(w, st, s) {
      var o :| o in st.finals[WindowStart(w, s.utcNs.value)] && KeyOf(o) == KeyOf(s);
      assert o.bootEpoch == s.bootEpoch && o.sampleSeq == s.sampleSeq;
    }
  }

  ghost predicate FoundAmong(w: int, st: State, samples: seq<Sample>, key: Key)
    requires w > 0
  {
    exists j :: 0 <= j < |samples| && KeyOf(samples[j]) == key && InPublished(w, st, samples[j])
  }

  lemma {:induction false} SeenAfter(w: int, st: State, samples: seq<Sample>, key: Key)
    requires w > 0
    ensures key in Sift(w, st, samples).seen <==> key in st.seen || FoundAmong(w, st, samples, key)
  {
    if samples != [] {
      var n := |samples| - 1;
      SeenAfter(w, st, samples[..n], key);
      ArchivedIs(w, st, samples[n]);
      if FoundAmong(w, st, samples, key) && !(KeyOf(samples[n]) == key && InPublished(w, st, samples[n])) {
        var j :| 0 <= j < |samples| && KeyOf(samples[j]) == key && InPublished(w, st, samples[j]);
        assert samples[..n][j] == samples[j];
      }
      if FoundAmong(w, st, samples[..n], key) {
        var j :| 0 <= j < n && KeyOf(samples[..n][j]) == key && InPublished(w, st, samples[..n][j]);
        assert samples[j] == samples[..n][j];
      }
    }
  }

  lemma NewIff(w: int, st: State, samples: seq<Sample>)
    requires w > 0 && samples != []
    ensures var n := |samples| - 1;
            TakenForNew(w, st, samples, n)
            <==> KeyOf(samples[n]) !in Sift(w, st, samples[..n]).seen && !Archived(w, st, samples[n])
  {
    var n := |samples| - 1;
    var key := KeyOf(samples[n]);
    SeenAfter(w, st, samples[..n], key);
    ArchivedIs(w, st, samples[n]);
    if FoundAmong(w, st, samples[..n], key) {
      var j :| 0 <= j < n && KeyOf(samples[..n][j]) == key && InPublished(w, st, samples[..n][j]);
      assert samples[j] == samples[..n][j] && SameIdentity(samples[j], samples[n]);
    } else if key !in st.seen && !InPublished(w, st, samples[n]) {
      forall j | 0 <= j <= n && SameIdentity(samples[j], samples[n])
        ensures !InPublished(w, st, samples[j])
      {
        if j < n {
          assert samples[..n][j] == samples[j];
        }
      }
    }
  }

  lemma NewEarlier(w: int, st: State, samples: seq<Sample>, i: nat)
    requires w > 0 && i < |samples| - 1
    ensures TakenForNew(w, st, samples[..|samples| - 1], i) <==> TakenForNew(w, st, samples, i)
  {
    var init := samples[..|samples| - 1];
    assert forall j :: 0 <= j <= i ==> init[j] == samples[j];
  }

  /** `novel` are the samples at these positions, marked. */
  ghost predicate MarkedAt(w: int, st: State, samples: seq<Sample>, novel: seq<Sample>, at: seq<nat>)
    requires w > 0
  {
    && |at| == |novel| && Positions(at, |samples|)
    && forall j :: 0 <= j < |at| ==> novel[j] == Mark(w, st, samples[at[j]])
  }

  /** Classifying a batch takes exactly these samples, in their order. */
  lemma {:induction false} SiftSelects(w: int, st: State, samples: seq<Sample>) returns (at: seq<nat>)
    requires w > 0
    ensures MarkedAt(w, st, samples, Sift(w, st, samples).novel, at)
    ensures forall i: nat :: i in at <==> i < |samples| && TakenForNew(w, st, samples, i)
  {
    if samples == [] {
      at := [];
    } else {
      var n := |samples| - 1;
      at := SiftSelects(w, st, samples[..n]);
      NewIff(w, st, samples);
      forall i: nat | i < n
        ensures TakenForNew(w, st, samples[..n], i) <==> TakenForNew(w, st, samples, i)
      {
        NewEarlier(w, st, samples, i);
      }
      if TakenForNew(w, st, samples, n) {
        at := at + [n];
      }
    }
  }

  // ----- where they go -----

  lemma {:induction false} GroupSelects(w: int, st: State, novel: seq<Sample>, p: Place) returns (at: seq<nat>)
    requires w > 0
    ensures Selection(novel, Group(w, st, novel, p), at)
    ensures forall i: nat :: i in at <==> i < |novel| && Target(w, st, novel[i]) == p
  {
    if novel == [] {
      at := [];
    } else {
      var n := |novel| - 1;
      at := GroupSelects(w, st, novel[..n], p);
      var before := Group(w, st, novel[..n], p);
      assert novel == novel[..n] + [novel[n]];
      SelectionSnoc(novel[..n], before, at, novel[n]);
      if Target(w, st, novel[n]) == p {
        at := at + [n];
      } else {
        assert before + [] == before;
      }
    }
  }

  /** The file a sample belongs into: that of its window, unless that is closed. */
  ghost predicate Belongs(w: int, st: State, s: Sample, p: Place)
    requires w > 0
  {
    match p
    case Window(start) =>
      s.utcNs.Some? && WindowStart(w, s.utcNs.value) == start && start !in st.finals && start !in st.finalized
    case Unresolved =>
      s.utcNs.Some? ==> WindowStart(w, s.utcNs.value) in st.finals || WindowStart(w, s.utcNs.value) in st.finalized
    case Older(_) => false
  }

  lemma TargetIs(w: int, st: State, s: Sample, p: Place)
    requires w > 0
    ensures Target(w, st, Mark(w, st, s)) == p <==> Belongs(w, st, s, p)
  {
  }

  /** The samples at these positions, changed in their flags only, all of which fit
      the place. */
  ghost predicate FiledFrom(w: int, samples: seq<Sample>, p: Place, added: seq<Sample>, at: seq<nat>)
    requires w > 0
  {
    && |at| == |added| && Positions(at, |samples|)
    && forall j :: 0 <= j < |at| ==>
        added[j] == samples[at[j]].(routing := added[j].routing) && FitsPlace(w, p, added[j])
  }

  /** What a batch has for a place: the samples that are taken for new and belong
      there, in their order. */
  lemma GroupIs(w: int, st: State, samples: seq<Sample>, p: Place) returns (at: seq<nat>)
    requires w > 0
    ensures FiledFrom(w, samples, p, Group(w, st, Sift(w, st, samples).novel, p), at)
    ensures forall i: nat :: i in at <==>
              i < |samples| && TakenForNew(w, st, samples, i) && Belongs(w, st, samples[i], p)
  {
    var novel := Sift(w, st, samples).novel;
    var of := SiftSelects(w, st, samples);
    var within := GroupSelects(w, st, novel, p);
    var g := Group(w, st, novel, p);
    at := seq(|within|, j requires 0 <= j < |within| => of[within[j]]);
    forall j | 0 <= j < |at|
      ensures g[j] == Mark(w, st, samples[at[j]]) && FitsPlace(w, p, g[j])
    {
      assert within[j] in within;
      RoutedFits(w, st, g[j]);
    }
    forall i: nat
      ensures i in at <==> i < |samples| && TakenForNew(w, st, samples, i) && Belongs(w, st, samples[i], p)
    {
      PositionTaken(w, st, samples, p, of, within, at, i);
    }
  }

  lemma PositionTaken(
    w: int, st: State, samples: seq<Sample>, p: Place, of: seq<nat>, within: seq<nat>, at: seq<nat>, i: nat)
    requires w > 0 && MarkedAt(w, st, samples, Sift(w, st, samples).novel, of)
    requires i in of <==> i < |samples| && TakenForNew(w, st, samples, i)
    requires forall k: nat :: k in within <==> k < |of| && Target(w, st, Sift(w, st, samples).novel[k]) == p
    requires |at| == |within| && forall j :: 0 <= j < |at| ==> within[j] < |of| && at[j] == of[within[j]]
    ensures i in at <==> i < |samples| && TakenForNew(w, st, samples, i) && Belongs(w, st, samples[i], p)
  {
    if i in at {
      var j :| 0 <= j < |at| && at[j] == i;
      assert within[j] in within && of[within[j]] in of;
      TargetIs(w, st, samples[i], p);
    }
    if i < |samples| && TakenForNew(w, st, samples, i) && Belongs(w, st, samples[i], p) {
      var k :| 0 <= k < |of| && of[k] == i;
      TargetIs(w, st, samples[i], p);
      assert k in within;
      var j :| 0 <= j < |within| && within[j] == k;
      assert at[j] == i;
    }
  }

  /** A successful call appends to each file the samples of the batch that are taken
      for new and belong there, in their order and changed in their flags only; a
      call that fails appends to each file these samples or nothing. */
  lemma CallFiles(w: int, st: State, node: int, samples: seq<Sample>, p: Place)
    returns (added: seq<Sample>, at: seq<nat>)
    requires w > 0 && Inv(st)
    ensures FiledFrom(w, samples, p, added, at)
    ensures forall i: nat :: i in at <==>
              i < |samples| && TakenForNew(w, st, samples, i) && Belongs(w, st, samples[i], p)
    ensures var r := WriteSamples(w, st, node, samples);
            && (r.outcome == Written ==> DiskAt(r.state, p) == DiskAt(st, p) + added)
            && (DiskAt(r.state, p) == DiskAt(st, p) || DiskAt(r.state, p) == DiskAt(st, p) + added)
  {
    var novel, st' := Sift(w, st, samples).novel, WriteSamples(w, st, node, samples).state;
    added := Group(w, st, novel, p);
    at := GroupIs(w, st, samples, p);
    CallEffect(w, st, node, samples);
    CallGrows(w, st, node, samples);
    AdvancedGrows(w, st, novel, st.(seen := Sift(w, st, samples).seen), st');
  }

  // ----- what is refused -----

  /** Whatever a call files is well measured and of its node. */
  lemma FiledAcceptable(w: int, st: State, node: int, samples: seq<Sample>, s: Sample)
    requires w > 0 && s in Filed(w, st, node, samples)
    ensures s.nodeId == node && WellMeasured(s)
  {
    var novel := Sift(w, st, samples).novel;
    var p := Target(w, st, s);
    WithinMember(w, st, novel, (q: Place) => Taken(w, st, node, novel, q), s);
    GroupMembers(w, st, novel, p, s);
    AcceptableIff(node, Group(w, st, novel, p));
  }

  /** The sample is of the node and well measured, and if its window is not open yet,
      fewer than three open ones are newer. */
  ghost predicate Writeable(w: int, st: State, node: int, s: Sample)
    requires w > 0
  {
    && s.nodeId == node && WellMeasured(s)
    && forall x :: Belongs(w, st, s, Window(x)) ==> x in st.active || |NewerThan(st.active.Keys, x)| < 3
  }

  lemma SuccessNeeds(w: int, st: State, node: int, samples: seq<Sample>, m: Sample)
    requires w > 0 && CallSucceeds(w, st, node, samples) && m in Sift(w, st, samples).novel
    ensures m.nodeId == node && WellMeasured(m)
    ensures Target(w, st, m).Window? ==> Roomy(st, Target(w, st, m).start)
  {
    var novel := Sift(w, st, samples).novel;
    var p := Target(w, st, m);
    GroupMembers(w, st, novel, p, m);
    assert p.Window? ==> p.start in Targets(w, st, novel);
    AcceptableIff(node, Group(w, st, novel, p));
  }

  lemma SuccessFollows(w: int, st: State, node: int, samples: seq<Sample>)
    requires w > 0
    requires forall m :: m in Sift(w, st, samples).novel ==>
               && m.nodeId == node && WellMeasured(m)
               && (Target(w, st, m).Window? ==> Roomy(st, Target(w, st, m).start))
    ensures CallSucceeds(w, st, node, samples)
  {
    var novel := Sift(w, st, samples).novel;
    forall p
      ensures Acceptable(node, Group(w, st, novel, p))
    {
      forall m | m in Group(w, st, novel, p)
        ensures m.nodeId == node && WellMeasured(m)
      {
        GroupMembers(w, st, novel, p, m);
      }
      AcceptableIff(node, Group(w, st, novel, p));
    }
  }

  lemma NovelWriteable(w: int, st: State, node: int, s: Sample)
    requires w > 0
    ensures var m := Mark(w, st, s);
            (m.nodeId == node && WellMeasured(m) && (Target(w, st, m).Window? ==> Roomy(st, Target(w, st, m).start)))
            <==> Writeable(w, st, node, s)
  {
    var m := Mark(w, st, s);
    TargetIs(w, st, s, Target(w, st, m));
    forall x
      ensures Target(w, st, m) == Window(x) <==> Belongs(w, st, s, Window(x))
    {
      TargetIs(w, st, s, Window(x));
    }
  }

  /** A call succeeds if and only if every sample it takes for new can be written. */
  lemma CallSucceedsIff(w: int, st: State, node: int, samples: seq<Sample>)
    requires w > 0 && Inv(st)
    ensures WriteSamples(w, st, node, samples).outcome == Written <==>
              forall i: nat :: i < |samples| && TakenForNew(w, st, samples, i) ==> Writeable(w, st, node, samples[i])
  {
    var novel := Sift(w, st, samples).novel;
    var of := SiftSelects(w, st, samples);
    CallEffect(w, st, node, samples);
    forall k | 0 <= k < |of|
      ensures of[k] in of && novel[k] == Mark(w, st, samples[of[k]])
    {
    }
    if CallSucceeds(w, st, node, samples) {
      forall i: nat | i < |samples| && TakenForNew(w, st, samples, i)
        ensures Writeable(w, st, node, samples[i])
      {
        var k :| 0 <= k < |of| && of[k] == i;
        SuccessNeeds(w, st, node, samples, novel[k]);
        NovelWriteable(w, st, node, samples[i]);
      }
    }
    if forall i: nat :: i < |samples| && TakenForNew(w, st, samples, i) ==> Writeable(w, st, node, samples[i]) {
      forall m | m in novel
        ensures m.nodeId == node && WellMeasured(m)
        ensures Target(w, st, m).Window? ==> Roomy(st, Target(w, st, m).start)
      {
        var k :| 0 <= k < |novel| && novel[k] == m;
        NovelWriteable(w, st, node, samples[of[k]]);
      }
      SuccessFollows(w, st, node, samples);
    }
  }
}
