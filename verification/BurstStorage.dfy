/** The burst protocol over the windowed writer: what the protocol says is stored
    is what the router has on disk. */
module BurstStorage {
  import opened Capture
  import opened CaptureReader
  import opened CaptureRuns
  import opened Windows
  import opened Router
  import opened RouterRuns
  import opened BurstProtocol

  // ----- one batch -----

  /** The identities of a batch that are on disk already. */
  ghost function KnownKeys(st: Router.State, samples: seq<Sample>): set<Key> {
    set key | key in KeysOf(samples) && OnDisk(st, key)
  }

  /** What the writer drops is on disk: remembered, or found in its own window. */
  lemma {:induction false} DroppedIsOnDisk(w: int, st: Router.State, samples: seq<Sample>, key: Key)
    requires w > 0 && Inv(st) && key in Sift(w, st, samples).seen
    ensures OnDisk(st, key)
  {
    if samples == [] {
      RememberedIsOnDisk(st, key);
    } else {
      var n := |samples| - 1;
      var s, before := samples[n], Sift(w, st, samples[..n]);
      if key in before.seen {
        DroppedIsOnDisk(w, st, samples[..n], key);
      } else {
        assert Archived(w, st, s) && key == KeyOf(s);
        var x := WindowStart(w, s.utcNs.value);
        assert DiskAt(st, Window(x)) == st.finals[x];
        assert key in KeySet(DiskAt(st, Window(x)));
      }
    }
  }

  /** The novel samples of a batch, as far as they are not on disk, are its
      unstored identities in order. */
  lemma {:induction false} NovelAreNewKeys(w: int, st: Router.State, samples: seq<Sample>, known: set<Key>)
    requires w > 0 && Inv(st) && Unstored(st, Sift(w, st, samples).novel)
    requires forall s :: s in samples ==> (KeyOf(s) in known <==> OnDisk(st, KeyOf(s)))
    ensures KeysOf(Sift(w, st, samples).novel) == NewKeys(KeysOf(samples), known)
  {
    if samples != [] {
      var n := |samples| - 1;
      var s, before := samples[n], Sift(w, st, samples[..n]);
      assert samples == samples[..n] + [s];
      assert KeysOf(samples)[..n] == KeysOf(samples[..n]);
      NovelAreNewKeys(w, st, samples[..n], known);
      if KeyOf(s) in Sift(w, st, samples).seen {
        DroppedIsOnDisk(w, st, samples, KeyOf(s));
      } else {
        assert Mark(w, st, s) in Sift(w, st, samples).novel;
      }
    }
  }

  /** The windowed writer takes exactly the unstored identities for new, if and
      only if it takes none for new that is on disk. */
  lemma SiftIsNewKeysIff(w: int, st: Router.State, samples: seq<Sample>)
    requires w > 0 && Inv(st)
    ensures KeysOf(Sift(w, st, samples).novel) == NewKeys(KeysOf(samples), KnownKeys(st, samples))
            <==> Unstored(st, Sift(w, st, samples).novel)
  {
    var novel, known := Sift(w, st, samples).novel, KnownKeys(st, samples);
    if Unstored(st, novel) {
      forall s | s in samples
        ensures KeyOf(s) in known <==> OnDisk(st, KeyOf(s))
      {
        KeyAmong(samples, s);
      }
      NovelAreNewKeys(w, st, samples, known);
    }
    if KeysOf(novel) == NewKeys(KeysOf(samples), known) {
      forall s | s in novel
        ensures !OnDisk(st, KeyOf(s))
      {
        KeyAmong(novel, s);
        NewKeysMembers(KeysOf(samples), known, KeyOf(s));
      }
    }
  }

  lemma KeyAmong(samples: seq<Sample>, s: Sample)
    requires s in samples
    ensures KeyOf(s) in KeysOf(samples)
  {
    var i :| 0 <= i < |samples| && samples[i] == s;
    assert KeysOf(samples)[i] == KeyOf(s);
  }

  /** Where every stored identity of the batch is remembered or lies in the
      published file of its own window, and none comes twice, nothing is doubled. */
  lemma FoundIsClean(w: int, st: Router.State, samples: seq<Sample>)
    requires w > 0 && Inv(st) && Distinct(KeysOf(samples))
    requires forall s :: s in samples && OnDisk(st, KeyOf(s)) ==> KeyOf(s) in st.seen || Archived(w, st, s)
    ensures Clean(w, st, samples)
  {
    forall m | m in Sift(w, st, samples).novel
      ensures !OnDisk(st, KeyOf(m))
    {
      NovelNotFound(w, st, samples, m);
    }
    SiftIsNewKeysIff(w, st, samples);
    NewKeysDistinct(KeysOf(samples), KnownKeys(st, samples));
  }

  lemma {:induction false} NovelNotFound(w: int, st: Router.State, samples: seq<Sample>, m: Sample)
    requires w > 0 && m in Sift(w, st, samples).novel
    ensures exists s :: s in samples && KeyOf(s) == KeyOf(m) && KeyOf(s) !in st.seen && !Archived(w, st, s)
  {
    var n := |samples| - 1;
    var s, before := samples[n], Sift(w, st, samples[..n]);
    SiftFacts(w, st, samples[..n]);
    if m in before.novel {
      NovelNotFound(w, st, samples[..n], m);
    } else {
      assert s in samples && m == Mark(w, st, s);
    }
  }

  // ----- the store of the protocol and the disk -----

  ghost predicate Agrees(store: seq<Key>, st: Router.State) {
    forall key :: key in store <==> OnDisk(st, key)
  }

  /** A key on disk after a call was there before or is one of the novel ones. */
  lemma GrownKey(w: int, st: Router.State, novel: seq<Sample>, st': Router.State, key: Key)
    requires w > 0 && Grown(w, st, novel, st')
    ensures OnDisk(st, key) ==> OnDisk(st', key)
    ensures OnDisk(st', key) ==> OnDisk(st, key) || key in KeySet(novel)
  {
    if OnDisk(st, key) {
      var p :| key in KeySet(DiskAt(st, p));
      KeySetConcat(DiskAt(st, p), Group(w, st, novel, p));
      assert key in KeySet(DiskAt(st', p));
    }
    if OnDisk(st', key) {
      var p :| key in KeySet(DiskAt(st', p));
      KeySetConcat(DiskAt(st, p), Group(w, st, novel, p));
      GroupKeys(w, st, novel, p);
      assert key in KeySet(DiskAt(st, p)) || key in KeySet(novel);
    }
  }

  lemma NovelOnDisk(w: int, st: Router.State, novel: seq<Sample>, st': Router.State, key: Key)
    requires w > 0 && FullyGrown(w, st, novel, st') && key in KeySet(novel)
    ensures OnDisk(st', key)
  {
    var p := KeyHasGroup(w, st, novel, key);
    KeySetConcat(DiskAt(st, p), Group(w, st, novel, p));
    assert key in KeySet(DiskAt(st', p));
  }

  /** A novel sample came in the batch; what came is novel or on disk. */
  lemma BatchKeys(w: int, st: Router.State, samples: seq<Sample>, key: Key)
    requires w > 0 && Inv(st)
    ensures key in KeySet(Sift(w, st, samples).novel) ==> key in KeysOf(samples)
    ensures key in KeysOf(samples) ==> key in KeySet(Sift(w, st, samples).novel) || OnDisk(st, key)
  {
    var novel := Sift(w, st, samples).novel;
    if key in KeySet(novel) {
      var m :| m in novel && KeyOf(m) == key;
      NovelNotFound(w, st, samples, m);
      var s :| s in samples && KeyOf(s) == key;
      KeyAmong(samples, s);
    }
    if key in KeysOf(samples) {
      var i :| 0 <= i < |samples| && KeysOf(samples)[i] == key;
      assert samples[i] in samples && KeyOf(samples[i]) == key;
      SiftFacts(w, st, samples);
      if key in Sift(w, st, samples).seen {
        DroppedIsOnDisk(w, st, samples, key);
      }
    }
  }

  ghost function KeptPositions(keys: seq<Key>, st: Router.State): set<nat> {
    set i | 0 <= i < |keys| && OnDisk(st, keys[i])
  }

  /** A call of the windowed writer is a write of the protocol: all new identities
      are stored if it succeeds, and some of them if it fails. */
  lemma CallAgrees(w: int, st: Router.State, node: int, samples: seq<Sample>, store: seq<Key>, known: set<Key>)
    requires w > 0 && Inv(st) && Agrees(store, st) && known == (set key | key in store)
    ensures var r := WriteSamples(w, st, node, samples);
            var novel := NewKeys(KeysOf(samples), known);
            && (r.outcome == Written ==> Agrees(store + novel, r.state))
            && Agrees(store + Kept(novel, KeptPositions(novel, r.state)), r.state)
  {
    var sifted, r := Sift(w, st, samples), WriteSamples(w, st, node, samples);
    CallEffect(w, st, node, samples);
    AdvancedGrows(w, st, sifted.novel, st.(seen := sifted.seen), r.state);
    if r.outcome == Written {
      FiledGrows(w, st, sifted.novel, st.(seen := sifted.seen), r.state);
    }
    var novel := NewKeys(KeysOf(samples), known);
    forall key
      ensures r.outcome == Written ==> (key in store + novel <==> OnDisk(r.state, key))
      ensures key in store + Kept(novel, KeptPositions(novel, r.state)) <==> OnDisk(r.state, key)
    {
      KeyAgrees(w, st, sifted.novel, r.state, samples, store, known, key);
      if r.outcome == Written && key in novel {
        NovelStored(w, st, samples, r.state, store, known, key);
      }
    }
  }

  lemma NovelStored(
    w: int, st: Router.State, samples: seq<Sample>, st': Router.State, store: seq<Key>, known: set<Key>, key: Key)
    requires w > 0 && Inv(st) && Agrees(store, st) && known == (set k | k in store)
    requires FullyGrown(w, st, Sift(w, st, samples).novel, st') && key in NewKeys(KeysOf(samples), known)
    ensures OnDisk(st', key)
  {
    NewKeysMembers(KeysOf(samples), known, key);
    BatchKeys(w, st, samples, key);
    NovelOnDisk(w, st, Sift(w, st, samples).novel, st', key);
  }

  lemma KeyAgrees(
    w: int, st: Router.State, taken: seq<Sample>, st': Router.State, samples: seq<Sample>, store: seq<Key>,
    known: set<Key>, key: Key)
    requires w > 0 && Inv(st) && Agrees(store, st) && known == (set k | k in store)
    requires taken == Sift(w, st, samples).novel && Grown(w, st, taken, st')
    ensures var novel := NewKeys(KeysOf(samples), known);
            && (key in store + Kept(novel, KeptPositions(novel, st')) <==> OnDisk(st', key))
            && (OnDisk(st', key) ==> key in store + novel)
            && (key in store ==> OnDisk(st', key))
  {
    var novel := NewKeys(KeysOf(samples), known);
    GrownKey(w, st, taken, st', key);
    BatchKeys(w, st, samples, key);
    NewKeysMembers(KeysOf(samples), known, key);
    KeptMembers(novel, KeptPositions(novel, st'), key);
    if OnDisk(st', key) && key !in store {
      var i :| 0 <= i < |novel| && novel[i] == key;
      assert i in KeptPositions(novel, st');
    }
  }

  // ----- each identity once -----

  /** Every key on disk is remembered: the writer can tell what is new. */
  ghost predicate Remembers(st: Router.State) {
    forall key :: OnDisk(st, key) ==> key in st.seen
  }

  /** What comes onto the disk in a session is remembered. */
  lemma AddedIsRemembered(st: Router.State, st': Router.State, key: Key)
    requires Sane(st) && Inv(st') && Immutable(st, st') && OnDisk(st', key) && !OnDisk(st, key)
    ensures key in st'.seen
  {
    var p :| key in KeySet(DiskAt(st', p));
    assert key !in KeySet(DiskAt(st, p));
    DiskIsFile(st, p);
    DiskIsFile(st', p);
  }

  lemma CallRemembers(w: int, st: Router.State, node: int, samples: seq<Sample>)
    requires w > 0 && Inv(st) && Remembers(st)
    ensures Remembers(WriteSamples(w, st, node, samples).state)
  {
    var st' := WriteSamples(w, st, node, samples).state;
    CallKeepsInvariant(w, st, node, samples);
    CallEffect(w, st, node, samples);
    SiftFacts(w, st, samples);
    forall key | OnDisk(st', key)
      ensures key in st'.seen
    {
      if !OnDisk(st, key) {
        AddedIsRemembered(st, st', key);
      }
    }
  }

  lemma RemembersUnstored(w: int, st: Router.State, samples: seq<Sample>)
    requires w > 0 && Remembers(st)
    ensures Unstored(st, Sift(w, st, samples).novel)
  {
    SiftFacts(w, st, samples);
  }

  /** Where every key on disk is remembered, only a repetition within the batch can
      double anything: in all of it, or in what the call files. */
  lemma CleanIffDistinct(w: int, st: Router.State, node: int, samples: seq<Sample>, known: set<Key>)
    requires w > 0 && Inv(st) && Remembers(st)
    requires forall key :: key in known <==> OnDisk(st, key)
    ensures CleanCall(w, st, node, samples) <==> Distinct(KeysOf(RouterRuns.Filed(w, st, node, samples)))
    ensures Clean(w, st, samples) <==> Distinct(NewKeys(KeysOf(samples), known))
  {
    var novel := Sift(w, st, samples).novel;
    RemembersUnstored(w, st, samples);
    NovelAreNewKeys(w, st, samples, known);
    forall s | s in RouterRuns.Filed(w, st, node, samples)
      ensures !OnDisk(st, KeyOf(s))
    {
      WithinMember(w, st, novel, (p: Place) => Taken(w, st, node, novel, p), s);
    }
  }

  // ----- gap rows -----

  /** The call opens the unresolved file: the windows are written and something is
      left for it. */
  ghost predicate OpensUnresolved(w: int, st: Router.State, node: int, samples: seq<Sample>)
    requires w > 0
  {
    var novel := Sift(w, st, samples).novel;
    Writable(w, st, st, node, novel, Targets(w, st, novel)) && Group(w, st, novel, Unresolved) != []
  }

  lemma OpeningLeavesOpen(st: Router.State, x: int)
    requires Sane(st) && (x in st.active || !Closed(st, x))
    ensures EnsureWindow(st, x).active != map[]
  {
    if x !in st.active {
      var grown := st.(active := st.active[x := []]);
      NewWindowSameFiles(st, x);
      EvictSameFiles(grown);
      SurvivorsAreNewest(grown.active.Keys);
      assert x in grown.active.Keys;
      assert Evict(grown).active.Keys != {};
    }
  }

  /** Once a window is open, one stays open. */
  lemma {:induction false} GroupsLeaveOpen(
    w: int, origin: Router.State, st: Router.State, node: int, novel: seq<Sample>, todo: set<int>)
    requires w > 0 && Ready(w, origin, st, novel, todo) && (todo != {} || st.active != map[])
    ensures WriteGroups(w, origin, st, node, novel, todo).state.active != map[]
    decreases todo
  {
    if todo != {} {
      var start := Min(todo);
      OpeningLeavesOpen(st, start);
      EnsureWindowKeeps(st, start);
      if Roomy(st, start) && Acceptable(node, Group(w, origin, novel, Window(start))) {
        OneGroup(w, origin, st, node, novel, todo);
        var ready := EnsureWindow(st, start);
        var st1 := AppendTo(ready, start, Group(w, origin, novel, Window(start)));
        assert start in st1.active;
        GroupsLeaveOpen(w, origin, st1, node, novel, todo - {start});
      }
    }
  }

  /** After a call a file is open if and only if one was before or the batch holds
      something new. */
  lemma OpenAfterIff(w: int, st: Router.State, node: int, samples: seq<Sample>)
    requires w > 0 && Inv(st)
    ensures WriteSamples(w, st, node, samples).state.active != map[] || OpensUnresolved(w, st, node, samples)
            <==> st.active != map[] || Sift(w, st, samples).novel != []
  {
    var sifted := Sift(w, st, samples);
    var novel, todo, start := sifted.novel, Targets(w, st, sifted.novel), st.(seen := sifted.seen);
    TargetsReady(w, st, samples);
    if todo != {} || st.active != map[] {
      GroupsLeaveOpen(w, st, start, node, novel, todo);
      assert todo != {} ==> novel != [];
    } else if novel != [] {
      assert novel[0] in novel && Target(w, st, novel[0]) == Unresolved;
      GroupMembers(w, st, novel, Unresolved, novel[0]);
    }
  }
}
