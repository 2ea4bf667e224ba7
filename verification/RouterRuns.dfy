/** What every call of the router keeps, and what whole sessions keep. */
module RouterRuns {
  import opened Options
  import opened Capture
  import opened CaptureReader
  import opened CaptureRuns
  import opened Windows
  import opened Router

  // ----- opening and publishing windows -----

  ghost predicate Sane(st: State) {
    && (forall w :: w in st.active ==> !Closed(st, w))
    && (forall w :: w in st.inherited ==> w in st.finals)
  }

  /** Published files stay as they are. */
  ghost predicate Immutable(st: State, st': State) {
    && st'.inherited == st.inherited && st'.older == st.older
    && (forall w :: w in st.finals ==> w in st'.finals && st'.finals[w] == st.finals[w])
    && st.finalized <= st'.finalized
  }

  /** Nothing but the set of open windows has changed: no file lost or gained
      a sample, wherever it now is. */
  ghost predicate SameFiles(st: State, st': State) {
    && Sane(st') && Immutable(st, st')
    && st'.seen == st.seen && st'.unresolved == st.unresolved
    && (forall p :: FileAt(st', p) == FileAt(st, p))
  }

  lemma PublishSameFiles(st: State, w: int)
    requires Sane(st) && w in st.active
    ensures SameFiles(st, Publish(st, w))
    ensures Publish(st, w).active.Keys == st.active.Keys - {w}
    ensures forall x :: Closed(Publish(st, w), x) <==> Closed(st, x) || x == w
  {}

  lemma {:induction false} EvictSameFiles(st: State)
    requires Sane(st)
    ensures SameFiles(st, Evict(st))
    ensures Evict(st).active.Keys == Survivors(st.active.Keys)
    ensures forall x :: Closed(Evict(st), x) <==> Closed(st, x) || x in st.active.Keys - Survivors(st.active.Keys)
    decreases |st.active.Keys|
  {
    if |st.active| > MAX_OPEN {
      var oldest := Min(st.active.Keys);
      PublishSameFiles(st, oldest);
      assert |st.active.Keys - {oldest}| < |st.active.Keys|;
      EvictSameFiles(Publish(st, oldest));
    }
  }

  /** Fewer than three open windows are newer. */
  ghost predicate Roomy(st: State, w: int) {
    w in st.active || |NewerThan(st.active.Keys, w)| < MAX_OPEN
  }

  /** Opening a window changes no file and keeps all newer windows; the window is
      open afterwards exactly if there was room for it. */
  lemma EnsureWindowKeeps(st: State, w: int)
    requires Sane(st) && (w in st.active || !Closed(st, w))
    ensures SameFiles(st, EnsureWindow(st, w))
    ensures w in EnsureWindow(st, w).active <==> Roomy(st, w)
    ensures |EnsureWindow(st, w).active.Keys| <= Max(MAX_OPEN, |st.active.Keys|)
    ensures Roomy(st, w) ==> forall x :: x > w ==>
              && (x in EnsureWindow(st, w).active <==> x in st.active)
              && (Closed(EnsureWindow(st, w), x) <==> Closed(st, x))
  {
    if w !in st.active {
      var grown := st.(active := st.active[w := []]);
      NewWindowSameFiles(st, w);
      EvictSameFiles(grown);
      SameFilesTransitive(st, grown, Evict(grown));
      Newcomer(st.active.Keys, w);
    }
  }

  lemma NewWindowSameFiles(st: State, w: int)
    requires Sane(st) && w !in st.active && !Closed(st, w)
    ensures SameFiles(st, st.(active := st.active[w := []]))
    ensures st.(active := st.active[w := []]).active.Keys == st.active.Keys + {w}
  {}

  lemma SameFilesTransitive(a: State, b: State, c: State)
    requires SameFiles(a, b) && SameFiles(b, c)
    ensures SameFiles(a, c)
  {}

  // ----- appending -----

  lemma {:induction false} FreshOfUnseen(samples: seq<Sample>, seen: set<Key>)
    requires forall s :: s in samples ==> KeyOf(s) !in seen
    ensures Fresh(samples, seen) == samples
  {
    if samples != [] {
      var n := |samples| - 1;
      assert samples == samples[..n] + [samples[n]];
      FreshOfUnseen(samples[..n], seen);
    }
  }

  lemma AppendToKeeps(st: State, w: int, samples: seq<Sample>)
    requires Sane(st) && w in st.active
    requires forall s :: s in samples ==> KeyOf(s) !in KeySet(st.active[w])
    ensures Appended(st, w, samples, AppendTo(st, w, samples))
  {
    FreshOfUnseen(samples, KeySet(st.active[w]));
  }

  /** One window's file has grown by these samples; the rest is as it was. */
  ghost predicate Appended(st: State, w: int, samples: seq<Sample>, st': State) {
    && Sane(st') && Immutable(st, st') && st'.active.Keys == st.active.Keys
    && (forall x :: Closed(st', x) <==> Closed(st, x))
    && st'.unresolved == st.unresolved && st'.seen == st.seen + KeySet(samples)
    && forall p :: FileAt(st', p) == FileAt(st, p) + (if p == Window(w) then samples else [])
  }

  // ----- groups -----

  lemma {:induction false} GroupMembers(w: int, st: State, novel: seq<Sample>, p: Place, s: Sample)
    requires w > 0
    ensures s in Group(w, st, novel, p) <==> s in novel && Target(w, st, s) == p
  {
    if novel != [] {
      GroupMembers(w, st, novel[..|novel| - 1], p, s);
      assert novel == novel[..|novel| - 1] + [novel[|novel| - 1]];
    }
  }

  /** What a partial or complete write of the groups of `todo` has done. */
  ghost predicate Wrote(w: int, origin: State, novel: seq<Sample>, todo: set<int>, st: State, st': State)
    requires w > 0
  {
    && Sane(st') && Immutable(st, st') && st'.unresolved == st.unresolved && st.seen <= st'.seen
    && |st'.active.Keys| <= Max(MAX_OPEN, |st.active.Keys|)
    && (forall p :: FileAt(st', p) == FileAt(st, p)
         || (p.Window? && p.start in todo && FileAt(st', p) == FileAt(st, p) + Group(w, origin, novel, p)
             && KeySet(Group(w, origin, novel, p)) <= st'.seen))
    && (forall key :: key in st'.seen && key !in st.seen ==> Held(st', key))
  }

  ghost predicate Complete(w: int, origin: State, novel: seq<Sample>, todo: set<int>, st: State, st': State)
    requires w > 0
  {
    forall p ::
      FileAt(st', p) == FileAt(st, p) + (if p.Window? && p.start in todo then Group(w, origin, novel, p) else [])
  }

  /** The exact condition for the groups to be written: room for every window
      that is not open yet, and acceptable samples. */
  ghost predicate Writable(w: int, origin: State, st: State, node: int, novel: seq<Sample>, todo: set<int>)
    requires w > 0
  {
    forall x :: x in todo ==> Roomy(st, x) && Acceptable(node, Group(w, origin, novel, Window(x)))
  }

  /** The windows whose groups are written: all, or those before the first one for
      which there is no room or whose samples are refused. */
  ghost function Reached(
    w: int, origin: State, st: State, node: int, novel: seq<Sample>, todo: set<int>): set<int>
    requires w > 0
  {
    set x | x in todo && forall y :: y in todo && y <= x ==>
        Roomy(st, y) && Acceptable(node, Group(w, origin, novel, Window(y)))
  }

  ghost predicate Ready(w: int, origin: State, st: State, novel: seq<Sample>, todo: set<int>)
    requires w > 0
  {
    && Sane(st)
    && (forall x :: x in todo ==> !Closed(st, x))
    && (forall x, s :: x in todo && s in Group(w, origin, novel, Window(x)) ==>
        KeyOf(s) !in KeySet(FileAt(st, Window(x))))
  }

  lemma GroupAppended(w: int, origin: State, st: State, ready: State, novel: seq<Sample>, start: int, st1: State)
    requires w > 0 && SameFiles(st, ready) && |ready.active.Keys| <= Max(MAX_OPEN, |st.active.Keys|)
    requires Appended(ready, start, Group(w, origin, novel, Window(start)), st1)
    ensures Wrote(w, origin, novel, {start}, st, st1)
    ensures Complete(w, origin, novel, {start}, st, st1)
  {
    var samples := Group(w, origin, novel, Window(start));
    KeySetConcat(FileAt(st, Window(start)), samples);
    forall key | key in st1.seen && key !in st.seen
      ensures Held(st1, key)
    {
      assert key in KeySet(FileAt(st1, Window(start)));
    }
  }

  lemma StillReady(
    w: int, origin: State, st: State, ready: State, novel: seq<Sample>, todo: set<int>, start: int, st1: State)
    requires w > 0 && SameFiles(st, ready) && Ready(w, origin, st, novel, todo) && start in todo
    requires Appended(ready, start, Group(w, origin, novel, Window(start)), st1)
    requires forall x :: x in todo - {start} ==> (Closed(ready, x) <==> Closed(st, x))
    ensures Ready(w, origin, st1, novel, todo - {start})
  {
    forall x | x in todo - {start}
      ensures !Closed(st1, x) && FileAt(st1, Window(x)) == FileAt(st, Window(x))
    {
      assert FileAt(st1, Window(x)) == FileAt(ready, Window(x)) + [];
    }
  }

  /** One group written: the remaining ones are as writable as before. */
  lemma OneGroup(w: int, origin: State, st: State, node: int, novel: seq<Sample>, todo: set<int>)
    requires w > 0 && todo != {} && Ready(w, origin, st, novel, todo)
    requires Roomy(st, Min(todo))
    ensures var start := Min(todo);
            var ready := EnsureWindow(st, start);
            && start in ready.active
            && var st1 := AppendTo(ready, start, Group(w, origin, novel, Window(start)));
               && Ready(w, origin, st1, novel, todo - {start})
               && Wrote(w, origin, novel, {start}, st, st1)
               && Complete(w, origin, novel, {start}, st, st1)
               && (forall x :: x in todo - {start} ==> (Roomy(st1, x) <==> Roomy(st, x)))
  {
    var start := Min(todo);
    var ready, samples := EnsureWindow(st, start), Group(w, origin, novel, Window(start));
    EnsureWindowKeeps(st, start);
    ReadyFile(w, origin, st, ready, novel, todo, start);
    AppendToKeeps(ready, start, samples);
    GroupAppended(w, origin, st, ready, novel, start, AppendTo(ready, start, samples));
    RestReady(w, origin, st, ready, novel, todo, AppendTo(ready, start, samples));
  }

  lemma ReadyFile(w: int, origin: State, st: State, ready: State, novel: seq<Sample>, todo: set<int>, start: int)
    requires w > 0 && SameFiles(st, ready) && Ready(w, origin, st, novel, todo) && start in todo
             && start in ready.active
    ensures forall s :: s in Group(w, origin, novel, Window(start)) ==> KeyOf(s) !in KeySet(ready.active[start])
  {
    assert FileAt(ready, Window(start)) == ready.active[start];
    assert FileAt(ready, Window(start)) == FileAt(st, Window(start));
  }

  lemma RestReady(w: int, origin: State, st: State, ready: State, novel: seq<Sample>, todo: set<int>, st1: State)
    requires w > 0 && todo != {} && Ready(w, origin, st, novel, todo) && SameFiles(st, ready)
    requires forall x :: x > Min(todo) ==>
        (x in ready.active <==> x in st.active) && (Closed(ready, x) <==> Closed(st, x))
    requires Appended(ready, Min(todo), Group(w, origin, novel, Window(Min(todo))), st1)
    ensures Ready(w, origin, st1, novel, todo - {Min(todo)})
    ensures forall x :: x in todo - {Min(todo)} ==> (Roomy(st1, x) <==> Roomy(st, x))
  {
    var start := Min(todo);
    assert forall x :: x in todo - {start} ==> x > start;
    StillReady(w, origin, st, ready, novel, todo, start, st1);
    StillRoomy(st, ready, st1, start, todo - {start});
  }

  lemma StillRoomy(st: State, ready: State, st1: State, start: int, rest: set<int>)
    requires (forall x :: x in rest ==> x > start) && st1.active.Keys == ready.active.Keys
    requires forall y :: y > start ==> (y in ready.active <==> y in st.active)
    ensures forall x :: x in rest ==> (Roomy(st1, x) <==> Roomy(st, x))
  {
    forall x | x in rest
      ensures Roomy(st1, x) <==> Roomy(st, x)
    {
      assert NewerThan(st1.active.Keys, x) == NewerThan(st.active.Keys, x);
    }
  }

  lemma NothingWritten(w: int, origin: State, st: State, novel: seq<Sample>, todo: set<int>, st': State)
    requires w > 0 && SameFiles(st, st') && |st'.active.Keys| <= Max(MAX_OPEN, |st.active.Keys|)
    ensures Wrote(w, origin, novel, todo, st, st')
    ensures Complete(w, origin, novel, {}, st, st')
  {}

  lemma {:induction false} GroupsWritten(
    w: int, origin: State, st: State, node: int, novel: seq<Sample>, todo: set<int>)
    requires w > 0 && Ready(w, origin, st, novel, todo)
    ensures var r := WriteGroups(w, origin, st, node, novel, todo);
            && !r.outcome.Shut?
            && Wrote(w, origin, novel, todo, st, r.state)
            && (r.outcome == Written <==> Writable(w, origin, st, node, novel, todo))
            && Complete(w, origin, novel, Reached(w, origin, st, node, novel, todo), st, r.state)
    decreases todo
  {
    if todo == {} {
      NothingWritten(w, origin, st, novel, todo, st);
    } else {
      var start := Min(todo);
      var samples := Group(w, origin, novel, Window(start));
      EnsureWindowKeeps(st, start);
      if Roomy(st, start) && Acceptable(node, samples) {
        OneGroup(w, origin, st, node, novel, todo);
        var st1 := AppendTo(EnsureWindow(st, start), start, samples);
        GroupsWritten(w, origin, st1, node, novel, todo - {start});
        var reached := Reached(w, origin, st1, node, novel, todo - {start});
        var st2 := WriteGroups(w, origin, st1, node, novel, todo - {start}).state;
        WroteAfter(w, origin, novel, todo, reached, st, st1, st2);
        WritableAfter(w, origin, st, node, novel, todo, st1);
      } else {
        NothingWritten(w, origin, st, novel, todo, EnsureWindow(st, start));
        NothingReached(w, origin, st, node, novel, todo);
      }
    }
  }

  lemma NothingReached(w: int, origin: State, st: State, node: int, novel: seq<Sample>, todo: set<int>)
    requires w > 0 && todo != {}
    requires !(Roomy(st, Min(todo)) && Acceptable(node, Group(w, origin, novel, Window(Min(todo)))))
    ensures !Writable(w, origin, st, node, novel, todo) && Reached(w, origin, st, node, novel, todo) == {}
  {
    var start := Min(todo);
    assert start in todo && forall x :: x in todo ==> start <= x;
  }

  lemma WritableAfter(w: int, origin: State, st: State, node: int, novel: seq<Sample>, todo: set<int>, st1: State)
    requires w > 0 && todo != {}
    requires var start := Min(todo);
             && Roomy(st, start) && Acceptable(node, Group(w, origin, novel, Window(start)))
             && forall x :: x in todo - {start} ==> (Roomy(st1, x) <==> Roomy(st, x))
    ensures var rest := todo - {Min(todo)};
            && (Writable(w, origin, st, node, novel, todo) <==> Writable(w, origin, st1, node, novel, rest))
            && Reached(w, origin, st, node, novel, todo) == Reached(w, origin, st1, node, novel, rest) + {Min(todo)}
  {
    var start, rest := Min(todo), todo - {Min(todo)};
    var before, after := Reached(w, origin, st, node, novel, todo), Reached(w, origin, st1, node, novel, rest);
    forall x
      ensures x in before <==> x in after + {start}
    {
      assert x in before && x != start ==> x in rest;
    }
  }

  lemma AllReached(w: int, origin: State, st: State, node: int, novel: seq<Sample>, todo: set<int>)
    requires w > 0 && Writable(w, origin, st, node, novel, todo)
    ensures Reached(w, origin, st, node, novel, todo) == todo
  {
  }

  lemma WroteAfter(
    w: int, origin: State, novel: seq<Sample>, todo: set<int>, done: set<int>, st: State, st1: State, st2: State)
    requires w > 0 && todo != {} && done <= todo - {Min(todo)}
    requires var start := Min(todo);
             && Wrote(w, origin, novel, {start}, st, st1) && Complete(w, origin, novel, {start}, st, st1)
             && Wrote(w, origin, novel, todo - {start}, st1, st2)
    ensures Wrote(w, origin, novel, todo, st, st2)
    ensures Complete(w, origin, novel, done, st1, st2) ==> Complete(w, origin, novel, done + {Min(todo)}, st, st2)
  {
    var start := Min(todo);
    forall p
      ensures FileAt(st2, p) == FileAt(st, p)
         || (p.Window? && p.start in todo && FileAt(st2, p) == FileAt(st, p) + Group(w, origin, novel, p)
             && KeySet(Group(w, origin, novel, p)) <= st2.seen)
    {
      if p == Window(start) {
        assert FileAt(st2, p) == FileAt(st1, p);
      } else {
        assert FileAt(st1, p) == FileAt(st, p) + [];
      }
    }
    forall key | key in st2.seen && key !in st.seen
      ensures Held(st2, key)
    {
      if key in st1.seen {
        assert Held(st1, key);
        var p :| key in KeySet(FileAt(st1, p));
        KeySetConcat(FileAt(st1, p), Group(w, origin, novel, p));
        assert key in KeySet(FileAt(st2, p));
      }
    }
  }

  // ----- a whole call -----

  ghost predicate Published(st: State, key: Key) {
    exists x :: x in st.finals && key in KeySet(st.finals[x])
  }

  lemma {:induction false} SiftFacts(w: int, st: State, samples: seq<Sample>)
    requires w > 0
    ensures var sifted := Sift(w, st, samples);
            && st.seen <= sifted.seen
            && (forall s :: s in sifted.novel ==> KeyOf(s) !in st.seen && s.routing == RoutingFlags(w, st, s))
            && (forall key :: key in sifted.seen ==> key in st.seen || Published(st, key))
            && (forall s :: s in samples ==> KeyOf(s) in sifted.seen || KeyOf(s) in KeySet(sifted.novel))
  {
    if samples != [] {
      var n := |samples| - 1;
      var s, before := samples[n], Sift(w, st, samples[..n]);
      SiftFacts(w, st, samples[..n]);
      assert samples == samples[..n] + [s];
      KeySetConcat(before.novel, [Mark(w, st, s)]);
      assert KeyOf(Mark(w, st, s)) in KeySet([Mark(w, st, s)]);
      if Archived(w, st, s) {
        assert Published(st, KeyOf(s));
      }
    }
  }

  /** The exact condition for a call to succeed. */
  ghost predicate CallSucceeds(w: int, st: State, node: int, samples: seq<Sample>)
    requires w > 0
  {
    var novel := Sift(w, st, samples).novel;
    && Writable(w, st, st, node, novel, Targets(w, st, novel))
    && Acceptable(node, Group(w, st, novel, Unresolved))
  }

  /** What a call, successful or not, has done to the files. */
  ghost predicate Advanced(w: int, origin: State, novel: seq<Sample>, st: State, st': State)
    requires w > 0
  {
    && Sane(st') && Immutable(st, st') && st.seen <= st'.seen
    && |st'.active.Keys| <= Max(MAX_OPEN, |st.active.Keys|)
    && (forall p :: FileAt(st', p) == FileAt(st, p)
         || (FileAt(st', p) == FileAt(st, p) + Group(w, origin, novel, p)
           && KeySet(Group(w, origin, novel, p)) <= st'.seen))
    && (forall key :: key in st'.seen && key !in st.seen ==> Held(st', key))
  }

  ghost predicate AllFiled(w: int, origin: State, novel: seq<Sample>, st: State, st': State)
    requires w > 0
  {
    forall p :: FileAt(st', p) == FileAt(st, p) + Group(w, origin, novel, p)
  }

  /** Nothing is routed to a window that is no target, nor to an old file. */
  lemma EmptyGroup(w: int, st: State, novel: seq<Sample>, p: Place)
    requires w > 0 && (p.Older? || (p.Window? && p.start !in Targets(w, st, novel)))
    ensures Group(w, st, novel, p) == []
  {
    var g := Group(w, st, novel, p);
    if g != [] {
      GroupMembers(w, st, novel, p, g[0]);
    }
  }

  lemma TargetsReady(w: int, st: State, samples: seq<Sample>)
    requires w > 0 && Inv(st)
    ensures var sifted := Sift(w, st, samples);
            Ready(w, st, st.(seen := sifted.seen), sifted.novel, Targets(w, st, sifted.novel))
  {
    var sifted := Sift(w, st, samples);
    SiftFacts(w, st, samples);
    var start := st.(seen := sifted.seen);
    forall x, s | x in Targets(w, st, sifted.novel) && s in Group(w, st, sifted.novel, Window(x))
      ensures KeyOf(s) !in KeySet(FileAt(start, Window(x)))
    {
      GroupMembers(w, st, sifted.novel, Window(x), s);
      assert FileAt(start, Window(x)) == FileAt(st, Window(x));
    }
  }

  lemma {:induction false} UnresolvedWritten(w: int, origin: State, st: State, node: int, novel: seq<Sample>)
    requires w > 0 && Sane(st)
    requires forall s :: s in novel ==> KeyOf(s) !in KeySet(st.unresolved)
    ensures var g := Group(w, origin, novel, Unresolved);
            var r := WriteUnresolved(st, node, g);
            && (r.outcome == Written <==> Acceptable(node, g))
            && Sane(r.state) && Immutable(st, r.state) && r.state.active == st.active
            && (r.outcome != Written ==> r.state == st)
            && (r.outcome == Written ==>
                 && r.state.seen == st.seen + KeySet(g)
                 && forall p :: FileAt(r.state, p) == FileAt(st, p) + (if p == Unresolved then g else []))
  {
    var g := Group(w, origin, novel, Unresolved);
    forall s | s in g
      ensures KeyOf(s) !in KeySet(st.unresolved)
    {
      GroupMembers(w, origin, novel, Unresolved, s);
    }
    FreshOfUnseen(g, KeySet(st.unresolved));
  }

  lemma PlaceFiled(w: int, origin: State, novel: seq<Sample>, st: State, st1: State, st2: State, p: Place)
    requires w > 0
    requires Wrote(w, origin, novel, Targets(w, origin, novel), st, st1)
    requires Complete(w, origin, novel, Targets(w, origin, novel), st, st1)
    requires st2.seen == st1.seen + KeySet(Group(w, origin, novel, Unresolved))
    requires FileAt(st2, p) == FileAt(st1, p) + (if p == Unresolved then Group(w, origin, novel, Unresolved) else [])
    ensures FileAt(st2, p) == FileAt(st, p) + Group(w, origin, novel, p)
    ensures KeySet(Group(w, origin, novel, p)) <= st2.seen
  {
    if p.Older? || (p.Window? && p.start !in Targets(w, origin, novel)) {
      EmptyGroup(w, origin, novel, p);
    }
    if p.Window? && p.start in Targets(w, origin, novel) && FileAt(st1, p) == FileAt(st, p) {
      assert Group(w, origin, novel, p) == [];
    }
  }

  lemma UnresolvedAfterWindows(w: int, origin: State, novel: seq<Sample>, st: State, st1: State, st2: State)
    requires w > 0
    requires Wrote(w, origin, novel, Targets(w, origin, novel), st, st1)
    requires Complete(w, origin, novel, Targets(w, origin, novel), st, st1)
    requires Sane(st2) && Immutable(st1, st2) && st2.active == st1.active
    requires var g := Group(w, origin, novel, Unresolved);
             && st2.seen == st1.seen + KeySet(g)
             && forall p :: FileAt(st2, p) == FileAt(st1, p) + (if p == Unresolved then g else [])
    ensures AllFiled(w, origin, novel, st, st2)
    ensures Advanced(w, origin, novel, st, st2)
  {
    forall p
      ensures FileAt(st2, p) == FileAt(st, p) + Group(w, origin, novel, p)
      ensures KeySet(Group(w, origin, novel, p)) <= st2.seen
    {
      PlaceFiled(w, origin, novel, st, st1, st2, p);
    }
    forall key | key in st2.seen && key !in st.seen
      ensures Held(st2, key)
    {
      NewlyHeld(w, origin, novel, st, st1, st2, key);
    }
  }

  lemma NewlyHeld(w: int, origin: State, novel: seq<Sample>, st: State, st1: State, st2: State, key: Key)
    requires w > 0 && Wrote(w, origin, novel, Targets(w, origin, novel), st, st1)
    requires var g := Group(w, origin, novel, Unresolved);
             && st2.seen == st1.seen + KeySet(g)
             && forall p :: FileAt(st2, p) == FileAt(st1, p) + (if p == Unresolved then g else [])
    requires key in st2.seen && key !in st.seen
    ensures Held(st2, key)
  {
    var g := Group(w, origin, novel, Unresolved);
    KeySetConcat(FileAt(st1, Unresolved), g);
    if key in st1.seen {
      var p :| key in KeySet(FileAt(st1, p));
      KeySetConcat(FileAt(st1, p), if p == Unresolved then g else []);
      assert key in KeySet(FileAt(st2, p));
    } else {
      assert key in KeySet(FileAt(st2, Unresolved));
    }
  }

  lemma SomeReady(w: int, st: State, samples: seq<Sample>, todo: set<int>)
    requires w > 0 && Inv(st) && todo <= Targets(w, st, Sift(w, st, samples).novel)
    ensures var sifted := Sift(w, st, samples); Ready(w, st, st.(seen := sifted.seen), sifted.novel, todo)
  {
    TargetsReady(w, st, samples);
  }

  lemma SeenIrrelevant(w: int, st: State, start: State, node: int, novel: seq<Sample>, todo: set<int>)
    requires w > 0 && start == st.(seen := start.seen)
    ensures Writable(w, st, start, node, novel, todo) <==> Writable(w, st, st, node, novel, todo)
    ensures Reached(w, st, start, node, novel, todo) == Reached(w, st, st, node, novel, todo)
  {
    assert forall x :: Roomy(start, x) <==> Roomy(st, x);
  }

  /** The windows of a call, or some of them. */
  lemma WindowsPhase(w: int, st: State, node: int, samples: seq<Sample>, todo: set<int>)
    requires w > 0 && Inv(st) && todo <= Targets(w, st, Sift(w, st, samples).novel)
    ensures var sifted := Sift(w, st, samples);
            var start := st.(seen := sifted.seen);
            var r := WriteGroups(w, st, start, node, sifted.novel, todo);
            && !r.outcome.Shut?
            && (r.outcome == Written <==> Writable(w, st, st, node, sifted.novel, todo))
            && Wrote(w, st, sifted.novel, todo, start, r.state)
            && Complete(w, st, sifted.novel, Reached(w, st, st, node, sifted.novel, todo), start, r.state)
            && (r.outcome == Written ==> Complete(w, st, sifted.novel, todo, start, r.state))
  {
    var sifted := Sift(w, st, samples);
    var start := st.(seen := sifted.seen);
    SomeReady(w, st, samples, todo);
    GroupsWritten(w, st, start, node, sifted.novel, todo);
    SeenIrrelevant(w, st, start, node, sifted.novel, todo);
    if Writable(w, st, st, node, sifted.novel, todo) {
      AllReached(w, st, st, node, sifted.novel, todo);
    }
  }

  lemma UnresolvedPhase(w: int, st: State, node: int, novel: seq<Sample>, start: State, st1: State)
    requires w > 0 && Inv(st) && start == st.(seen := start.seen)
    requires forall s :: s in novel ==> KeyOf(s) !in st.seen
    requires Wrote(w, st, novel, Targets(w, st, novel), start, st1)
    requires Complete(w, st, novel, Targets(w, st, novel), start, st1)
    ensures var r := WriteUnresolved(st1, node, Group(w, st, novel, Unresolved));
            && !r.outcome.Shut?
            && (r.outcome == Written <==> Acceptable(node, Group(w, st, novel, Unresolved)))
            && Advanced(w, st, novel, start, r.state)
            && (r.outcome == Written ==> AllFiled(w, st, novel, start, r.state))
  {
    assert st1.unresolved == FileAt(st, Unresolved);
    UnresolvedWritten(w, st, st1, node, novel);
    var r := WriteUnresolved(st1, node, Group(w, st, novel, Unresolved));
    if r.outcome == Written {
      UnresolvedAfterWindows(w, st, novel, start, st1, r.state);
    }
  }

  /** Which groups of a batch a call writes, successful or not. */
  ghost predicate Taken(w: int, st: State, node: int, novel: seq<Sample>, p: Place)
    requires w > 0
  {
    match p
    case Window(x) => x in Reached(w, st, st, node, novel, Targets(w, st, novel))
    case Unresolved =>
      && Writable(w, st, st, node, novel, Targets(w, st, novel))
      && Acceptable(node, Group(w, st, novel, Unresolved))
    case Older(_) => false
  }

  /** The samples of some places, in order. */
  ghost function Within(w: int, st: State, novel: seq<Sample>, places: Place -> bool): seq<Sample>
    requires w > 0
  {
    if novel == [] then []
    else
      var n := |novel| - 1;
      Within(w, st, novel[..n], places) + (if places(Target(w, st, novel[n])) then [novel[n]] else [])
  }

  /** The samples of a batch that a call files. */
  ghost function Filed(w: int, st: State, node: int, samples: seq<Sample>): seq<Sample>
    requires w > 0
  {
    var novel := Sift(w, st, samples).novel;
    Within(w, st, novel, (p: Place) => Taken(w, st, node, novel, p))
  }

  lemma {:induction false} GroupWithin(w: int, st: State, novel: seq<Sample>, places: Place -> bool, p: Place)
    requires w > 0
    ensures Group(w, st, Within(w, st, novel, places), p) == if places(p) then Group(w, st, novel, p) else []
  {
    if novel != [] {
      var n := |novel| - 1;
      var before := Within(w, st, novel[..n], places);
      GroupWithin(w, st, novel[..n], places, p);
      GroupSnoc(w, st, before, novel[n], p);
      assert before + [] == before;
    }
  }

  lemma {:induction false} WithinMember(w: int, st: State, novel: seq<Sample>, places: Place -> bool, s: Sample)
    requires w > 0
    ensures s in Within(w, st, novel, places) <==> s in novel && places(Target(w, st, s))
  {
    if novel != [] {
      WithinMember(w, st, novel[..|novel| - 1], places, s);
      assert novel == novel[..|novel| - 1] + [novel[|novel| - 1]];
    }
  }

  lemma {:induction false} WithinAll(w: int, st: State, novel: seq<Sample>, places: Place -> bool)
    requires w > 0 && forall s :: s in novel ==> places(Target(w, st, s))
    ensures Within(w, st, novel, places) == novel
  {
    if novel != [] {
      var n := |novel| - 1;
      WithinAll(w, st, novel[..n], places);
      assert novel == novel[..n] + [novel[n]] && novel[n] in novel;
    }
  }

  /** A successful call files all that is new. */
  lemma SuccessFilesAll(w: int, st: State, node: int, samples: seq<Sample>)
    requires w > 0 && CallSucceeds(w, st, node, samples)
    ensures Filed(w, st, node, samples) == Sift(w, st, samples).novel
  {
    var novel := Sift(w, st, samples).novel;
    AllReached(w, st, st, node, novel, Targets(w, st, novel));
    forall s | s in novel
      ensures Taken(w, st, node, novel, Target(w, st, s))
    {
      assert Target(w, st, s).Window? ==> Target(w, st, s).start in Targets(w, st, novel);
    }
    WithinAll(w, st, novel, (p: Place) => Taken(w, st, node, novel, p));
  }

  lemma FiledHere(w: int, st: State, node: int, samples: seq<Sample>, p: Place)
    requires w > 0
    ensures var novel := Sift(w, st, samples).novel;
            Group(w, st, Filed(w, st, node, samples), p)
            == if Taken(w, st, node, novel, p) then Group(w, st, novel, p) else []
  {
    var novel := Sift(w, st, samples).novel;
    GroupWithin(w, st, novel, (q: Place) => Taken(w, st, node, novel, q), p);
  }

  /** A call that fails has filed the groups of the windows reached. */
  lemma FailureFiles(w: int, st: State, node: int, samples: seq<Sample>, start: State, st': State)
    requires w > 0 && !CallSucceeds(w, st, node, samples)
    requires var novel := Sift(w, st, samples).novel;
             Complete(w, st, novel, Reached(w, st, st, node, novel, Targets(w, st, novel)), start, st')
    ensures AllFiled(w, st, Filed(w, st, node, samples), start, st')
  {
    forall p
      ensures FileAt(st', p) == FileAt(start, p) + Group(w, st, Filed(w, st, node, samples), p)
    {
      FiledHere(w, st, node, samples, p);
    }
  }

  /** What one call does: it succeeds exactly if CallSucceeds, and appends to every
      file exactly the samples of `Filed` that are routed there. These are all new
      samples if it succeeds, and otherwise those of the windows before the first
      one that fails. */
  lemma CallEffect(w: int, st: State, node: int, samples: seq<Sample>)
    requires w > 0 && Inv(st)
    ensures var sifted := Sift(w, st, samples);
            var r := WriteSamples(w, st, node, samples);
            && !r.outcome.Shut?
            && (r.outcome == Written <==> CallSucceeds(w, st, node, samples))
            && Advanced(w, st, sifted.novel, st.(seen := sifted.seen), r.state)
            && AllFiled(w, st, Filed(w, st, node, samples), st.(seen := sifted.seen), r.state)
            && (r.outcome == Written ==> Filed(w, st, node, samples) == sifted.novel)
  {
    var sifted := Sift(w, st, samples);
    var start, todo := st.(seen := sifted.seen), Targets(w, st, sifted.novel);
    SiftFacts(w, st, samples);
    WindowsPhase(w, st, node, samples, todo);
    var r1 := WriteGroups(w, st, start, node, sifted.novel, todo);
    if r1.outcome == Written {
      UnresolvedPhase(w, st, node, sifted.novel, start, r1.state);
    }
    if CallSucceeds(w, st, node, samples) {
      SuccessFilesAll(w, st, node, samples);
    } else {
      FailureFiles(w, st, node, samples, start, WriteSamples(w, st, node, samples).state);
    }
  }

  lemma SiftOne(w: int, st: State, s: Sample)
    requires w > 0 && KeyOf(s) !in st.seen && !Archived(w, st, s)
    ensures Sift(w, st, [s]) == Sifted(st.seen, [Mark(w, st, s)])
  {
    assert [s][..0] == [];
  }

  /** A new sample for a window that is older than three open ones fails the call. */
  lemma NoRoomFails(w: int, st: State, node: int, s: Sample)
    requires w > 0 && Inv(st) && KeyOf(s) !in st.seen
    requires Target(w, st, s).Window? && !Roomy(st, Target(w, st, s).start)
    ensures WriteSamples(w, st, node, [s]).outcome != Written
  {
    var m := Mark(w, st, s);
    SiftOne(w, st, s);
    assert m in [m] && Target(w, st, m) == Target(w, st, s);
    CallEffect(w, st, node, [s]);
  }

  /** The three windows after that of the epoch are open. */
  function ThreeOpen(w: int): State {
    State(map[w := [], 2 * w := [], 3 * w := []], map[], {}, [], {}, {}, [])
  }

  lemma ThreeOpenKeeps(w: int)
    requires w > 0
    ensures Inv(ThreeOpen(w)) && !Roomy(ThreeOpen(w), 0)
  {
    forall p
      ensures FileAt(ThreeOpen(w), p) == []
    {
    }
    assert NewerThan(ThreeOpen(w).active.Keys, 0) == {w, 2 * w, 3 * w};
  }

  lemma FourthWindowFails(w: int, node: int, s: Sample)
    requires w > 0 && s.utcNs == Some(0)
    ensures WriteSamples(w, ThreeOpen(w), node, [s]).outcome != Written
  {
    ThreeOpenKeeps(w);
    NoRoomFails(w, ThreeOpen(w), node, s);
  }

  // ----- what every call keeps -----

  lemma HeldStays(w: int, origin: State, novel: seq<Sample>, st: State, st': State, key: Key)
    requires w > 0 && Advanced(w, origin, novel, st, st') && Held(st, key)
    ensures Held(st', key)
  {
    var p :| key in KeySet(FileAt(st, p));
    KeySetConcat(FileAt(st, p), Group(w, origin, novel, p));
    assert key in KeySet(FileAt(st', p));
  }

  lemma AdvancedKeepsInv(w: int, st: State, novel: seq<Sample>, start: State, st': State)
    requires w > 0 && Inv(st) && start == st.(seen := start.seen)
    requires Advanced(w, st, novel, start, st')
    requires st.seen <= start.seen
    requires forall key :: key in start.seen ==> key in st.seen || Published(st, key)
    ensures Inv(st')
  {
    forall p, key | key in KeySet(FileAt(st', p))
      ensures key in st'.seen
    {
      assert FileAt(start, p) == FileAt(st, p);
      KeySetConcat(FileAt(start, p), Group(w, st, novel, p));
    }
    forall key | key in st'.seen
      ensures Held(st', key) || Inherited(st', key)
    {
      if key in start.seen {
        KnownKey(st, start, key);
        if Held(start, key) {
          HeldStays(w, st, novel, start, st', key);
        } else {
          var x :| x in start.inherited && x in start.finals && key in KeySet(start.finals[x]);
          assert x in st'.inherited && key in KeySet(st'.finals[x]);
        }
      }
    }
  }

  /** Every key known to the session stays in a file, on every outcome, and open
      and closed windows stay apart. */
  lemma CallKeepsInvariant(w: int, st: State, node: int, samples: seq<Sample>)
    requires w > 0 && Inv(st)
    ensures var r := WriteSamples(w, st, node, samples);
            && Inv(r.state) && Immutable(st, r.state)
            && |r.state.active.Keys| <= Max(MAX_OPEN, |st.active.Keys|)
            && (FilesFit(w, st) ==> FilesFit(w, r.state))
  {
    CallEffect(w, st, node, samples);
    SiftFacts(w, st, samples);
    var sifted, st' := Sift(w, st, samples), WriteSamples(w, st, node, samples).state;
    AdvancedKeepsInv(w, st, sifted.novel, st.(seen := sifted.seen), st');
    if FilesFit(w, st) {
      AdvancedKeepsFit(w, st, sifted.novel, st.(seen := sifted.seen), st');
    }
  }

  /** What the session itself published is remembered. */
  lemma PublishedIsInherited(st: State, key: Key)
    requires Inv(st) && key !in st.seen && Published(st, key)
    ensures Inherited(st, key)
  {
    var x :| x in st.finals && key in KeySet(st.finals[x]);
    assert key !in KeySet(FileAt(st, Window(x)));
  }

  lemma KnownKey(st: State, start: State, key: Key)
    requires Inv(st) && start == st.(seen := start.seen)
    requires key in st.seen || Published(st, key)
    ensures Held(start, key) || Inherited(start, key)
  {
    if key !in st.seen {
      PublishedIsInherited(st, key);
    }
    if Held(st, key) {
      var p :| key in KeySet(FileAt(st, p));
      assert FileAt(start, p) == FileAt(st, p);
    } else {
      var x :| x in st.inherited && x in st.finals && key in KeySet(st.finals[x]);
      assert x in start.inherited && key in KeySet(start.finals[x]);
    }
  }

  lemma FiledIsHeld(w: int, origin: State, novel: seq<Sample>, st: State, st': State, m: Sample)
    requires w > 0 && AllFiled(w, origin, novel, st, st') && m in novel
    ensures Held(st', KeyOf(m))
  {
    var p := Target(w, origin, m);
    GroupMembers(w, origin, novel, p, m);
    assert m in FileAt(st', p);
    assert KeyOf(m) in KeySet(FileAt(st', p));
  }

  /** Nothing submitted in a successful call is lost. */
  lemma SubmittedIsHeld(w: int, st: State, node: int, samples: seq<Sample>, s: Sample)
    requires w > 0 && Inv(st) && s in samples
    requires WriteSamples(w, st, node, samples).outcome == Written
    ensures var st' := WriteSamples(w, st, node, samples).state;
            Held(st', KeyOf(s)) || Inherited(st', KeyOf(s))
  {
    CallEffect(w, st, node, samples);
    CallKeepsInvariant(w, st, node, samples);
    SiftFacts(w, st, samples);
    var sifted, st' := Sift(w, st, samples), WriteSamples(w, st, node, samples).state;
    if KeyOf(s) in KeySet(sifted.novel) {
      var m :| m in sifted.novel && KeyOf(m) == KeyOf(s);
      FiledIsHeld(w, st, sifted.novel, st.(seen := sifted.seen), st', m);
    }
  }

  /** The flags mean what they say. */
  lemma RoutedFits(w: int, st: State, s: Sample)
    requires w > 0 && s.routing == RoutingFlags(w, st, s)
    ensures FitsPlace(w, Target(w, st, s), s)
  {
    if s.utcNs.Some? {
      var utc, slack, start := s.utcNs.value, GetOr(s.uncertaintyNs, 0), WindowStart(w, s.utcNs.value);
      if slack >= 0 && Certain(w, start, utc, slack) {
        assert InWindow(w, start, utc - slack) && InWindow(w, start, utc + slack);
      }
    }
  }

  lemma AdvancedKeepsFit(w: int, st: State, novel: seq<Sample>, start: State, st': State)
    requires w > 0 && FilesFit(w, st) && start == st.(seen := start.seen)
    requires Advanced(w, st, novel, start, st')
    requires forall s :: s in novel ==> s.routing == RoutingFlags(w, st, s)
    ensures FilesFit(w, st')
  {
    forall p, s | s in FileAt(st', p)
      ensures FitsPlace(w, p, s)
    {
      assert FileAt(start, p) == FileAt(st, p);
      if s !in FileAt(st, p) {
        GroupMembers(w, st, novel, p, s);
        RoutedFits(w, st, s);
      }
    }
  }

  // ----- routing flags -----

  /** The flags of every sample in this session's files tell whether it has a
      time. */
  ghost predicate FilesRouted(st: State) {
    forall p :: AllRouted(FileAt(st, p))
  }

  /** Every batch that reaches a file is routed. */
  lemma GroupRouted(w: int, st: State, samples: seq<Sample>, p: Place)
    requires w > 0
    ensures AllRouted(Group(w, st, Sift(w, st, samples).novel, p))
  {
    var novel := Sift(w, st, samples).novel;
    SiftFacts(w, st, samples);
    forall s | s in Group(w, st, novel, p)
      ensures Routed(s)
    {
      GroupMembers(w, st, novel, p, s);
    }
  }

  lemma AdvancedKeepsRouted(w: int, st: State, novel: seq<Sample>, start: State, st': State, p: Place)
    requires w > 0 && start == st.(seen := start.seen) && Advanced(w, st, novel, start, st')
    requires AllRouted(FileAt(st, p)) && AllRouted(Group(w, st, novel, p))
    ensures AllRouted(FileAt(st', p))
  {
    assert FileAt(start, p) == FileAt(st, p);
  }

  lemma CallKeepsRouted(w: int, st: State, node: int, samples: seq<Sample>)
    requires w > 0 && Inv(st) && FilesRouted(st)
    ensures FilesRouted(WriteSamples(w, st, node, samples).state)
  {
    var sifted, st' := Sift(w, st, samples), WriteSamples(w, st, node, samples).state;
    CallEffect(w, st, node, samples);
    forall p
      ensures AllRouted(FileAt(st', p))
    {
      GroupRouted(w, st, samples, p);
      AdvancedKeepsRouted(w, st, sifted.novel, st.(seen := sifted.seen), st', p);
    }
  }

  /** The file of a window after the first never has a block with incomplete UTC
      endpoints, however its routed batches came and were interrupted. */
  lemma WindowBlocksComplete(w: int, start: int, events: seq<Event>, k: nat)
    requires w > 0 && start > 0 && RoutedBatches(events) && k < |Run(events).blocks|
    requires forall n, s :: 0 <= n < |events| && events[n].Batch? && s in events[n].samples ==>
               s.utcNs.Some? && WindowStart(w, s.utcNs.value) == start
    ensures UtcComplete(Run(events).blocks[k])
  {
    RoutedBlockUtc(events, k);
    var f := StoredFragments(events)[k];
    assert f[0] in f && f[|f| - 1] in f;
    var m := FragmentMember(events, k, f[0]);
    var n := FragmentMember(events, k, f[|f| - 1]);
    LaterWindow(w, start, f[0].utcNs.value);
    LaterWindow(w, start, f[|f| - 1].utcNs.value);
  }

  lemma LaterWindow(w: int, start: int, utcNs: int)
    requires w > 0 && start > 0 && WindowStart(w, utcNs) == start
    ensures utcNs >= 0
  {
    FloorWindow(w, Seconds(utcNs));
    SecondsIs(utcNs);
  }

  // ----- stored exactly once -----

  /** The keys of a list are distinct exactly if each group has distinct keys and
      no two groups share one. */
  ghost predicate GroupsApart(w: int, st: State, novel: seq<Sample>)
    requires w > 0
  {
    && (forall p :: Distinct(KeysOf(Group(w, st, novel, p))))
    && (forall p, q, key :: key in KeySet(Group(w, st, novel, p)) && key in KeySet(Group(w, st, novel, q)) ==> p == q)
  }

  lemma DistinctSnoc(a: seq<Sample>, s: Sample)
    ensures Distinct(KeysOf(a + [s])) <==> Distinct(KeysOf(a)) && KeyOf(s) !in KeySet(a)
  {
    assert KeysOf(a + [s]) == KeysOf(a) + [KeyOf(s)];
    DistinctConcat(KeysOf(a), [KeyOf(s)]);
    KeySetOfKeys(a);
    assert KeyOf(s) in KeySet(a) <==> KeyOf(s) in KeysOf(a);
  }

  lemma KeyHasGroup(w: int, st: State, novel: seq<Sample>, key: Key) returns (p: Place)
    requires w > 0 && key in KeySet(novel)
    ensures key in KeySet(Group(w, st, novel, p))
  {
    var m :| m in novel && KeyOf(m) == key;
    p := Target(w, st, m);
    GroupMembers(w, st, novel, p, m);
  }

  lemma GroupKeys(w: int, st: State, novel: seq<Sample>, p: Place)
    requires w > 0
    ensures KeySet(Group(w, st, novel, p)) <= KeySet(novel)
  {
    forall key | key in KeySet(Group(w, st, novel, p))
      ensures key in KeySet(novel)
    {
      var m :| m in Group(w, st, novel, p) && KeyOf(m) == key;
      GroupMembers(w, st, novel, p, m);
    }
  }

  lemma {:induction false} DistinctIffGroupsApart(w: int, st: State, novel: seq<Sample>)
    requires w > 0
    ensures Distinct(KeysOf(novel)) <==> GroupsApart(w, st, novel)
  {
    if novel != [] {
      var n := |novel| - 1;
      var init, s := novel[..n], novel[n];
      DistinctIffGroupsApart(w, st, init);
      assert novel == init + [s];
      DistinctSnoc(init, s);
      ApartSnoc(w, st, init, s);
    }
  }

  ghost predicate GrowsBy(w: int, st: State, init: seq<Sample>, s: Sample, p: Place)
    requires w > 0
  {
    var before, after := Group(w, st, init, p), Group(w, st, init + [s], p);
    if p == Target(w, st, s) then after == before + [s] && KeySet(after) == KeySet(before) + {KeyOf(s)}
    else after == before
  }

  lemma GroupSnoc(w: int, st: State, init: seq<Sample>, s: Sample, p: Place)
    requires w > 0
    ensures GrowsBy(w, st, init, s, p)
  {
    assert (init + [s])[..|init|] == init;
    KeySetConcat(Group(w, st, init, p), [s]);
    assert KeySet([s]) == {KeyOf(s)};
    assert Group(w, st, init, p) + [] == Group(w, st, init, p);
  }

  lemma ApartSnoc(w: int, st: State, init: seq<Sample>, s: Sample)
    requires w > 0
    ensures GroupsApart(w, st, init + [s]) <==> GroupsApart(w, st, init) && KeyOf(s) !in KeySet(init)
  {
    if GroupsApart(w, st, init + [s]) {
      ApartShrinks(w, st, init, s);
    }
    if GroupsApart(w, st, init) && KeyOf(s) !in KeySet(init) {
      ApartGrows(w, st, init, s);
    }
  }

  lemma ApartShrinks(w: int, st: State, init: seq<Sample>, s: Sample)
    requires w > 0 && GroupsApart(w, st, init + [s])
    ensures GroupsApart(w, st, init) && KeyOf(s) !in KeySet(init)
  {
    var novel, t := init + [s], Target(w, st, s);
    forall p
      ensures GrowsBy(w, st, init, s, p) && Distinct(KeysOf(Group(w, st, init, p)))
    {
      GroupSnoc(w, st, init, s, p);
      assert Distinct(KeysOf(Group(w, st, novel, p)));
      DistinctSnoc(Group(w, st, init, p), s);
    }
    forall p, q, key | key in KeySet(Group(w, st, init, p)) && key in KeySet(Group(w, st, init, q))
      ensures p == q
    {
      assert GrowsBy(w, st, init, s, p) && GrowsBy(w, st, init, s, q);
      assert key in KeySet(Group(w, st, novel, p)) && key in KeySet(Group(w, st, novel, q));
    }
    DistinctSnoc(Group(w, st, init, t), s);
    assert GrowsBy(w, st, init, s, t);
    if KeyOf(s) in KeySet(init) {
      var p := KeyHasGroup(w, st, init, KeyOf(s));
    }
  }

  lemma ApartGrows(w: int, st: State, init: seq<Sample>, s: Sample)
    requires w > 0 && GroupsApart(w, st, init) && KeyOf(s) !in KeySet(init)
    ensures GroupsApart(w, st, init + [s])
  {
    var novel, t := init + [s], Target(w, st, s);
    forall p
      ensures GrowsBy(w, st, init, s, p) && KeyOf(s) !in KeySet(Group(w, st, init, p))
      ensures Distinct(KeysOf(Group(w, st, novel, p)))
    {
      GroupSnoc(w, st, init, s, p);
      GroupKeys(w, st, init, p);
      DistinctSnoc(Group(w, st, init, p), s);
    }
    forall p, q, key | key in KeySet(Group(w, st, novel, p)) && key in KeySet(Group(w, st, novel, q))
      ensures p == q
    {
      assert GrowsBy(w, st, init, s, p) && GrowsBy(w, st, init, s, q);
    }
  }

  lemma FileGrows(file: seq<Sample>, g: seq<Sample>)
    requires KeySet(file) !! KeySet(g)
    ensures KeySet(file + g) == KeySet(file) + KeySet(g)
    ensures Distinct(KeysOf(file + g)) <==> Distinct(KeysOf(file)) && Distinct(KeysOf(g))
  {
    KeySetConcat(file, g);
    assert KeysOf(file + g) == KeysOf(file) + KeysOf(g);
    DistinctConcat(KeysOf(file), KeysOf(g));
    KeySetOfKeys(file);
    KeySetOfKeys(g);
    forall key | key in KeysOf(file)
      ensures key !in KeysOf(g)
    {
      assert key in KeySet(file);
      assert key in KeysOf(g) ==> key in KeySet(g);
    }
  }

  /** The files after a call: all groups filed, or, if it failed, some of them
      completely and the others not at all. */
  ghost predicate Grown(w: int, st: State, novel: seq<Sample>, st': State)
    requires w > 0
  {
    forall p :: DiskAt(st', p) == DiskAt(st, p) || DiskAt(st', p) == DiskAt(st, p) + Group(w, st, novel, p)
  }

  ghost predicate FullyGrown(w: int, st: State, novel: seq<Sample>, st': State)
    requires w > 0
  {
    forall p :: DiskAt(st', p) == DiskAt(st, p) + Group(w, st, novel, p)
  }

  /** Nothing is routed to a window that was published before the session. */
  lemma ClosedGroup(w: int, st: State, novel: seq<Sample>, x: int)
    requires w > 0 && Closed(st, x)
    ensures Group(w, st, novel, Window(x)) == []
  {
    EmptyGroup(w, st, novel, Window(x));
  }

  /** Off the files of earlier sessions, the disk is what this session wrote. */
  lemma DiskIsFile(st: State, p: Place)
    requires Sane(st)
    ensures !p.Older? && !(p.Window? && p.start in st.inherited) ==> DiskAt(st, p) == FileAt(st, p)
    ensures p.Window? && p.start in st.inherited ==> p.start in st.finals && DiskAt(st, p) == st.finals[p.start]
  {
  }

  lemma AdvancedGrows(w: int, st: State, novel: seq<Sample>, start: State, st': State)
    requires w > 0 && Sane(st) && start == st.(seen := start.seen) && Advanced(w, st, novel, start, st')
    ensures Grown(w, st, novel, st')
  {
    forall p
      ensures DiskAt(st', p) == DiskAt(st, p) || DiskAt(st', p) == DiskAt(st, p) + Group(w, st, novel, p)
    {
      DiskIsFile(st, p);
      DiskIsFile(st', p);
      assert FileAt(start, p) == FileAt(st, p);
    }
  }

  lemma FiledGrows(w: int, st: State, novel: seq<Sample>, start: State, st': State)
    requires w > 0 && Sane(st) && Sane(st') && start == st.(seen := start.seen) && Immutable(start, st')
    requires AllFiled(w, st, novel, start, st')
    ensures FullyGrown(w, st, novel, st')
  {
    forall p
      ensures DiskAt(st', p) == DiskAt(st, p) + Group(w, st, novel, p)
    {
      DiskIsFile(st, p);
      DiskIsFile(st', p);
      assert FileAt(start, p) == FileAt(st, p);
      if p.Older? {
        EmptyGroup(w, st, novel, p);
      } else if p.Window? && p.start in st.inherited {
        ClosedGroup(w, st, novel, p.start);
      }
    }
  }

  lemma KnownIsOnDisk(st: State, key: Key)
    requires Sane(st) && (Held(st, key) || Inherited(st, key))
    ensures OnDisk(st, key)
  {
    if Held(st, key) {
      var p :| key in KeySet(FileAt(st, p));
      DiskIsFile(st, p);
      assert key in KeySet(DiskAt(st, p));
    } else {
      var x :| x in st.inherited && x in st.finals && key in KeySet(st.finals[x]);
      DiskIsFile(st, Window(x));
      assert key in KeySet(DiskAt(st, Window(x)));
    }
  }

  /** The disk holds what the session remembers. */
  lemma RememberedIsOnDisk(st: State, key: Key)
    requires Inv(st) && key in st.seen
    ensures OnDisk(st, key)
  {
    KnownIsOnDisk(st, key);
  }

  /** No identity in the batch is new twice, and none that is taken for new is on
      disk already, in a file the writer has not looked into. */
  ghost predicate Clean(w: int, st: State, samples: seq<Sample>)
    requires w > 0
  {
    NothingDoubled(st, Sift(w, st, samples).novel)
  }

  /** The same of the samples that the call files. */
  ghost predicate CleanCall(w: int, st: State, node: int, samples: seq<Sample>)
    requires w > 0
  {
    NothingDoubled(st, Filed(w, st, node, samples))
  }

  ghost predicate NothingDoubled(st: State, added: seq<Sample>) {
    Distinct(KeysOf(added)) && Unstored(st, added)
  }

  ghost predicate Unstored(st: State, novel: seq<Sample>) {
    forall s :: s in novel ==> !OnDisk(st, KeyOf(s))
  }

  lemma GroupUnstored(w: int, st: State, novel: seq<Sample>, p: Place, q: Place)
    requires w > 0 && Unstored(st, novel)
    ensures KeySet(DiskAt(st, q)) !! KeySet(Group(w, st, novel, p))
  {
    forall key | key in KeySet(Group(w, st, novel, p))
      ensures key !in KeySet(DiskAt(st, q))
    {
      var m :| m in Group(w, st, novel, p) && KeyOf(m) == key;
      GroupMembers(w, st, novel, p, m);
      assert !OnDisk(st, key);
    }
  }

  /** What a place holds in the end, if the batch is clean. */
  lemma PlaceGrows(w: int, st: State, novel: seq<Sample>, st': State, p: Place)
    requires w > 0 && Grown(w, st, novel, st') && Unstored(st, novel)
    requires Distinct(KeysOf(DiskAt(st, p))) && Distinct(KeysOf(Group(w, st, novel, p)))
    ensures Distinct(KeysOf(DiskAt(st', p)))
    ensures KeySet(DiskAt(st', p)) <= KeySet(DiskAt(st, p)) + KeySet(Group(w, st, novel, p))
  {
    GroupUnstored(w, st, novel, p, p);
    FileGrows(DiskAt(st, p), Group(w, st, novel, p));
  }

  lemma CleanStaysOnce(w: int, st: State, novel: seq<Sample>, st': State)
    requires w > 0 && Once(st) && Grown(w, st, novel, st') && Unstored(st, novel) && GroupsApart(w, st, novel)
    ensures Once(st')
  {
    forall p
      ensures Distinct(KeysOf(DiskAt(st', p)))
      ensures KeySet(DiskAt(st', p)) <= KeySet(DiskAt(st, p)) + KeySet(Group(w, st, novel, p))
    {
      PlaceGrows(w, st, novel, st', p);
    }
    forall p, q, key | key in KeySet(DiskAt(st', p)) && key in KeySet(DiskAt(st', q))
      ensures p == q
    {
      GroupUnstored(w, st, novel, p, q);
      GroupUnstored(w, st, novel, q, p);
    }
  }

  /** With everything filed, once in the end means once before, a batch without
      repetition, and nothing of it on disk before. */
  lemma OnceWasOnce(w: int, st: State, novel: seq<Sample>, st': State)
    requires w > 0 && FullyGrown(w, st, novel, st') && Once(st')
    ensures Once(st) && GroupsApart(w, st, novel)
  {
    forall p
      ensures KeySet(DiskAt(st', p)) == KeySet(DiskAt(st, p)) + KeySet(Group(w, st, novel, p))
      ensures Distinct(KeysOf(DiskAt(st, p))) && Distinct(KeysOf(Group(w, st, novel, p)))
    {
      FileShrinks(DiskAt(st, p), Group(w, st, novel, p));
      assert Distinct(KeysOf(DiskAt(st', p)));
    }
    forall p, q, key | key in KeySet(DiskAt(st, p)) && key in KeySet(DiskAt(st, q))
      ensures p == q
    {
      assert key in KeySet(DiskAt(st', p)) && key in KeySet(DiskAt(st', q));
    }
    forall p, q, key | key in KeySet(Group(w, st, novel, p)) && key in KeySet(Group(w, st, novel, q))
      ensures p == q
    {
      assert key in KeySet(DiskAt(st', p)) && key in KeySet(DiskAt(st', q));
    }
  }

  lemma FileShrinks(file: seq<Sample>, g: seq<Sample>)
    ensures KeySet(file + g) == KeySet(file) + KeySet(g)
    ensures Distinct(KeysOf(file + g)) ==> Distinct(KeysOf(file)) && Distinct(KeysOf(g)) && KeySet(file) !! KeySet(g)
  {
    KeySetConcat(file, g);
    assert KeysOf(file + g) == KeysOf(file) + KeysOf(g);
    DistinctConcat(KeysOf(file), KeysOf(g));
    KeySetOfKeys(file);
    KeySetOfKeys(g);
    if Distinct(KeysOf(file + g)) {
      forall key | key in KeySet(file)
        ensures key !in KeySet(g)
      {
        assert key in KeysOf(file);
        assert key in KeySet(g) ==> key in KeysOf(g);
      }
    }
  }

  lemma OnceWasUnstored(w: int, st: State, novel: seq<Sample>, st': State)
    requires w > 0 && FullyGrown(w, st, novel, st') && Once(st')
    ensures Unstored(st, novel)
  {
    forall s | s in novel
      ensures !OnDisk(st, KeyOf(s))
    {
      var p := Target(w, st, s);
      GroupMembers(w, st, novel, p, s);
      forall q
        ensures KeyOf(s) !in KeySet(DiskAt(st, q))
      {
        FileShrinks(DiskAt(st, p), Group(w, st, novel, p));
        FileShrinks(DiskAt(st, q), Group(w, st, novel, q));
        assert Distinct(KeysOf(DiskAt(st', p)));
        assert KeyOf(s) in KeySet(DiskAt(st', p));
      }
    }
  }

  /** Where nothing but `added` is filed, and all of that. */
  lemma OnceIffNothingDoubled(w: int, st: State, added: seq<Sample>, st': State)
    requires w > 0 && FullyGrown(w, st, added, st')
    ensures Once(st') <==> Once(st) && NothingDoubled(st, added)
  {
    DistinctIffGroupsApart(w, st, added);
    if Once(st) && NothingDoubled(st, added) {
      CleanStaysOnce(w, st, added, st');
    }
    if Once(st') {
      OnceWasOnce(w, st, added, st');
      OnceWasUnstored(w, st, added, st');
    }
  }

  lemma CallGrows(w: int, st: State, node: int, samples: seq<Sample>)
    requires w > 0 && Inv(st)
    ensures FullyGrown(w, st, Filed(w, st, node, samples), WriteSamples(w, st, node, samples).state)
  {
    CallEffect(w, st, node, samples);
    FiledGrows(w, st, Filed(w, st, node, samples), st.(seen := Sift(w, st, samples).seen),
      WriteSamples(w, st, node, samples).state);
  }

  /** On every outcome, nothing is on disk twice after a call if and only if nothing
      was before and no identity of the samples it files is filed twice or was on
      disk. */
  lemma CallOnceIff(w: int, st: State, node: int, samples: seq<Sample>)
    requires w > 0 && Inv(st)
    ensures Once(WriteSamples(w, st, node, samples).state) <==> Once(st) && CleanCall(w, st, node, samples)
    ensures WriteSamples(w, st, node, samples).outcome == Written ==>
              (CleanCall(w, st, node, samples) <==> Clean(w, st, samples))
    ensures Clean(w, st, samples) ==> CleanCall(w, st, node, samples)
  {
    CallGrows(w, st, node, samples);
    OnceIffNothingDoubled(w, st, Filed(w, st, node, samples), WriteSamples(w, st, node, samples).state);
    CallEffect(w, st, node, samples);
    if Clean(w, st, samples) {
      var novel := Sift(w, st, samples).novel;
      WithinClean(w, st, novel, (p: Place) => Taken(w, st, node, novel, p));
    }
  }

  /** What is chosen from samples that double nothing doubles nothing. */
  lemma {:induction false} WithinClean(w: int, st: State, novel: seq<Sample>, places: Place -> bool)
    requires w > 0 && NothingDoubled(st, novel)
    ensures NothingDoubled(st, Within(w, st, novel, places))
    ensures KeySet(Within(w, st, novel, places)) <= KeySet(novel)
  {
    if novel != [] {
      var n := |novel| - 1;
      var init, s := novel[..n], novel[n];
      assert novel == init + [s];
      DistinctSnoc(init, s);
      KeySetConcat(init, [s]);
      WithinClean(w, st, init, places);
      var before := Within(w, st, init, places);
      DistinctSnoc(before, s);
      KeySetConcat(before, [s]);
      assert before + [] == before;
    }
  }

  // ----- sessions: any sequence of calls -----

  function Session(w: int, st: State, node: int, batches: seq<seq<Sample>>): State
    requires w > 0
  {
    if batches == [] then st
    else WriteSamples(w, Session(w, st, node, batches[..|batches| - 1]), node, batches[|batches| - 1]).state
  }

  /** Over any sequence of calls, whatever their outcomes: every known key stays
      in a file, open and closed windows stay apart, published files never
      change, no more than three windows stay open (unless more were open at the
      start), every window file holds only samples of its window, and flags tell
      whether a sample has a time. */
  lemma {:induction false} SessionKeeps(w: int, st: State, node: int, batches: seq<seq<Sample>>)
    requires w > 0 && Inv(st)
    ensures var st' := Session(w, st, node, batches);
            && Inv(st') && Immutable(st, st')
            && |st'.active.Keys| <= Max(MAX_OPEN, |st.active.Keys|)
            && (FilesFit(w, st) ==> FilesFit(w, st'))
            && (FilesRouted(st) ==> FilesRouted(st'))
  {
    if batches != [] {
      var n := |batches| - 1;
      SessionKeeps(w, st, node, batches[..n]);
      var before := Session(w, st, node, batches[..n]);
      CallKeepsInvariant(w, before, node, batches[n]);
      if FilesRouted(before) {
        CallKeepsRouted(w, before, node, batches[n]);
      }
    }
  }

  ghost predicate AllWritten(w: int, st: State, node: int, batches: seq<seq<Sample>>)
    requires w > 0
  {
    batches == [] || (AllWritten(w, st, node, batches[..|batches| - 1])
      && Written
         == WriteSamples(w, Session(w, st, node, batches[..|batches| - 1]), node, batches[|batches| - 1]).outcome)
  }

  /** Every call doubled nothing. */
  ghost predicate AllClean(w: int, st: State, node: int, batches: seq<seq<Sample>>)
    requires w > 0
  {
    batches == [] || (AllClean(w, st, node, batches[..|batches| - 1])
      && CleanCall(w, Session(w, st, node, batches[..|batches| - 1]), node, batches[|batches| - 1]))
  }

  /** After any sequence of calls, failed ones included, each identity is on disk
      once, neither twice in one file nor in two, if and only if it was so before
      and every call was clean. */
  lemma {:induction false} SessionOnceIff(w: int, st: State, node: int, batches: seq<seq<Sample>>)
    requires w > 0 && Inv(st)
    ensures Once(Session(w, st, node, batches)) <==> Once(st) && AllClean(w, st, node, batches)
  {
    if batches != [] {
      var n := |batches| - 1;
      SessionOnceIff(w, st, node, batches[..n]);
      SessionKeeps(w, st, node, batches[..n]);
      CallOnceIff(w, Session(w, st, node, batches[..n]), node, batches[n]);
    }
  }

  /** The disk after a restart: one window, published with one sample. */
  function Restarted(s: Sample): State {
    State(map[], map[0 := [s]], {}, [], {}, {0}, [])
  }

  lemma RestartedKeeps(w: int, s: Sample)
    requires w > 0
    ensures Inv(Restarted(s)) && FilesFit(w, Restarted(s)) && Once(Restarted(s))
  {
    var st := Restarted(s);
    forall p
      ensures FileAt(st, p) == [] && DiskAt(st, p) == if p == Window(0) then [s] else []
    {
    }
  }

  /** A sample of a published window that comes again without a time is taken for
      new, and stored a second time. */
  lemma UntimedStoredTwice(w: int, node: int, s: Sample)
    requires w > 0 && Acceptable(node, [s])
    ensures var st, batch := Restarted(s), [s.(utcNs := None)];
            && Inv(st) && FilesFit(w, st) && Once(st) && Distinct(KeysOf(Sift(w, st, batch).novel))
            && WriteSamples(w, st, node, batch).outcome == Written && !Once(WriteSamples(w, st, node, batch).state)
  {
    var st, untimed := Restarted(s), s.(utcNs := None);
    RestartedKeeps(w, s);
    SiftOne(w, st, untimed);
    assert [s][0] == s;
    UntimedWritten(w, st, node, untimed);
    assert s in DiskAt(st, Window(0)) && KeyOf(s) == KeyOf(untimed);
    StoredAlready(w, st, untimed);
    CallOnceIff(w, st, node, [untimed]);
  }

  lemma UntimedWritten(w: int, st: State, node: int, s: Sample)
    requires w > 0 && Inv(st) && KeyOf(s) !in st.seen && s.utcNs == None && Acceptable(node, [s])
    ensures WriteSamples(w, st, node, [s]).outcome == Written
  {
    var m := Mark(w, st, s);
    SiftOne(w, st, s);
    OneUntimed(w, st, m);
    CallEffect(w, st, node, [s]);
  }

  lemma OneUntimed(w: int, st: State, m: Sample)
    requires w > 0 && m.utcNs == None
    ensures Group(w, st, [m], Unresolved) == [m] && Targets(w, st, [m]) == {}
  {
    assert [m][..0] == [];
    assert forall x :: x in [m] ==> x == m;
  }

  lemma StoredAlready(w: int, st: State, s: Sample)
    requires w > 0 && KeyOf(s) !in st.seen && !Archived(w, st, s)
    requires exists p, o :: o in DiskAt(st, p) && KeyOf(o) == KeyOf(s)
    ensures !Clean(w, st, [s])
  {
    var m := Mark(w, st, s);
    SiftOne(w, st, s);
    var p, o :| o in DiskAt(st, p) && KeyOf(o) == KeyOf(s);
    assert KeyOf(m) in KeySet(DiskAt(st, p)) && m in [m];
  }

  lemma KnownStays(w: int, st: State, node: int, samples: seq<Sample>, key: Key)
    requires w > 0 && Inv(st) && (Held(st, key) || Inherited(st, key))
    ensures var st' := WriteSamples(w, st, node, samples).state; Held(st', key) || Inherited(st', key)
  {
    CallEffect(w, st, node, samples);
    var sifted, st' := Sift(w, st, samples), WriteSamples(w, st, node, samples).state;
    KnownLater(w, st, sifted.novel, st.(seen := sifted.seen), st', key);
  }

  lemma KnownLater(w: int, st: State, novel: seq<Sample>, start: State, st': State, key: Key)
    requires w > 0 && start == st.(seen := start.seen) && Advanced(w, st, novel, start, st')
    requires Held(st, key) || Inherited(st, key)
    ensures Held(st', key) || Inherited(st', key)
  {
    if Held(st, key) {
      var p :| key in KeySet(FileAt(st, p));
      assert FileAt(start, p) == FileAt(st, p);
      HeldStays(w, st, novel, start, st', key);
    } else {
      var x :| x in st.inherited && x in st.finals && key in KeySet(st.finals[x]);
      assert x in st'.inherited && key in KeySet(st'.finals[x]);
    }
  }

  /** Every sample submitted in a sequence of successful calls is, in the end, in
      a file of this session or was already in one published before it. */
  lemma {:induction false} SessionHoldsSubmitted(
    w: int, st: State, node: int, batches: seq<seq<Sample>>, n: nat, s: Sample)
    requires w > 0 && Inv(st) && AllWritten(w, st, node, batches)
    requires n < |batches| && s in batches[n]
    ensures var st' := Session(w, st, node, batches); Held(st', KeyOf(s)) || Inherited(st', KeyOf(s))
    decreases |batches|
  {
    var last := |batches| - 1;
    SessionKeeps(w, st, node, batches[..last]);
    var before := Session(w, st, node, batches[..last]);
    if n == last {
      SubmittedIsHeld(w, before, node, batches[last], s);
    } else {
      SessionHoldsSubmitted(w, st, node, batches[..last], n, s);
      KnownStays(w, before, node, batches[last], KeyOf(s));
    }
  }
}
