/** The windowed writer over many sessions: calls, restarts and crashes, in any
    order, and the Capture file of every place through all of them. */
module RouterLives {
  import opened Options
  import opened Capture
  import opened CaptureReader
  import opened CaptureRuns
  import opened Windows
  import opened Router
  import opened RouterRuns
  import opened RouterFiling

  // ----- what a restart makes of an open window -----

  /** A partial window is resumed, or published by the new session because it has
      ended, or was already complete and is published without being read, or is
      set aside as unreadable. The last two may be marked as closed. */
  datatype Fate = Resume | PublishEnded | PublishComplete(marked: bool) | SetAside(marked: bool)

  type Fates = map<int, Fate>

  function FateOf(fates: Fates, x: int): Fate { if x in fates then fates[x] else Resume }

  function Chosen(st: State, fates: Fates, fate: Fate): map<int, seq<Sample>> {
    map x | x in st.active && FateOf(fates, x) == fate :: st.active[x]
  }

  /** The first state of the next session. */
  function Recovered(st: State, fates: Fates): State {
    Begin(
      st.finals + Chosen(st, fates, PublishComplete(false)) + Chosen(st, fates, PublishComplete(true)),
      Chosen(st, fates, PublishComplete(true)).Keys + Chosen(st, fates, SetAside(true)).Keys,
      Chosen(st, fates, Resume), Chosen(st, fates, PublishEnded), st.older + [st.unresolved])
  }

  lemma RecoveredInv(st: State, fates: Fates)
    requires Sane(st)
    ensures Inv(Recovered(st, fates))
  {
    BeginInv(
      st.finals + Chosen(st, fates, PublishComplete(false)) + Chosen(st, fates, PublishComplete(true)),
      Chosen(st, fates, PublishComplete(true)).Keys + Chosen(st, fates, SetAside(true)).Keys,
      Chosen(st, fates, Resume), Chosen(st, fates, PublishEnded), st.older + [st.unresolved]);
  }

  predicate IsSetAside(st: State, fates: Fates, p: Place) {
    p.Window? && p.start in st.active && FateOf(fates, p.start).SetAside?
  }

  /** Where the file of a place was before the restart. */
  function Was(st: State, p: Place): Place {
    if p == Older(|st.older|) then Unresolved else p
  }

  /** A restart moves files and sets some aside, but changes none. */
  lemma RecoveredDisk(st: State, fates: Fates, p: Place)
    requires Sane(st)
    ensures DiskAt(Recovered(st, fates), p)
            == if p == Unresolved || IsSetAside(st, fates, p) then [] else DiskAt(st, Was(st, p))
  {
    if p.Window? {
      RecoveredWindow(st, fates, p.start);
    }
  }

  lemma RecoveredWindow(st: State, fates: Fates, x: int)
    requires Sane(st)
    ensures var st' := Recovered(st, fates);
            && (x in st.active ==>
                 match FateOf(fates, x)
                 case Resume => x in st'.active && st'.active[x] == st.active[x]
                 case SetAside(_) => x !in st'.active && x !in st'.finals
                 case _ => x !in st'.active && x in st'.finals && st'.finals[x] == st.active[x])
            && (x !in st.active ==>
                 && x !in st'.active && (x in st'.finals <==> x in st.finals)
                 && (x in st.finals ==> st'.finals[x] == st.finals[x]))
  {
  }

  lemma RecoveredOnce(st: State, fates: Fates)
    requires Sane(st) && Once(st)
    ensures Once(Recovered(st, fates))
  {
    var st' := Recovered(st, fates);
    forall p
      ensures Distinct(KeysOf(DiskAt(st', p)))
    {
      RecoveredDisk(st, fates, p);
    }
    forall p, q, key | key in KeySet(DiskAt(st', p)) && key in KeySet(DiskAt(st', q))
      ensures p == q
    {
      RecoveredDisk(st, fates, p);
      RecoveredDisk(st, fates, q);
      assert Was(st, p) == Was(st, q);
    }
  }

  // ----- a call that dies -----

  /** The windows before a limit. */
  ghost function Before(w: int, st: State, novel: seq<Sample>, limit: int): set<int>
    requires w > 0
  {
    set x | x in Targets(w, st, novel) && x < limit
  }

  /** The process dies in a call when the windows before a limit are done. */
  ghost function Dying(w: int, st: State, node: int, samples: seq<Sample>, limit: int): State
    requires w > 0
  {
    var sifted := Sift(w, st, samples);
    WriteGroups(w, st, st.(seen := sifted.seen), node, sifted.novel, Before(w, st, sifted.novel, limit)).state
  }

  ghost predicate TakenBefore(w: int, st: State, node: int, novel: seq<Sample>, limit: int, p: Place)
    requires w > 0
  {
    p.Window? && p.start in Reached(w, st, st, node, novel, Before(w, st, novel, limit))
  }

  ghost function FiledBefore(w: int, st: State, node: int, samples: seq<Sample>, limit: int): seq<Sample>
    requires w > 0
  {
    var novel := Sift(w, st, samples).novel;
    Within(w, st, novel, (p: Place) => TakenBefore(w, st, node, novel, limit, p))
  }

  /** It leaves the files as a call that fails does. */
  lemma DyingEffect(w: int, st: State, node: int, samples: seq<Sample>, limit: int)
    requires w > 0 && Inv(st)
    ensures var sifted, st' := Sift(w, st, samples), Dying(w, st, node, samples, limit);
            && Advanced(w, st, sifted.novel, st.(seen := sifted.seen), st')
            && AllFiled(w, st, FiledBefore(w, st, node, samples, limit), st.(seen := sifted.seen), st')
  {
    var sifted, st' := Sift(w, st, samples), Dying(w, st, node, samples, limit);
    WindowsPhase(w, st, node, samples, Before(w, st, sifted.novel, limit));
    forall p
      ensures FileAt(st', p)
              == FileAt(st.(seen := sifted.seen), p) + Group(w, st, FiledBefore(w, st, node, samples, limit), p)
    {
      GroupWithin(w, st, sifted.novel, (q: Place) => TakenBefore(w, st, node, sifted.novel, limit, q), p);
    }
  }

  // ----- lives -----

  /** The writer is called; the process is restarted between two calls; or it dies
      in a call, perhaps between the two flushes of the file it is at. */
  datatype Occasion =
    | Call(node: int, samples: seq<Sample>)
    | Restart(fates: Fates)
    | Crash(node: int, samples: seq<Sample>, limit: int, rawFlushed: bool, fates: Fates)

  /** The state in which the files are left before any recovery. */
  ghost function Left(w: int, st: State, o: Occasion): State
    requires w > 0
  {
    match o
    case Call(node, samples) => WriteSamples(w, st, node, samples).state
    case Restart(_) => st
    case Crash(node, samples, limit, _, _) => Dying(w, st, node, samples, limit)
  }

  ghost function Next(w: int, st: State, o: Occasion): State
    requires w > 0
  {
    if o.Call? then Left(w, st, o) else Recovered(Left(w, st, o), o.fates)
  }

  ghost function Life(w: int, st: State, occasions: seq<Occasion>): State
    requires w > 0
  {
    if occasions == [] then st
    else Next(w, Life(w, st, occasions[..|occasions| - 1]), occasions[|occasions| - 1])
  }

  /** The samples filed on an occasion. */
  ghost function Added(w: int, st: State, o: Occasion): seq<Sample>
    requires w > 0
  {
    match o
    case Call(node, samples) => Filed(w, st, node, samples)
    case Restart(_) => []
    case Crash(node, samples, limit, _, _) => FiledBefore(w, st, node, samples, limit)
  }

  /** What is filed is new and carries the flags of the router. */
  lemma AddedMember(w: int, st: State, o: Occasion, s: Sample)
    requires w > 0 && s in Added(w, st, o)
    ensures KeyOf(s) !in st.seen && s.routing == RoutingFlags(w, st, s)
  {
    var novel := Sift(w, st, o.samples).novel;
    SiftFacts(w, st, o.samples);
    if o.Call? {
      WithinMember(w, st, novel, (p: Place) => Taken(w, st, o.node, novel, p), s);
    } else {
      WithinMember(w, st, novel, (p: Place) => TakenBefore(w, st, o.node, novel, o.limit, p), s);
    }
  }

  /** Before recovery: every file has grown by the samples filed there. */
  lemma LeftGrows(w: int, st: State, o: Occasion)
    requires w > 0 && Inv(st)
    ensures var st' := Left(w, st, o);
            && Inv(st') && Immutable(st, st') && FullyGrown(w, st, Added(w, st, o), st')
            && |st'.active.Keys| <= Max(MAX_OPEN, |st.active.Keys|)
  {
    match o
    case Call(node, samples) =>
      CallGrows(w, st, node, samples);
      CallKeepsInvariant(w, st, node, samples);
    case Restart(_) =>
    case Crash(node, samples, limit, _, _) =>
      var sifted, st' := Sift(w, st, samples), Dying(w, st, node, samples, limit);
      var start := st.(seen := sifted.seen);
      DyingEffect(w, st, node, samples, limit);
      SiftFacts(w, st, samples);
      AdvancedKeepsInv(w, st, sifted.novel, start, st');
      FiledGrows(w, st, FiledBefore(w, st, node, samples, limit), start, st');
  }

  // ----- what every life keeps -----

  /** Every file on disk, whichever session wrote it, holds only samples that fit
      it. */
  ghost predicate DiskFits(w: int, st: State)
    requires w > 0
  {
    forall p, s :: s in DiskAt(st, p) ==> FitsPlace(w, p, s)
  }

  /** Every sample on disk has 24-bit axes and a range of the sensor. */
  ghost predicate DiskMeasured(st: State) {
    forall p, s :: s in DiskAt(st, p) ==> WellMeasured(s)
  }

  lemma AddedMeasured(w: int, st: State, o: Occasion, s: Sample)
    requires w > 0 && s in Added(w, st, o)
    ensures WellMeasured(s)
  {
    if o.Call? {
      FiledAcceptable(w, st, o.node, o.samples, s);
    } else {
      var novel := Sift(w, st, o.samples).novel;
      var p := Target(w, st, s);
      WithinMember(w, st, novel, (q: Place) => TakenBefore(w, st, o.node, novel, o.limit, q), s);
      GroupMembers(w, st, novel, p, s);
      AcceptableIff(o.node, Group(w, st, novel, p));
    }
  }

  lemma NextMeasured(w: int, st: State, o: Occasion)
    requires w > 0 && Inv(st) && DiskMeasured(st)
    ensures DiskMeasured(Next(w, st, o))
  {
    var left, added := Left(w, st, o), Added(w, st, o);
    LeftGrows(w, st, o);
    forall p, s | s in DiskAt(left, p)
      ensures WellMeasured(s)
    {
      if s !in DiskAt(st, p) {
        GroupMembers(w, st, added, p, s);
        AddedMeasured(w, st, o, s);
      }
    }
    if !o.Call? {
      forall p
        ensures var files := DiskAt(Recovered(left, o.fates), p); files == [] || files == DiskAt(left, Was(left, p))
      {
        RecoveredDisk(left, o.fates, p);
      }
    }
  }

  lemma GrownFits(w: int, st: State, added: seq<Sample>, st': State)
    requires w > 0 && DiskFits(w, st) && FullyGrown(w, st, added, st')
    requires forall s :: s in added ==> s.routing == RoutingFlags(w, st, s)
    ensures DiskFits(w, st')
  {
    forall p, s | s in DiskAt(st', p)
      ensures FitsPlace(w, p, s)
    {
      if s !in DiskAt(st, p) {
        GroupMembers(w, st, added, p, s);
        RoutedFits(w, st, s);
      }
    }
  }

  lemma RecoveredFits(w: int, st: State, fates: Fates)
    requires w > 0 && Sane(st) && DiskFits(w, st)
    ensures DiskFits(w, Recovered(st, fates))
  {
    var st' := Recovered(st, fates);
    forall p
      ensures DiskAt(st', p) == [] || DiskAt(st', p) == DiskAt(st, Was(st, p))
    {
      RecoveredDisk(st, fates, p);
    }
  }

  lemma NextKeeps(w: int, st: State, o: Occasion)
    requires w > 0 && Inv(st)
    ensures var st' := Next(w, st, o);
            && Inv(st') && |st'.active.Keys| <= Max(MAX_OPEN, |st.active.Keys|)
            && (DiskFits(w, st) ==> DiskFits(w, st'))
  {
    var left := Left(w, st, o);
    LeftGrows(w, st, o);
    if DiskFits(w, st) {
      forall s | s in Added(w, st, o)
        ensures s.routing == RoutingFlags(w, st, s)
      {
        AddedMember(w, st, o, s);
      }
      GrownFits(w, st, Added(w, st, o), left);
    }
    if !o.Call? {
      RecoveredInv(left, o.fates);
      ResumedFewer(left, o.fates);
      if DiskFits(w, st) {
        RecoveredFits(w, left, o.fates);
      }
    }
  }

  lemma ResumedFewer(st: State, fates: Fates)
    ensures |Recovered(st, fates).active.Keys| <= |st.active.Keys|
  {
    assert Recovered(st, fates).active.Keys <= st.active.Keys;
    SubsetSize(Recovered(st, fates).active.Keys, st.active.Keys);
  }

  /** Over any number of sessions: the invariant of the router, never more than
      three open windows (unless there were more at the start), and every file on
      disk holds only samples that fit it. */
  lemma {:induction false} LifeKeeps(w: int, st: State, occasions: seq<Occasion>)
    requires w > 0 && Inv(st)
    ensures var st' := Life(w, st, occasions);
            && Inv(st') && |st'.active.Keys| <= Max(MAX_OPEN, |st.active.Keys|)
            && (DiskFits(w, st) ==> DiskFits(w, st'))
            && (DiskMeasured(st) ==> DiskMeasured(st'))
  {
    if occasions != [] {
      var n := |occasions| - 1;
      LifeKeeps(w, st, occasions[..n]);
      NextKeeps(w, Life(w, st, occasions[..n]), occasions[n]);
      if DiskMeasured(Life(w, st, occasions[..n])) {
        NextMeasured(w, Life(w, st, occasions[..n]), occasions[n]);
      }
    }
  }

  /** Every occasion doubled nothing. */
  ghost predicate CleanLife(w: int, st: State, occasions: seq<Occasion>)
    requires w > 0
  {
    occasions == [] || (CleanLife(w, st, occasions[..|occasions| - 1])
      && var before := Life(w, st, occasions[..|occasions| - 1]);
         NothingDoubled(before, Added(w, before, occasions[|occasions| - 1])))
  }

  /** At all times nothing is on disk twice. */
  ghost predicate OnceThroughout(w: int, st: State, occasions: seq<Occasion>)
    requires w > 0
  {
    Once(st) && (occasions == [] || (OnceThroughout(w, st, occasions[..|occasions| - 1])
      && Once(Left(w, Life(w, st, occasions[..|occasions| - 1]), occasions[|occasions| - 1]))))
  }

  lemma OnceKept(w: int, st: State, o: Occasion)
    requires w > 0 && Inv(st)
    ensures Once(Left(w, st, o)) <==> Once(st) && NothingDoubled(st, Added(w, st, o))
    ensures Once(Left(w, st, o)) ==> Once(Next(w, st, o))
  {
    LeftGrows(w, st, o);
    OnceIffNothingDoubled(w, st, Added(w, st, o), Left(w, st, o));
    if Once(Left(w, st, o)) && !o.Call? {
      RecoveredOnce(Left(w, st, o), o.fates);
    }
  }

  /** Through calls, restarts and crashes: nothing is ever on disk twice, in one
      file or in two, of whichever session, if and only if nothing was at the start
      and no call files an identity twice or one that is on disk. */
  lemma {:induction false} LifeOnceIff(w: int, st: State, occasions: seq<Occasion>)
    requires w > 0 && Inv(st)
    ensures OnceThroughout(w, st, occasions) <==> Once(st) && CleanLife(w, st, occasions)
    ensures OnceThroughout(w, st, occasions) ==> Once(Life(w, st, occasions))
  {
    if occasions != [] {
      var n := |occasions| - 1;
      LifeOnceIff(w, st, occasions[..n]);
      LifeKeeps(w, st, occasions[..n]);
      OnceKept(w, Life(w, st, occasions[..n]), occasions[n]);
    }
  }

  // ----- nothing is lost -----

  /** No file is set aside on an occasion. */
  ghost predicate KeepsAll(o: Occasion) {
    !o.Call? ==> forall x :: x in o.fates ==> !o.fates[x].SetAside?
  }

  lemma RecoveredKeepsKey(st: State, fates: Fates, key: Key)
    requires Sane(st) && OnDisk(st, key) && forall x :: x in fates ==> !fates[x].SetAside?
    ensures OnDisk(Recovered(st, fates), key)
  {
    var p :| key in KeySet(DiskAt(st, p));
    var q := if p == Unresolved then Older(|st.older|) else p;
    RecoveredDisk(st, fates, q);
    assert key in KeySet(DiskAt(Recovered(st, fates), q));
  }

  lemma NextKeepsKey(w: int, st: State, o: Occasion, key: Key)
    requires w > 0 && Inv(st) && OnDisk(st, key) && KeepsAll(o)
    ensures OnDisk(Next(w, st, o), key)
  {
    LeftGrows(w, st, o);
    var p :| key in KeySet(DiskAt(st, p));
    KeySetConcat(DiskAt(st, p), Group(w, st, Added(w, st, o), p));
    assert key in KeySet(DiskAt(Left(w, st, o), p));
    if !o.Call? {
      RecoveredKeepsKey(Left(w, st, o), o.fates, key);
    }
  }

  lemma SubmittedIsOnDisk(w: int, st: State, node: int, samples: seq<Sample>, s: Sample)
    requires w > 0 && Inv(st) && s in samples && WriteSamples(w, st, node, samples).outcome == Written
    ensures OnDisk(WriteSamples(w, st, node, samples).state, KeyOf(s))
  {
    SubmittedIsHeld(w, st, node, samples, s);
    CallKeepsInvariant(w, st, node, samples);
    KnownIsOnDisk(WriteSamples(w, st, node, samples).state, KeyOf(s));
  }

  lemma LifeSnoc(w: int, st: State, occasions: seq<Occasion>, o: Occasion)
    requires w > 0
    ensures Life(w, st, occasions + [o]) == Next(w, Life(w, st, occasions), o)
  {
    assert (occasions + [o])[..|occasions|] == occasions;
  }

  lemma MoveFirst<T>(a: seq<T>, b: seq<T>)
    requires b != []
    ensures a + b == a + [b[0]] + b[1..]
  {
  }

  lemma KeyKeptOnce(w: int, st: State, before: seq<Occasion>, o: Occasion, key: Key)
    requires w > 0 && Inv(st) && OnDisk(Life(w, st, before), key) && KeepsAll(o)
    ensures OnDisk(Life(w, st, before + [o]), key)
  {
    LifeKeeps(w, st, before);
    NextKeepsKey(w, Life(w, st, before), o, key);
    LifeSnoc(w, st, before, o);
  }

  lemma {:induction false} KeyKept(w: int, st: State, before: seq<Occasion>, more: seq<Occasion>, key: Key)
    requires w > 0 && Inv(st) && OnDisk(Life(w, st, before), key) && AllKeep(more)
    ensures OnDisk(Life(w, st, before + more), key)
    decreases |more|
  {
    if more == [] {
      assert before + more == before;
    } else {
      MoveFirst(before, more);
      KeyKeptOnce(w, st, before, more[0], key);
      KeyKept(w, st, before + [more[0]], more[1..], key);
    }
  }

  ghost predicate AllKeep(occasions: seq<Occasion>) {
    forall m :: 0 <= m < |occasions| ==> KeepsAll(occasions[m])
  }

  /** Every sample of a successful call stays on disk through all later calls,
      restarts and crashes that set no file aside. */
  lemma LifeHoldsSubmitted(
    w: int, st: State, before: seq<Occasion>, node: int, samples: seq<Sample>, more: seq<Occasion>, s: Sample)
    requires w > 0 && Inv(st) && s in samples
    requires WriteSamples(w, Life(w, st, before), node, samples).outcome == Written && AllKeep(more)
    ensures OnDisk(Life(w, st, before + [Call(node, samples)] + more), KeyOf(s))
  {
    var called := before + [Call(node, samples)];
    LifeKeeps(w, st, before);
    SubmittedIsOnDisk(w, Life(w, st, before), node, samples, s);
    assert called[..|before|] == before;
    KeyKept(w, st, called, more, KeyOf(s));
  }

  // ----- one file through a life -----

  /** What an occasion does to the file of a place. */
  ghost function Writes(w: int, st: State, o: Occasion, p: Place): seq<Event>
    requires w > 0
  {
    if o.Restart? then []
    else
      var novel := Sift(w, st, o.samples).novel;
      var g := Group(w, st, novel, p);
      if g == [] then []
      else
        match o
        case Call(node, _) => if Taken(w, st, node, novel, p) then [Batch(g)] else []
        case Crash(node, _, limit, rawFlushed, _) =>
          if TakenBefore(w, st, node, novel, limit, p) then [Batch(g)]
          else if p == Window(limit) then [Interrupted(g, rawFlushed)]
          else []
  }

  /** After it: a file set aside, or left as an unresolved file of an earlier session,
      is not at its place any more. */
  ghost function EventsAfter(w: int, st: State, o: Occasion, p: Place, events: seq<Event>): seq<Event>
    requires w > 0
  {
    var written := events + Writes(w, st, o, p);
    if o.Call? then written
    else if p == Unresolved || IsSetAside(Left(w, st, o), o.fates, p) then []
    else written + [Reopened]
  }

  /** The events of the file that is now at a place. */
  ghost function FileEvents(w: int, st: State, occasions: seq<Occasion>, p: Place): seq<Event>
    requires w > 0
  {
    if occasions == [] then []
    else
      var init, o := occasions[..|occasions| - 1], occasions[|occasions| - 1];
      EventsAfter(w, Life(w, st, init), o, p, FileEvents(w, st, init, p))
  }

  lemma StoredSnoc(events: seq<Event>, e: Event)
    ensures Stored(events + [e]) == Stored(events) + if e.Batch? then Fresh(e.samples, KeySet(Stored(events))) else []
  {
    assert (events + [e])[..|events|] == events;
  }

  /** A file that is written to is one of this session, so its keys are known. */
  lemma GroupIsFresh(w: int, st: State, samples: seq<Sample>, p: Place)
    requires w > 0 && Inv(st)
    ensures var g := Group(w, st, Sift(w, st, samples).novel, p); Fresh(g, KeySet(DiskAt(st, p))) == g
  {
    var novel := Sift(w, st, samples).novel;
    var g := Group(w, st, novel, p);
    SiftFacts(w, st, samples);
    forall s | s in g
      ensures KeyOf(s) !in KeySet(DiskAt(st, p))
    {
      GroupMembers(w, st, novel, p, s);
      DiskIsFile(st, p);
    }
    FreshOfUnseen(g, KeySet(DiskAt(st, p)));
  }

  /** Whether the group of a place is written on an occasion. */
  ghost predicate TakenOn(w: int, st: State, o: Occasion, p: Place)
    requires w > 0 && !o.Restart?
  {
    var novel := Sift(w, st, o.samples).novel;
    if o.Call? then Taken(w, st, o.node, novel, p) else TakenBefore(w, st, o.node, novel, o.limit, p)
  }

  lemma GroupAdded(w: int, st: State, o: Occasion, p: Place)
    requires w > 0 && !o.Restart?
    ensures Group(w, st, Added(w, st, o), p)
            == if TakenOn(w, st, o, p) then Group(w, st, Sift(w, st, o.samples).novel, p) else []
  {
    var novel := Sift(w, st, o.samples).novel;
    if o.Call? {
      GroupWithin(w, st, novel, (q: Place) => Taken(w, st, o.node, novel, q), p);
    } else {
      GroupWithin(w, st, novel, (q: Place) => TakenBefore(w, st, o.node, novel, o.limit, q), p);
    }
  }

  lemma StoredWrites(w: int, st: State, o: Occasion, p: Place, events: seq<Event>)
    requires w > 0 && !o.Restart?
    ensures var g := Group(w, st, Sift(w, st, o.samples).novel, p);
            Stored(events + Writes(w, st, o, p))
            == Stored(events) + if g != [] && TakenOn(w, st, o, p) then Fresh(g, KeySet(Stored(events))) else []
  {
    var g := Group(w, st, Sift(w, st, o.samples).novel, p);
    assert events + [] == events && Stored(events) + [] == Stored(events);
    StoredSnoc(events, Batch(g));
    StoredSnoc(events, Interrupted(g, if o.Crash? then o.rawFlushed else false));
  }

  lemma WritesAdd(w: int, st: State, o: Occasion, p: Place, events: seq<Event>)
    requires w > 0 && Inv(st) && Stored(events) == DiskAt(st, p)
    ensures Stored(events + Writes(w, st, o, p)) == DiskAt(st, p) + Group(w, st, Added(w, st, o), p)
  {
    if o.Restart? {
      assert events + [] == events && DiskAt(st, p) + [] == DiskAt(st, p);
    } else {
      StoredWrites(w, st, o, p, events);
      GroupAdded(w, st, o, p);
      GroupIsFresh(w, st, o.samples, p);
    }
  }

  lemma EventsAfterStored(w: int, st: State, o: Occasion, p: Place, events: seq<Event>)
    requires w > 0 && Inv(st) && Stored(events) == DiskAt(st, p) && !p.Older?
    ensures Stored(EventsAfter(w, st, o, p, events)) == DiskAt(Next(w, st, o), p)
  {
    LeftGrows(w, st, o);
    WritesAdd(w, st, o, p, events);
    if !o.Call? {
      ReopenedStored(Left(w, st, o), o.fates, p, events + Writes(w, st, o, p));
    }
  }

  lemma ReopenedStored(left: State, fates: Fates, p: Place, written: seq<Event>)
    requires Sane(left) && Stored(written) == DiskAt(left, p) && !p.Older?
    ensures DiskAt(Recovered(left, fates), p)
            == if p == Unresolved || IsSetAside(left, fates, p) then [] else Stored(written + [Reopened])
  {
    RecoveredDisk(left, fates, p);
    StoredSnoc(written, Reopened);
  }

  /** The samples in a file are those its events have stored. */
  lemma {:induction false} FileStored(w: int, st: State, occasions: seq<Occasion>, p: Place)
    requires w > 0 && Inv(st) && DiskAt(st, p) == [] && !p.Older?
    ensures DiskAt(Life(w, st, occasions), p) == Stored(FileEvents(w, st, occasions, p))
  {
    if occasions != [] {
      var init, o := occasions[..|occasions| - 1], occasions[|occasions| - 1];
      FileStored(w, st, init, p);
      LifeKeeps(w, st, init);
      EventsAfterStored(w, Life(w, st, init), o, p, FileEvents(w, st, init, p));
    }
  }

  /** Every batch in the events is routed, and of the window of the file. */
  ghost predicate SentTo(w: int, p: Place, events: seq<Event>)
    requires w > 0
  {
    forall n :: 0 <= n < |events| && events[n].Batch? ==>
      && AllRouted(events[n].samples)
      && forall s :: p.Window? && s in events[n].samples ==>
          s.utcNs.Some? && WindowStart(w, s.utcNs.value) == p.start
  }

  lemma WritesSent(w: int, st: State, o: Occasion, p: Place)
    requires w > 0
    ensures SentTo(w, p, Writes(w, st, o, p))
  {
    if !o.Restart? {
      var novel := Sift(w, st, o.samples).novel;
      GroupRouted(w, st, o.samples, p);
      forall s | s in Group(w, st, novel, p)
        ensures Target(w, st, s) == p
      {
        GroupMembers(w, st, novel, p, s);
      }
    }
  }

  lemma SentBoth(w: int, p: Place, a: seq<Event>, b: seq<Event>)
    requires w > 0 && SentTo(w, p, a) && SentTo(w, p, b)
    ensures SentTo(w, p, a + b)
  {
  }

  lemma {:induction false} EventsSent(w: int, st: State, occasions: seq<Occasion>, p: Place)
    requires w > 0
    ensures SentTo(w, p, FileEvents(w, st, occasions, p))
  {
    if occasions != [] {
      var init := occasions[..|occasions| - 1];
      var events, writes := FileEvents(w, st, init, p), Writes(w, Life(w, st, init), occasions[|occasions| - 1], p);
      EventsSent(w, st, init, p);
      WritesSent(w, Life(w, st, init), occasions[|occasions| - 1], p);
      SentBoth(w, p, events, writes);
      SentBoth(w, p, events + writes, [Reopened]);
    }
  }

  /** The Capture file of a window, or of what is unresolved, through any life: it
      is a run of batches, interruptions and reopenings whose raw rows and
      identities are the samples the router has filed there, its blocks tile the
      rows, and in a window after the first no block has incomplete UTC endpoints. */
  lemma LifeFile(w: int, st: State, occasions: seq<Occasion>, p: Place)
    requires w > 0 && Inv(st) && DiskAt(st, p) == [] && !p.Older?
    ensures var f, filed := Run(FileEvents(w, st, occasions, p)), DiskAt(Life(w, st, occasions), p);
            && f.raw == RawOf(filed) && CountsValid(f.blocks) && AllKeys(f.blocks) == KeysOf(filed)
            && BlocksTile(f.blocks, |f.raw|)
            && (p.Window? && p.start > 0 ==> forall k :: 0 <= k < |f.blocks| ==> UtcComplete(f.blocks[k]))
  {
    var events := FileEvents(w, st, occasions, p);
    FileStored(w, st, occasions, p);
    RunHoldsCompletedBatches(events);
    EventsSent(w, st, occasions, p);
    if p.Window? && p.start > 0 {
      forall k | 0 <= k < |Run(events).blocks|
        ensures UtcComplete(Run(events).blocks[k])
      {
        WindowBlocksComplete(w, p.start, events, k);
      }
    }
  }
}
