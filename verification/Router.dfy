/** Routing of samples to UTC windows, at most three of them open, with one
    unresolved file for everything that no open window may take.

    A file is represented by the samples appended to it. They determine its raw
    rows and identities; where its block rows are cut also depends on the batches
    in which they came, which module CaptureRuns keeps. */
module Router {
  import opened Options
  import opened Capture
  import opened CaptureReader
  import opened Windows

  const NS: int := 1_000_000_000

  /** A datetime holds whole microseconds: nanoseconds are rounded to the nearest
      one, ties to the even one. */
  function Micros(utcNs: int): int {
    var us, rest := utcNs / 1000, utcNs % 1000;
    if rest > 500 || (rest == 500 && us % 2 == 1) then us + 1 else us
  }

  /** int() of a number of microseconds, in seconds: towards zero. */
  function Truncated(us: int): int {
    if us >= 0 then us / 1_000_000 else -((-us) / 1_000_000)
  }

  /** The second to which a time is assigned. */
  function Seconds(utcNs: int): int { Truncated(Micros(utcNs)) }

  /** Start of the window, in seconds, for a window length of w seconds. */
  function WindowStart(w: int, utcNs: int): int
    requires w > 0
  {
    Seconds(utcNs) / w * w
  }

  predicate InWindow(w: int, start: int, utcNs: int) {
    start * NS <= utcNs < (start + w) * NS
  }

  lemma FloorWindow(w: int, t: int)
    requires w > 0
    ensures t / w * w <= t < t / w * w + w
  {}

  /** The times that are assigned to the second after them: the last half
      microsecond of every second, and before the epoch all but the first one. */
  predicate RoundedUp(utcNs: int) {
    utcNs % NS >= 999_999_500 || (utcNs < 0 && utcNs % NS > 500)
  }

  lemma MicrosOf(us: int, rest: int)
    requires 0 <= rest < 1000
    ensures Micros(us * 1000 + rest) == us + if rest > 500 || (rest == 500 && us % 2 == 1) then 1 else 0
  {
  }

  lemma EvenShift(second: int, us: int)
    ensures (second * 1_000_000 + us) % 2 == us % 2
  {
  }

  lemma MicrosInSecond(second: int, rest: int)
    requires 0 <= rest < NS
    ensures var us := Micros(second * NS + rest) - second * 1_000_000;
            0 <= us <= 1_000_000 && (us == 0 <==> rest <= 500) && (us == 1_000_000 <==> rest >= 999_999_500)
  {
    var us, r := rest / 1000, rest % 1000;
    assert second * NS + rest == (second * 1_000_000 + us) * 1000 + r;
    MicrosOf(second * 1_000_000 + us, r);
    EvenShift(second, us);
  }

  lemma TruncatedInSecond(second: int, us: int)
    requires 0 <= us <= 1_000_000
    ensures Truncated(second * 1_000_000 + us)
            == if us == 1_000_000 || (second < 0 && us > 0) then second + 1 else second
  {
  }

  /** A time is assigned to its own second or to the next, and to which. */
  lemma SecondsIs(utcNs: int)
    ensures Seconds(utcNs) == utcNs / NS + if RoundedUp(utcNs) then 1 else 0
  {
    var second, rest := utcNs / NS, utcNs % NS;
    assert utcNs == second * NS + rest;
    MicrosInSecond(second, rest);
    TruncatedInSecond(second, Micros(utcNs) - second * 1_000_000);
  }

  /** Aligning any second to a window. */
  lemma AlignedHoldsIff(w: int, second: int, utcNs: int)
    requires w > 0 && (second == utcNs / NS || second == utcNs / NS + 1)
    ensures InWindow(w, second / w * w, utcNs) <==> second == utcNs / NS || second % w != 0
  {
    FloorWindow(w, second);
    assert second / w * w + second % w == second;
    assert utcNs == utcNs / NS * NS + utcNs % NS;
  }

  /** The window contains the sample's time, except exactly for times that are
      rounded up into the second with which a window begins. */
  lemma WindowHoldsItsTimeIff(w: int, utcNs: int)
    requires w > 0
    ensures InWindow(w, WindowStart(w, utcNs), utcNs) <==> !(RoundedUp(utcNs) && (utcNs / NS + 1) % w == 0)
  {
    SecondsIs(utcNs);
    AlignedHoldsIff(w, Seconds(utcNs), utcNs);
  }

  /** Whatever a conversion to microseconds loses, less than one of them in all: a
      time since the epoch is filed in its window, or it is of the last microsecond
      before a window and filed there. */
  lemma AnyConversion(w: int, utcNs: int, us: int)
    requires w > 0 && utcNs >= 0 && -1000 < us * 1000 - utcNs < 1000
    ensures var start := Truncated(us) / w * w;
            || InWindow(w, start, utcNs)
            || (start == utcNs / NS + 1 && utcNs > start * NS - 1000)
  {
    AlignedHoldsIff(w, Truncated(us), utcNs);
  }

  /** The nanosecond before the epoch is filed under the window after it. */
  lemma JustBeforeEpoch(w: int)
    requires w > 0
    ensures WindowStart(w, -1) == 0 && !InWindow(w, 0, -1)
  {
    assert Micros(-1) == 0;
  }

  lemma JustBeforeSecond(second: int)
    ensures RoundedUp(second * NS - 100) && (second * NS - 100) / NS == second - 1
  {
    assert second * NS - 100 == (second - 1) * NS + 999_999_900;
  }

  /** So is the time 100 nanoseconds before any window. */
  lemma JustBeforeWindow(w: int, start: int)
    requires w > 0 && start % w == 0
    ensures var utcNs := start * 1_000_000_000 - 100;
            WindowStart(w, utcNs) == start && InWindow(w, start - w, utcNs) && !InWindow(w, start, utcNs)
  {
    JustBeforeSecond(start);
    SecondsIs(start * NS - 100);
    assert start / w * w == start;
  }

  // ----- the state -----

  datatype State = State(
    active: map<int, seq<Sample>>,   // open windows
    finals: map<int, seq<Sample>>,   // published window files on disk
    finalized: set<int>,             // windows this session knows as closed
    unresolved: seq<Sample>,
    seen: set<Key>,
    inherited: set<int>,             // windows published before the session
    older: seq<seq<Sample>>)         // unresolved files of earlier sessions

  datatype Place = Window(start: int) | Unresolved | Older(index: nat)

  predicate Closed(st: State, w: int) { w in st.finals || w in st.finalized }

  /** What this session has put into a file. */
  function FileAt(st: State, p: Place): seq<Sample> {
    match p
    case Unresolved => st.unresolved
    case Window(w) =>
      if w in st.active then st.active[w]
      else if w in st.finals && w !in st.inherited then st.finals[w]
      else []
    case Older(_) => []
  }

  /** What a file holds, whichever session has put it there. */
  function DiskAt(st: State, p: Place): seq<Sample> {
    match p
    case Unresolved => st.unresolved
    case Window(w) => if w in st.active then st.active[w] else if w in st.finals then st.finals[w] else []
    case Older(i) => if i < |st.older| then st.older[i] else []
  }

  ghost predicate OnDisk(st: State, key: Key) {
    exists p :: key in KeySet(DiskAt(st, p))
  }

  ghost predicate Held(st: State, key: Key) {
    exists p :: key in KeySet(FileAt(st, p))
  }

  ghost predicate Inherited(st: State, key: Key) {
    exists w :: w in st.inherited && w in st.finals && key in KeySet(st.finals[w])
  }

  /** Open and closed windows are apart, every key in a file is remembered, and
      every remembered key is in a file. */
  ghost predicate Inv(st: State) {
    && (forall w :: w in st.active ==> !Closed(st, w))
    && (forall w :: w in st.inherited ==> w in st.finals)
    && (forall p, key :: key in KeySet(FileAt(st, p)) ==> key in st.seen)
    && (forall key :: key in st.seen ==> Held(st, key) || Inherited(st, key))
  }

  /** No key is stored twice, in one file or in two, those of earlier sessions
      included. */
  ghost predicate Once(st: State) {
    && (forall p :: Distinct(KeysOf(DiskAt(st, p))))
    && (forall p, q, key :: key in KeySet(DiskAt(st, p)) && key in KeySet(DiskAt(st, q)) ==> p == q)
  }

  /** Every time that the estimate admits lies in the window. */
  ghost predicate Certain(w: int, start: int, utcNs: int, slack: int) {
    forall t :: utcNs - slack <= t <= utcNs + slack ==> InWindow(w, start, t)
  }

  /** The mark for an uncertain boundary is there exactly if the time may lie
      outside the window it is aligned to. */
  ghost predicate MarkedAtBoundary(w: int, s: Sample)
    requires w > 0 && s.utcNs.Some?
  {
    GetOr(s.uncertaintyNs, 0) >= 0 ==>
      (BoundaryUncertain in s.routing
       <==> !Certain(w, WindowStart(w, s.utcNs.value), s.utcNs.value, GetOr(s.uncertaintyNs, 0)))
  }

  /** A sample that belongs into the file of a window: its time is aligned to the
      window, and its flags say no more than that, and whether it is uncertain. */
  ghost predicate FitsWindow(w: int, start: int, s: Sample)
    requires w > 0
  {
    && s.utcNs.Some? && WindowStart(w, s.utcNs.value) == start && MarkedAtBoundary(w, s)
    && UtcValid in s.routing && s.routing <= {UtcValid, BoundaryUncertain}
  }

  /** A sample that belongs into an unresolved file: it has no time and is flagged
      as unsynchronised, or it has one and is flagged as late. */
  ghost predicate FitsUnresolved(w: int, s: Sample)
    requires w > 0
  {
    if s.utcNs == None then s.routing == {InitiallyUnsynced}
    else
      && UtcValid in s.routing && LateArrival in s.routing && MarkedAtBoundary(w, s)
      && s.routing <= {UtcValid, LateArrival, BoundaryUncertain}
  }

  ghost predicate FitsPlace(w: int, p: Place, s: Sample)
    requires w > 0
  {
    match p
    case Window(start) => FitsWindow(w, start, s)
    case _ => FitsUnresolved(w, s)
  }

  /** Every file of the session holds only samples that fit it. */
  ghost predicate FilesFit(w: int, st: State)
    requires w > 0
  {
    forall p, s :: s in FileAt(st, p) ==> FitsPlace(w, p, s)
  }

  /** The start of a session: files published before, windows known as closed, the
      partial windows that are resumed, and those that have ended and are published
      now. The keys of both kinds of partial window are remembered; unresolved files
      of earlier sessions are left alone. */
  function Begin(
    published: map<int, seq<Sample>>, closed: set<int>, resumed: map<int, seq<Sample>>, ended: map<int, seq<Sample>>,
    older: seq<seq<Sample>>): State
  {
    State(resumed, published + ended, closed + ended.Keys, [], KeysIn(resumed) + KeysIn(ended),
      published.Keys + ended.Keys, older)
  }

  function KeysIn(files: map<int, seq<Sample>>): set<Key> {
    set w, key | w in files && key in KeySet(files[w]) :: key
  }

  /** Resumed windows are not closed, and ended ones are not published twice. */
  ghost predicate Startable(
    published: map<int, seq<Sample>>, closed: set<int>, resumed: map<int, seq<Sample>>, ended: map<int, seq<Sample>>)
  {
    && (forall w :: w in resumed ==> w !in published && w !in closed && w !in ended)
    && (forall w :: w in ended ==> w !in published)
  }

  lemma BeginInv(
    published: map<int, seq<Sample>>, closed: set<int>, resumed: map<int, seq<Sample>>, ended: map<int, seq<Sample>>,
    older: seq<seq<Sample>>)
    requires Startable(published, closed, resumed, ended)
    ensures Inv(Begin(published, closed, resumed, ended, older))
  {
    var st := Begin(published, closed, resumed, ended, older);
    forall key | key in st.seen
      ensures Held(st, key) || Inherited(st, key)
    {
      if w :| w in resumed && key in KeySet(resumed[w]) {
        assert key in KeySet(FileAt(st, Window(w)));
      } else {
        var w :| w in ended && key in KeySet(ended[w]);
        assert w in st.inherited && st.finals[w] == ended[w];
      }
    }
  }

  // ----- routing one sample -----

  function EstimatedWindow(w: int, s: Sample): Option<int>
    requires w > 0
  {
    if s.utcNs.Some? then Some(WindowStart(w, s.utcNs.value)) else None
  }

  function Target(w: int, st: State, s: Sample): Place
    requires w > 0
  {
    match EstimatedWindow(w, s)
    case None => Unresolved
    case Some(start) => if Closed(st, start) then Unresolved else Window(start)
  }

  function RoutingFlags(w: int, st: State, s: Sample): set<RoutingFlag>
    requires w > 0
  {
    match EstimatedWindow(w, s)
    case None => {InitiallyUnsynced}
    case Some(start) =>
      var slack := GetOr(s.uncertaintyNs, 0);
      {UtcValid}
      + (if s.utcNs.value - slack < start * NS || s.utcNs.value + slack >= (start + w) * NS
         then {BoundaryUncertain} else {})
      + (if Closed(st, start) then {LateArrival} else {})
  }

  function Mark(w: int, st: State, s: Sample): Sample
    requires w > 0
  {
    s.(routing := RoutingFlags(w, st, s))
  }

  // ----- a batch: what is new in it -----

  /** The published file of the sample's window already holds it. */
  predicate Archived(w: int, st: State, s: Sample)
    requires w > 0
  {
    s.utcNs.Some? && WindowStart(w, s.utcNs.value) in st.finals
    && KeyOf(s) in KeySet(st.finals[WindowStart(w, s.utcNs.value)])
  }

  datatype Sifted = Sifted(seen: set<Key>, novel: seq<Sample>)

  function Sift(w: int, st: State, samples: seq<Sample>): Sifted
    requires w > 0
  {
    if samples == [] then Sifted(st.seen, [])
    else
      var n := |samples| - 1;
      var s, before := samples[n], Sift(w, st, samples[..n]);
      if KeyOf(s) in before.seen then before
      else if Archived(w, st, s) then Sifted(before.seen + {KeyOf(s)}, before.novel)
      else Sifted(before.seen, before.novel + [Mark(w, st, s)])
  }

  function Group(w: int, st: State, novel: seq<Sample>, p: Place): seq<Sample>
    requires w > 0
  {
    if novel == [] then []
    else
      var n := |novel| - 1;
      Group(w, st, novel[..n], p) + (if Target(w, st, novel[n]) == p then [novel[n]] else [])
  }

  function Targets(w: int, st: State, novel: seq<Sample>): set<int>
    requires w > 0
  {
    set s | s in novel && Target(w, st, s).Window? :: Target(w, st, s).start
  }

  // ----- windows -----

  function Publish(st: State, w: int): State
    requires w in st.active
  {
    st.(active := st.active - {w}, finals := st.finals[w := st.active[w]], finalized := st.finalized + {w})
  }

  function Evict(st: State): State
    decreases |st.active|
  {
    if |st.active| <= MAX_OPEN then st
    else
      var oldest := Min(st.active.Keys);
      assert |(st.active - {oldest}).Keys| < |st.active.Keys| by {
        assert (st.active - {oldest}).Keys == st.active.Keys - {oldest};
      }
      Evict(Publish(st, oldest))
  }

  function EnsureWindow(st: State, w: int): State {
    if w in st.active then st else Evict(st.(active := st.active[w := []]))
  }

  function Remember(st: State, samples: seq<Sample>): State {
    st.(seen := st.seen + KeySet(samples))
  }

  datatype Outcome = Written | Lost(window: int) | Shut(window: int) | Invalid

  datatype Result = Result(outcome: Outcome, state: State)

  /** Append to a window's file: the file drops what it already holds. */
  function AppendTo(st: State, w: int, samples: seq<Sample>): State
    requires w in st.active
  {
    Remember(st.(active := st.active[w := st.active[w] + Fresh(samples, KeySet(st.active[w]))]), samples)
  }

  /** The groups are written window by window, oldest first. `origin` is the
      state in which the samples were routed. */
  function WriteGroups(w: int, origin: State, st: State, node: int, novel: seq<Sample>, todo: set<int>): Result
    requires w > 0
    decreases todo
  {
    if todo == {} then Result(Written, st)
    else
      var start := Min(todo);
      var samples := Group(w, origin, novel, Window(start));
      if start !in st.active && Closed(st, start) then Result(Shut(start), st)
      else
        var ready := EnsureWindow(st, start);
        if start !in ready.active then Result(Lost(start), ready)
        else if !Acceptable(node, samples) then Result(Invalid, ready)
        else WriteGroups(w, origin, AppendTo(ready, start, samples), node, novel, todo - {start})
  }

  function WriteUnresolved(st: State, node: int, samples: seq<Sample>): Result {
    if samples == [] then Result(Written, st)
    else if !Acceptable(node, samples) then Result(Invalid, st)
    else Result(Written, Remember(st.(unresolved := st.unresolved + Fresh(samples, KeySet(st.unresolved))), samples))
  }

  /** The whole call. */
  function WriteSamples(w: int, st: State, node: int, samples: seq<Sample>): Result
    requires w > 0
  {
    var sifted := Sift(w, st, samples);
    var start := st.(seen := sifted.seen);
    var windows := WriteGroups(w, st, start, node, sifted.novel, Targets(w, st, sifted.novel));
    if windows.outcome != Written then windows
    else WriteUnresolved(windows.state, node, Group(w, st, sifted.novel, Unresolved))
  }
}
