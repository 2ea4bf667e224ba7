/** The clock that maps a node's device time to the host's monotonic time. */
module NodeHostClock {
  import opened Options
  import opened AffineFit
  import opened ClockModels
  import opened SampleClock

  /** One exchange: sent and received by the host in nanoseconds, received and
      answered by the node in microseconds. */
  datatype Observation = Observation(bootEpoch: int, t1HostNs: int, t2NodeUs: int, t3NodeUs: int, t4HostNs: int)

  function NodeMid(o: Observation): real { (o.t2NodeUs + o.t3NodeUs) as real / 2.0 }

  function HostMid(o: Observation): real { (o.t1HostNs + o.t4HostNs) as real / 2.0 }

  function RoundTrip(o: Observation): int { o.t4HostNs - o.t1HostNs - (o.t3NodeUs - o.t2NodeUs) * 1000 }

  // ----- what an exchange tells -----

  /** The path delays of an exchange with a node that keeps the host's rate, its
      clock behind by `offset` nanoseconds. */
  function Forward(o: Observation, offset: real): real { o.t2NodeUs as real * 1000.0 + offset - o.t1HostNs as real }

  function Backward(o: Observation, offset: real): real { o.t4HostNs as real - (o.t3NodeUs as real * 1000.0 + offset) }

  /** What the midpoints get wrong is half the asymmetry of the path, so at most
      half the round trip, and all of that only if one way took no time. */
  lemma MidpointError(o: Observation, offset: real)
    requires Forward(o, offset) >= 0.0 && Backward(o, offset) >= 0.0
    ensures var missed := HostMid(o) - (1000.0 * NodeMid(o) + offset);
            && missed == (Backward(o, offset) - Forward(o, offset)) / 2.0
            && Abs(missed) <= RoundTrip(o) as real / 2.0
            && (Abs(missed) == RoundTrip(o) as real / 2.0 <==> Forward(o, offset) == 0.0 || Backward(o, offset) == 0.0)
  {
    assert RoundTrip(o) as real == Forward(o, offset) + Backward(o, offset);
  }

  // ----- the observations a fit uses -----

  /** Sorting by round trip leaves ties in their order. */
  function Insert(sorted: seq<Observation>, o: Observation): seq<Observation> {
    if sorted == [] || RoundTrip(sorted[|sorted| - 1]) <= RoundTrip(o) then sorted + [o]
    else Insert(sorted[..|sorted| - 1], o) + [sorted[|sorted| - 1]]
  }

  function Sort(s: seq<Observation>): seq<Observation> {
    if s == [] then [] else Insert(Sort(s[..|s| - 1]), s[|s| - 1])
  }

  ghost predicate Sorted(s: seq<Observation>) {
    forall i, j :: 0 <= i < j < |s| ==> RoundTrip(s[i]) <= RoundTrip(s[j])
  }

  /** The entries of one round trip, in order. */
  function Tied(s: seq<Observation>, rtt: int): seq<Observation> {
    if s == [] then []
    else Tied(s[..|s| - 1], rtt) + (if RoundTrip(s[|s| - 1]) == rtt then [s[|s| - 1]] else [])
  }

  lemma {:induction false} InsertHolds(s: seq<Observation>, o: Observation)
    ensures multiset(Insert(s, o)) == multiset(s) + multiset{o} && |Insert(s, o)| == |s| + 1
  {
    if s != [] && RoundTrip(s[|s| - 1]) > RoundTrip(o) {
      InsertHolds(s[..|s| - 1], o);
      assert s == s[..|s| - 1] + [s[|s| - 1]];
    }
  }

  lemma InsertMember(s: seq<Observation>, o: Observation, x: Observation)
    requires x in Insert(s, o)
    ensures x in s || x == o
  {
    InsertHolds(s, o);
    assert x in multiset(Insert(s, o));
  }

  lemma {:induction false} InsertSorts(s: seq<Observation>, o: Observation)
    requires Sorted(s)
    ensures Sorted(Insert(s, o))
  {
    if s != [] && RoundTrip(s[|s| - 1]) > RoundTrip(o) {
      var init, last := s[..|s| - 1], s[|s| - 1];
      InsertSorts(init, o);
      var r := Insert(init, o);
      forall i | 0 <= i < |r|
        ensures RoundTrip(r[i]) <= RoundTrip(last)
      {
        InsertMember(init, o, r[i]);
      }
    }
  }

  lemma {:induction false} InsertKeepsTies(s: seq<Observation>, o: Observation, rtt: int)
    ensures Tied(Insert(s, o), rtt) == Tied(s + [o], rtt)
  {
    assert (s + [o])[..|s|] == s;
    if s != [] && RoundTrip(s[|s| - 1]) > RoundTrip(o) {
      var init := s[..|s| - 1];
      var r := Insert(init, o);
      InsertKeepsTies(init, o, rtt);
      assert (r + [s[|s| - 1]])[..|r|] == r;
      assert (init + [o])[..|init|] == init;
    }
  }

  lemma {:induction false} SortSorts(s: seq<Observation>)
    ensures Sorted(Sort(s)) && multiset(Sort(s)) == multiset(s) && |Sort(s)| == |s|
  {
    if s != [] {
      var init, last := s[..|s| - 1], s[|s| - 1];
      SortSorts(init);
      InsertSorts(Sort(init), last);
      InsertHolds(Sort(init), last);
      assert s == init + [last];
    }
  }

  lemma {:induction false} SortKeepsTies(s: seq<Observation>, rtt: int)
    ensures Tied(Sort(s), rtt) == Tied(s, rtt)
  {
    if s != [] {
      var init, last := s[..|s| - 1], s[|s| - 1];
      SortKeepsTies(init, rtt);
      InsertKeepsTies(Sort(init), last, rtt);
      assert (Sort(init) + [last])[..|Sort(init)|] == Sort(init);
    }
  }

  function Keep(n: nat, minLock: int): (k: nat)
    ensures k <= n && 2 * k >= n && (minLock <= n ==> k >= minLock) && (minLock > n ==> k == n)
  {
    var least, half := if n < minLock then n else minLock, (n + 1) / 2;
    if least >= half then least else half
  }

  /** The smallest number that is at least half of the observations, and as many as
      a lock needs, if there are so many. */
  lemma KeepIsLeast(n: nat, minLock: int, j: nat)
    ensures Keep(n, minLock) <= j
            <==> 2 * j >= n && (minLock <= n ==> j >= minLock) && (minLock > n ==> j >= n)
  {
  }

  function Candidates(observations: seq<Observation>, minLock: int): seq<Observation> {
    SortLength(observations);
    Sort(observations)[..Keep(|observations|, minLock)]
  }

  ghost function Others(observations: seq<Observation>, minLock: int): seq<Observation> {
    SortLength(observations);
    Sort(observations)[Keep(|observations|, minLock)..]
  }

  lemma SortLength(s: seq<Observation>)
    ensures |Sort(s)| == |s|
  {
    SortSorts(s);
  }

  /** The candidates are the observations of the shortest round trips. */
  lemma CandidatesAreShortest(observations: seq<Observation>, minLock: int)
    ensures |Candidates(observations, minLock)| == Keep(|observations|, minLock)
    ensures multiset(observations)
            == multiset(Candidates(observations, minLock)) + multiset(Others(observations, minLock))
    ensures forall c, r :: c in Candidates(observations, minLock) && r in Others(observations, minLock) ==>
        RoundTrip(c) <= RoundTrip(r)
  {
    SortSorts(observations);
    var sorted, k := Sort(observations), Keep(|observations|, minLock);
    assert sorted == sorted[..k] + sorted[k..];
  }

  function Points(candidates: seq<Observation>): seq<WeightedPoint> {
    seq(|candidates|, i requires 0 <= i < |candidates| =>
      WeightedPoint(NodeMid(candidates[i]), HostMid(candidates[i]),
                    MaxReal(RoundTrip(candidates[i]) as real / 2.0, 1.0)))
  }

  /** A point is as uncertain as its midpoints may be wrong, for any offset of the
      node's clock for which both delays are possible, and not more than that, or by
      one unit. */
  lemma PointCovers(candidates: seq<Observation>, i: nat, offset: real)
    requires i < |candidates|
    ensures var p, o := Points(candidates)[i], candidates[i];
            && |Points(candidates)| == |candidates| && p.x == NodeMid(o) && p.y == HostMid(o) && p.uncertainty >= 1.0
            && (Forward(o, offset) >= 0.0 && Backward(o, offset) >= 0.0 ==>
                 && Abs(p.y - (1000.0 * p.x + offset)) <= p.uncertainty
                 && (Forward(o, offset) == 0.0 ==>
                      p.uncertainty == MaxReal(Abs(p.y - (1000.0 * p.x + offset)), 1.0)))
  {
    var o := candidates[i];
    if Forward(o, offset) >= 0.0 && Backward(o, offset) >= 0.0 {
      MidpointError(o, offset);
    }
  }

  ghost predicate SameMid(candidates: seq<Observation>) {
    forall c, d :: c in candidates && d in candidates ==> NodeMid(c) == NodeMid(d)
  }

  /** The fit fails exactly if the candidates share one node midpoint. */
  lemma FitFailsIff(candidates: seq<Observation>)
    requires |candidates| >= 2
    ensures FitAffine(Points(candidates)).Fitted? <==> !SameMid(candidates)
  {
    var points := Points(candidates);
    FitExistsIff(points);
    forall p | p in points
      ensures p.uncertainty >= 0.0
    {
      var i :| 0 <= i < |points| && points[i] == p;
    }
    if SameMid(candidates) {
      forall p, q | p in points && q in points
        ensures p.x == q.x
      {
        var i :| 0 <= i < |points| && points[i] == p;
        var j :| 0 <= j < |points| && points[j] == q;
        assert candidates[i] in candidates && candidates[j] in candidates;
      }
    } else {
      var c, d :| c in candidates && d in candidates && NodeMid(c) != NodeMid(d);
      var i :| 0 <= i < |candidates| && candidates[i] == c;
      var j :| 0 <= j < |candidates| && candidates[j] == d;
      assert points[i] in points && points[j] in points;
    }
  }

  /** Two exchanges at the same moment of the node have no fit. */
  lemma SameMomentFails(o: Observation)
    ensures !FitAffine(Points([o, o])).Fitted?
  {
    FitFailsIff([o, o]);
  }

  /** With equal delays both ways the fit finds the node's clock exactly. */
  lemma SymmetricPathExact(candidates: seq<Observation>, offset: real)
    requires |candidates| >= 2 && !SameMid(candidates)
    requires forall c :: c in candidates ==> Forward(c, offset) == Backward(c, offset) >= 0.0
    ensures FitAffine(Points(candidates)).Fitted?
    ensures LineOf(FitAffine(Points(candidates)).estimate) == Line(1000.0, offset)
    ensures FitAffine(Points(candidates)).estimate.maxResidual == 0.0
  {
    var points := Points(candidates);
    FitFailsIff(candidates);
    forall p | p in points
      ensures p.y == 1000.0 * p.x + offset
    {
      var i :| 0 <= i < |points| && points[i] == p;
      assert candidates[i] in candidates;
      MidpointError(candidates[i], offset);
    }
    ExactFit(points, Line(1000.0, offset));
  }

  // ----- the model -----

  predicate Sane(o: Observation) {
    o.bootEpoch != 0 && o.t3NodeUs >= o.t2NodeUs && o.t4HostNs > o.t1HostNs && RoundTrip(o) >= 0
  }

  /** The estimate after a fit over these observations: theirs, or, if there are too
      few or the fit fails, the one before. */
  ghost predicate Estimated(
    c: seq<Observation>, failed: bool, before: Option<AffineEstimate>, after: Option<AffineEstimate>)
  {
    && (failed <==> |c| >= 2 && SameMid(c))
    && (|c| >= 2 && !SameMid(c) ==>
         FitAffine(Points(c)).Fitted? && after == Some(FitAffine(Points(c)).estimate))
    && (|c| < 2 || SameMid(c) ==> after == before)
  }

  datatype Outcome = Rejected | Added | FitFailed

  class NodeHostClockModel {
    const maxObservations: nat
    const minLockObservations: int
    var observations: seq<Observation>
    var bootEpoch: Option<int>
    var estimate: Option<AffineEstimate>
    var state: ClockState
    var lastHostNs: Option<int>

    /** All observations are sane and of the present boot; a locked clock has
        enough of them. */
    ghost predicate Valid()
      reads this
    {
      && |observations| <= maxObservations
      && (bootEpoch == None ==> observations == [] && estimate == None)
      && (forall o :: o in observations ==> bootEpoch == Some(o.bootEpoch) && Sane(o))
      && (state == Locked ==> |observations| >= minLockObservations)
    }

    constructor (maxObservations: nat, minLockObservations: int)
      ensures Valid() && observations == [] && state == Unsynced
      ensures this.maxObservations == maxObservations && this.minLockObservations == minLockObservations
    {
      this.maxObservations, this.minLockObservations := maxObservations, minLockObservations;
      observations, bootEpoch, estimate, state, lastHostNs := [], None, None, Unsynced, None;
    }

    ghost function Base(o: Observation): seq<Observation>
      reads this
    {
      if bootEpoch == Some(o.bootEpoch) then observations else []
    }

    ghost function BaseEstimate(o: Observation): Option<AffineEstimate>
      reads this
    {
      if bootEpoch == Some(o.bootEpoch) then estimate else None
    }

    /** A sane observation joins those of its own boot; the fit takes the shortest
        round trips among them, and fails, leaving the earlier estimate of that
        boot, exactly if these share one midpoint. */
    method Add(o: Observation) returns (outcome: Outcome)
      requires Valid()
      modifies this
      ensures Valid()
      ensures outcome == Rejected <==> !Sane(o)
      ensures outcome == Rejected ==> state == Invalid && observations == old(observations) && estimate == old(estimate)
      ensures Sane(o) ==> observations == Push(old(Base(o)), o, maxObservations) && bootEpoch == Some(o.bootEpoch)
      ensures Sane(o) ==> Estimated(
          Candidates(observations, minLockObservations), outcome == FitFailed, old(BaseEstimate(o)), estimate)
      ensures outcome == Added ==> state == if |observations| >= minLockObservations then Locked else Unsynced
      ensures outcome == FitFailed ==>
          state == if old(bootEpoch).Some? && old(bootEpoch) != Some(o.bootEpoch) then Unsynced else old(state)
      ensures outcome == Rejected <==>
          || o.bootEpoch == 0 || o.t3NodeUs < o.t2NodeUs || o.t4HostNs <= o.t1HostNs
          || o.t4HostNs - o.t1HostNs < (o.t3NodeUs - o.t2NodeUs) * 1000
      ensures lastHostNs == if outcome == Rejected then old(lastHostNs) else Some(o.t4HostNs)
      ensures outcome == Rejected ==> bootEpoch == old(bootEpoch)
    {
      if !Sane(o) {
        state := Invalid;
        return Rejected;
      }
      outcome := Accept(o);
    }

    method Accept(o: Observation) returns (outcome: Outcome)
      requires Valid() && Sane(o)
      modifies this
      ensures Valid() && !outcome.Rejected? && lastHostNs == Some(o.t4HostNs)
      ensures bootEpoch.Some? && bootEpoch.value == o.bootEpoch
      ensures Estimated(
          Candidates(observations, minLockObservations), outcome == FitFailed, old(BaseEstimate(o)), estimate)
      ensures outcome == Added ==> state == if |observations| >= minLockObservations then Locked else Unsynced
      ensures outcome == FitFailed ==>
          state == if old(bootEpoch).Some? && old(bootEpoch) != Some(o.bootEpoch) then Unsynced else old(state)
      ensures observations == Push(old(Base(o)), o, maxObservations)
    {
      Admit(o);
      outcome := Refit(Candidates(observations, minLockObservations));
    }

    /** The fit over some observations, and the state that follows; both stay if it
        fails. */
    method Refit(c: seq<Observation>) returns (outcome: Outcome)
      requires Valid() && bootEpoch.Some?
      modifies this`estimate, this`state
      ensures Valid() && !outcome.Rejected? && bootEpoch == old(bootEpoch) && observations == old(observations)
      ensures Estimated(c, outcome == FitFailed, old(estimate), estimate)
      ensures state == if outcome == FitFailed then old(state)
                       else if |observations| >= minLockObservations then Locked else Unsynced
    {
      if |c| >= 2 {
        FitFailsIff(c);
        var fit := FitAffine(Points(c));
        if !fit.Fitted? {
          return FitFailed;
        }
        estimate := Some(fit.estimate);
      }
      state := if |observations| >= minLockObservations then Locked else Unsynced;
      outcome := Added;
    }

    method Admit(o: Observation)
      requires Valid() && Sane(o)
      modifies this
      ensures Valid()
      ensures observations == Push(old(Base(o)), o, maxObservations) && bootEpoch == Some(o.bootEpoch)
      ensures estimate == old(BaseEstimate(o)) && lastHostNs == Some(o.t4HostNs)
      ensures state == if old(bootEpoch).Some? && old(bootEpoch) != Some(o.bootEpoch) then Unsynced else old(state)
    {
      if bootEpoch.Some? && o.bootEpoch != bootEpoch.value {
        observations, estimate, state := [], None, Unsynced;
      }
      bootEpoch := Some(o.bootEpoch);
      observations := Push(observations, o, maxObservations);
      lastHostNs := Some(o.t4HostNs);
    }
  }
}
