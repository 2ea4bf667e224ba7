/** The clock that maps a node's sample numbers to its device time. */
module SampleClock {
  import opened Options
  import opened AffineFit
  import opened ClockModels

  datatype ClockState = Unsynced | Locked | Holdover | Invalid

  datatype Source = Source(node: int, boot: int, segment: int)

  datatype Anchor = Anchor(source: Source, sampleSeq: int, deviceTimeUs: int, uncertaintyUs: real)

  /** A bounded queue drops its oldest entry when a full one grows. */
  function Push<T>(s: seq<T>, x: T, capacity: nat): (r: seq<T>)
    ensures |r| <= capacity || |s| > capacity
  {
    if |s| < capacity then s + [x] else if s == [] then [] else s[1..] + [x]
  }

  /** A queue within its capacity grows at the end and keeps its newest entries. */
  lemma PushKeepsNewest<T>(s: seq<T>, x: T, capacity: nat)
    requires |s| <= capacity
    ensures var size := if |s| < capacity then |s| + 1 else capacity;
            Push(s, x, capacity) == (s + [x])[|s| + 1 - size..]
  {
  }

  function PointOf(a: Anchor): WeightedPoint {
    WeightedPoint(a.sampleSeq as real, a.deviceTimeUs as real, MaxReal(a.uncertaintyUs, 1.0))
  }

  /** Points as anchors leave them: whole numbers, of positive uncertainty. */
  ghost predicate FromAnchors(points: seq<WeightedPoint>) {
    forall p :: p in points ==> p.x == p.x.Floor as real && p.y == p.y.Floor as real && p.uncertainty >= 1.0
  }

  predicate Usable(a: Anchor) {
    a.source.boot != 0 && a.deviceTimeUs > 0 && a.uncertaintyUs >= 0.0
  }

  /** An estimate as the clock keeps it: the one line of least weighted squared
      error, rising, with bounds for what it misses. */
  ghost predicate Estimates(points: seq<WeightedPoint>, e: AffineEstimate) {
    && e.slope > 0.0
    && (forall l: Line :: l != LineOf(e) ==> Misfit(points, LineOf(e)) < Misfit(points, l))
    && (forall p :: p in points ==> Abs(p.y - Predict(e, p.x)) <= e.maxResidual <= e.uncertainty)
    && (exists p :: p in points && Abs(p.y - Predict(e, p.x)) == e.maxResidual)
    && e.observationCount == |points|
  }

  lemma {:induction false} FitEstimates(points: seq<WeightedPoint>)
    requires |points| >= 2 && RisingPoints(points) && FromAnchors(points)
    ensures FitAffine(points).Fitted? && Estimates(points, FitAffine(points).estimate)
  {
    RisingFit(points);
    var e := FitAffine(points).estimate;
    var worst, least := FitAttains(points);
    forall l: Line | l != LineOf(e)
      ensures Misfit(points, LineOf(e)) < Misfit(points, l)
    {
      FitIsBest(points, l);
    }
    forall p | p in points
      ensures Abs(p.y - Predict(e, p.x)) <= e.maxResidual <= e.uncertainty
    {
      FitBounds(points, p);
    }
  }

  lemma EstimateKeepsOrder(e: AffineEstimate, a: int, b: int)
    requires e.slope > 0.0 && a < b
    ensures Predict(e, a as real) < Predict(e, b as real)
            && Round(Predict(e, a as real)) <= Round(Predict(e, b as real))
  {
    Steeper(e.slope, e.intercept, a as real, b as real);
    RoundMonotone(Predict(e, a as real), Predict(e, b as real));
  }

  /** The prediction for a later sample is never earlier. */
  lemma PredictionsKeepOrder(points: seq<WeightedPoint>, a: int, b: int)
    requires |points| >= 2 && RisingPoints(points) && FromAnchors(points) && a < b
    ensures FitAffine(points).Fitted?
    ensures var e := FitAffine(points).estimate;
            Predict(e, a as real) < Predict(e, b as real)
              && Round(Predict(e, a as real)) <= Round(Predict(e, b as real))
  {
    RisingFit(points);
    EstimateKeepsOrder(FitAffine(points).estimate, a, b);
  }

  lemma PushRises(points: seq<WeightedPoint>, p: WeightedPoint, capacity: nat)
    requires RisingPoints(points) && (points != [] ==> points[|points| - 1].x < p.x && points[|points| - 1].y < p.y)
    ensures RisingPoints(Push(points, p, capacity))
  {
    var r := points + [p];
    forall i, j | 0 <= i < j < |r|
      ensures r[i].x < r[j].x && r[i].y < r[j].y
    {
      assert i < |points| - 1 ==> points[i].x < points[|points| - 1].x && points[i].y < points[|points| - 1].y;
    }
    assert points != [] ==> points[1..] + [p] == r[1..];
  }

  /** A pushed anchor is the last point, unless no point is kept at all. */
  lemma PushAnchor(points: seq<WeightedPoint>, a: Anchor, capacity: nat)
    requires FromAnchors(points) && |points| <= capacity
    ensures var r := Push(points, PointOf(a), capacity);
            && FromAnchors(r) && |r| <= capacity && (capacity > 0 <==> r != []) && (|points| >= 2 ==> |r| >= 2)
            && (r != [] ==> r[|r| - 1].x.Floor == a.sampleSeq)
  {
  }

  lemma WholeFloor(p: WeightedPoint, x: int, y: int)
    requires p.x == p.x.Floor as real && p.y == p.y.Floor as real
    ensures p.x.Floor == x <==> p.x == x as real
    ensures p.y.Floor == y <==> p.y == y as real
  {
  }

  /** A sample number beyond the last one is no point's. */
  lemma BeyondLast(points: seq<WeightedPoint>, x: int)
    requires RisingPoints(points) && FromAnchors(points)
    requires points != [] ==> x > points[|points| - 1].x.Floor
    ensures forall p :: p in points ==> p.x < x as real
  {
    forall p | p in points
      ensures p.x < x as real
    {
      var last := points[|points| - 1];
      assert last in points && last.x < x as real;
      var i :| 0 <= i < |points| && points[i] == p;
      assert i < |points| - 1 ==> p.x < last.x;
    }
  }

  class SampleClockModel {
    const maxPoints: nat
    const minLockPoints: int
    const maxHoldoverSamples: int
    var source: Option<Source>
    var points: seq<WeightedPoint>
    var estimate: Option<AffineEstimate>
    var state: ClockState
    var lastSampleSeq: Option<int>

    /** The points rise in both coordinates and end at the last sample; the
        estimate is their fit as soon as there are two of them. */
    ghost predicate Valid()
      reads this
    {
      && |points| <= maxPoints
      && RisingPoints(points) && FromAnchors(points)
      && (source == None ==> points == [] && lastSampleSeq == None)
      && (points != [] ==> lastSampleSeq == Some(points[|points| - 1].x.Floor))
      && (maxPoints > 0 && lastSampleSeq.Some? ==> points != [])
      && (|points| < 2 ==> estimate == None)
      && (|points| >= 2 ==> estimate.Some? && Estimates(points, estimate.value))
      && (state == Locked ==> |points| >= minLockPoints) && state != Holdover
    }

    constructor (maxPoints: nat, minLockPoints: int, maxHoldoverSamples: int)
      ensures Valid() && points == [] && state == Unsynced
      ensures this.maxPoints == maxPoints && this.minLockPoints == minLockPoints
              && this.maxHoldoverSamples == maxHoldoverSamples
    {
      this.maxPoints, this.minLockPoints, this.maxHoldoverSamples := maxPoints, minLockPoints, maxHoldoverSamples;
      source, points, estimate, state, lastSampleSeq := None, [], None, Unsynced, None;
    }

    method Reset(s: Source)
      modifies this
      ensures Valid() && source == Some(s) && points == [] && state == Unsynced && lastSampleSeq == None
    {
      source, points, estimate, state, lastSampleSeq := Some(s), [], None, Unsynced, None;
    }

    /** The search for a sample number, latest first. */
    method Known(sampleSeq: int) returns (known: Option<WeightedPoint>)
      ensures known.Some? ==> known.value in points && known.value.x.Floor == sampleSeq
      ensures known == None ==> forall p :: p in points ==> p.x.Floor != sampleSeq
    {
      var i := |points|;
      while i > 0
        invariant 0 <= i <= |points|
        invariant forall k :: i <= k < |points| ==> points[k].x.Floor != sampleSeq
      {
        i := i - 1;
        if points[i].x.Floor == sampleSeq {
          return Some(points[i]);
        }
      }
      known := None;
    }

    /** The points an anchor is compared with: none of another source's. */
    ghost function Base(a: Anchor): seq<WeightedPoint>
      reads this
    {
      if source == Some(a.source) then points else []
    }

    /** The anchor lies beyond everything known of its source. */
    ghost predicate Advances(a: Anchor)
      reads this
    {
      && (source == Some(a.source) && lastSampleSeq.Some? ==> a.sampleSeq > lastSampleSeq.value)
      && (Base(a) != [] ==> a.deviceTimeUs as real > Base(a)[|Base(a)| - 1].y)
    }

    ghost predicate Holds(a: Anchor)
      reads this
    {
      exists p :: p in Base(a) && p.x == a.sampleSeq as real && p.y == a.deviceTimeUs as real
    }

    /** An anchor either extends the points, repeats one of them, or makes the
        clock invalid; only an unusable one leaves another source's points. */
    method AddAnchor(a: Anchor) returns (ok: bool)
      requires Valid()
      modifies this
      ensures Valid()
      ensures ok <==> Usable(a) && (old(Advances(a)) || old(Holds(a)))
      ensures ok ==> a.source.boot != 0 && a.deviceTimeUs > 0 && a.uncertaintyUs >= 0.0
      ensures !ok ==> state == Invalid
      ensures a.source.boot == 0 || a.deviceTimeUs <= 0 || a.uncertaintyUs < 0.0 ==>
          points == old(points) && source == old(source) && lastSampleSeq == old(lastSampleSeq)
      ensures Usable(a) ==> source == Some(a.source)
      ensures Usable(a) && !old(Advances(a)) ==> points == old(Base(a))
      ensures Usable(a) && old(Advances(a)) ==>
          var p := WeightedPoint(a.sampleSeq as real, a.deviceTimeUs as real, MaxReal(a.uncertaintyUs, 1.0));
          points == Push(old(Base(a)), p, maxPoints) && lastSampleSeq == Some(a.sampleSeq)
      ensures Usable(a) && old(Advances(a)) ==> state == if |points| >= minLockPoints then Locked else Unsynced
      ensures ok && !old(Advances(a)) ==> state == old(state)
    {
      if !Usable(a) {
        state := Invalid;
        return false;
      }
      if source != Some(a.source) {
        Reset(a.source);
      }
      assert points == old(Base(a)) && (Advances(a) <==> old(Advances(a))) && (Holds(a) <==> old(Holds(a)));
      ok := Place(a);
    }

    /** The anchor is of the present source. */
    method Place(a: Anchor) returns (ok: bool)
      requires Valid() && source == Some(a.source) && Usable(a)
      modifies this
      ensures Valid() && source == old(source)
      ensures ok <==> old(Advances(a)) || old(Holds(a))
      ensures !ok ==> state == Invalid
      ensures !old(Advances(a)) ==> points == old(points) && (ok ==> state == old(state))
      ensures old(Advances(a)) ==>
          && points == Push(old(points), PointOf(a), maxPoints) && lastSampleSeq == Some(a.sampleSeq)
          && state == if |points| >= minLockPoints then Locked else Unsynced
    {
      if lastSampleSeq.Some? && a.sampleSeq <= lastSampleSeq.value {
        ok := Revisit(a);
        return ok;
      }
      BeyondLast(points, a.sampleSeq);
      if points != [] && a.deviceTimeUs as real <= points[|points| - 1].y {
        state := Invalid;
        return false;
      }
      Extend(a);
      ok := true;
    }

    /** An anchor at or before the last one must repeat a known point. */
    method Revisit(a: Anchor) returns (ok: bool)
      requires Valid() && source == Some(a.source)
      modifies this`state
      ensures Valid() && ok == old(Holds(a)) && state == if ok then old(state) else Invalid
    {
      var known := Known(a.sampleSeq);
      ok := known.Some? && known.value.y.Floor == a.deviceTimeUs;
      forall p | p in points
        ensures p.x.Floor == a.sampleSeq <==> p.x == a.sampleSeq as real
        ensures p.y.Floor == a.deviceTimeUs <==> p.y == a.deviceTimeUs as real
      {
        WholeFloor(p, a.sampleSeq, a.deviceTimeUs);
      }
      if !ok {
        assert forall p :: p in points && p.x == a.sampleSeq as real ==> p == known.value;
        state := Invalid;
      }
    }

    method Extend(a: Anchor)
      requires Valid() && source.Some? && Usable(a)
      requires points != [] ==>
          a.sampleSeq as real > points[|points| - 1].x && a.deviceTimeUs as real > points[|points| - 1].y
      modifies this
      ensures Valid() && source == old(source)
      ensures points == Push(old(points), PointOf(a), maxPoints) && lastSampleSeq == Some(a.sampleSeq)
      ensures state == if |points| >= minLockPoints then Locked else Unsynced
    {
      PushRises(points, PointOf(a), maxPoints);
      PushAnchor(points, a, maxPoints);
      points := Push(points, PointOf(a), maxPoints);
      lastSampleSeq := Some(a.sampleSeq);
      Refit();
      state := if |points| >= minLockPoints then Locked else Unsynced;
    }

    method Refit()
      requires RisingPoints(points) && FromAnchors(points)
      modifies this`estimate
      ensures |points| >= 2 ==> estimate.Some? && Estimates(points, estimate.value)
      ensures |points| < 2 ==> estimate == old(estimate)
    {
      if |points| >= 2 {
        FitEstimates(points);
        estimate := Some(FitAffine(points).estimate);
      }
    }

    /** Nothing before two points are known; then the fitted time, the state
        telling how far the sample lies beyond the last anchor. */
    method PredictDeviceTime(sampleSeq: int) returns (r: Option<(int, real, ClockState)>)
      requires Valid()
      ensures r.Some? <==> |points| >= 2
      ensures r.Some? ==> estimate.Some? && r.value.0 == Round(Predict(estimate.value, sampleSeq as real))
      ensures r.Some? ==>
          var last := points[|points| - 1].x.Floor;
          && (sampleSeq <= last ==> r.value.1 == estimate.value.uncertainty && r.value.2 == state)
          && (sampleSeq > last ==>
               && r.value.1 == estimate.value.uncertainty + (sampleSeq - last) as real * estimate.value.maxResidual
               && r.value.2 == if sampleSeq - last <= maxHoldoverSamples then Holdover else Invalid)
      ensures r.Some? ==> r.value.1 >= estimate.value.uncertainty
    {
      if estimate == None || lastSampleSeq == None {
        return None;
      }
      var distance := if sampleSeq > lastSampleSeq.value then sampleSeq - lastSampleSeq.value else 0;
      var s := state;
      if distance > 0 {
        s := if distance <= maxHoldoverSamples then Holdover else Invalid;
      }
      var e := estimate.value;
      Grows(points, distance, e);
      r := Some((Round(Predict(e, sampleSeq as real)), e.uncertainty + distance as real * e.maxResidual, s));
    }
  }

  lemma Grows(points: seq<WeightedPoint>, distance: nat, e: AffineEstimate)
    requires points != [] && Estimates(points, e)
    ensures e.uncertainty + distance as real * e.maxResidual >= e.uncertainty
    ensures distance == 0 ==> e.uncertainty + distance as real * e.maxResidual == e.uncertainty
  {
    assert points[0] in points;
    ProductSign(distance as real, e.maxResidual);
  }

  lemma ProductSign(d: real, m: real)
    requires d >= 0.0 && m >= 0.0
    ensures d * m >= 0.0
  {
  }
}
