/** The affine fit of the clock models as their callers see it. */
module ClockModels {
  import opened AffineFit

  datatype WeightedPoint = WeightedPoint(x: real, y: real, uncertainty: real)

  datatype AffineEstimate = AffineEstimate(
    slope: real, intercept: real, maxResidual: real, uncertainty: real, observationCount: nat)

  function Predict(e: AffineEstimate, x: real): real { e.slope * x + e.intercept }

  datatype FitResult = Fitted(estimate: AffineEstimate) | TooFewPoints | BadObservation | NoSpan

  function MaxReal(a: real, b: real): real { if a >= b then a else b }

  function Abs(a: real): real { if a >= 0.0 then a else -a }

  /** Points more certain than one unit count as certain to one unit. */
  function Weight(u: real): (w: real)
    ensures w > 0.0
  {
    var m := MaxReal(u, 1.0);
    Product(m, m);
    1.0 / (m * m)
  }

  function Terms(points: seq<WeightedPoint>, x0: real, y0: real): seq<Term> {
    seq(|points|, i requires 0 <= i < |points| =>
      Term(Weight(points[i].uncertainty), points[i].x - x0, points[i].y - y0))
  }

  function Residuals(points: seq<WeightedPoint>, l: Line): seq<real> {
    seq(|points|, i requires 0 <= i < |points| => Abs(ResidualAt(l, points[i].x, points[i].y)))
  }

  function Uncertainties(points: seq<WeightedPoint>): seq<real> {
    seq(|points|, i requires 0 <= i < |points| => points[i].uncertainty)
  }

  function Largest(s: seq<real>): (m: real)
    requires s != []
    ensures m in s && forall v :: v in s ==> v <= m
  {
    if |s| == 1 then s[0]
    else
      assert s == s[..|s| - 1] + [s[|s| - 1]];
      MaxReal(Largest(s[..|s| - 1]), s[|s| - 1])
  }

  function FitAffine(points: seq<WeightedPoint>): FitResult {
    if |points| < 2 then TooFewPoints
    else if exists p :: p in points && p.uncertainty < 0.0 then BadObservation
    else
      var x0, y0 := points[0].x, points[0].y;
      var t := Terms(points, x0, y0);
      var s := SumOver(t);
      TermsWeighted(points, x0, y0);
      DenominatorSign(t);
      if Denominator(s) <= 0.0 then NoSpan
      else
        var slope := Numerator(s) / Denominator(s);
        Fitted(Measured(points, Line(slope, PlacedIntercept(slope, x0, y0, MeanX(s), MeanY(s)))))
  }

  function PlacedIntercept(slope: real, x0: real, y0: real, mx: real, my: real): real {
    y0 + my - slope * (x0 + mx)
  }

  /** A line with its residuals at the points. */
  function Measured(points: seq<WeightedPoint>, l: Line): AffineEstimate
    requires points != []
  {
    var worst := Largest(Residuals(points, l));
    AffineEstimate(l.slope, l.intercept, worst, MaxReal(worst, Largest(Uncertainties(points))), |points|)
  }

  function LineOf(e: AffineEstimate): Line { Line(e.slope, e.intercept) }

  lemma FitMeasures(points: seq<WeightedPoint>)
    requires FitAffine(points).Fitted?
    ensures points != [] && FitAffine(points).estimate == Measured(points, LineOf(FitAffine(points).estimate))
  {
  }

  lemma TermsWeighted(points: seq<WeightedPoint>, x0: real, y0: real)
    ensures Weighted(Terms(points, x0, y0))
  {
    var t := Terms(points, x0, y0);
    forall p | p in t
      ensures p.w > 0.0
    {
      var i :| 0 <= i < |t| && t[i] == p;
    }
  }

  ghost predicate Spans(points: seq<WeightedPoint>) {
    exists p, q :: p in points && q in points && p.x != q.x
  }

  lemma SpansTerms(points: seq<WeightedPoint>, x0: real, y0: real)
    ensures SameX(Terms(points, x0, y0)) <==> !Spans(points)
  {
    var t := Terms(points, x0, y0);
    if SameX(t) {
      forall p, q | p in points && q in points
        ensures p.x == q.x
      {
        var i :| 0 <= i < |points| && points[i] == p;
        var j :| 0 <= j < |points| && points[j] == q;
        assert t[i] in t && t[j] in t;
      }
    } else {
      var p, q :| p in t && q in t && p.x != q.x;
      var i :| 0 <= i < |t| && t[i] == p;
      var j :| 0 <= j < |t| && t[j] == q;
      assert points[i] in points && points[j] in points;
    }
  }

  /** A fit exists exactly for at least two points of usable uncertainty that do
      not all lie at one x. */
  lemma FitExistsIff(points: seq<WeightedPoint>)
    ensures FitAffine(points).Fitted?
            <==> |points| >= 2 && (forall p :: p in points ==> p.uncertainty >= 0.0) && Spans(points)
  {
    if |points| >= 2 {
      var x0, y0 := points[0].x, points[0].y;
      TermsWeighted(points, x0, y0);
      DenominatorSign(Terms(points, x0, y0));
      SpansTerms(points, x0, y0);
    }
  }

  ghost predicate RisingPoints(points: seq<WeightedPoint>) {
    forall i, j :: 0 <= i < j < |points| ==> points[i].x < points[j].x && points[i].y < points[j].y
  }

  lemma QuotientSign(num: real, den: real)
    requires num > 0.0 && den > 0.0
    ensures num / den > 0.0
  {
  }

  /** Points that rise in both coordinates always have a fit, and it rises. */
  lemma RisingFit(points: seq<WeightedPoint>)
    requires |points| >= 2 && RisingPoints(points) && forall p :: p in points ==> p.uncertainty >= 0.0
    ensures FitAffine(points).Fitted? && FitAffine(points).estimate.slope > 0.0
  {
    assert points[0] in points && points[1] in points;
    FitExistsIff(points);
    var t := Terms(points, points[0].x, points[0].y);
    TermsWeighted(points, points[0].x, points[0].y);
    NumeratorPositive(t);
    DenominatorSign(t);
    QuotientSign(Numerator(SumOver(t)), Denominator(SumOver(t)));
  }

  // ----- the fit is the least-squares line -----

  /** The weighted squared error of a line, in the points' own coordinates. */
  function Misfit(points: seq<WeightedPoint>, l: Line): real { SquaredError(Terms(points, 0.0, 0.0), l) }

  /** The sum of the squares by which the line misses the points, each in units of the
      point's uncertainty, of which less than one counts as one. */
  ghost function MissedSquares(points: seq<WeightedPoint>, l: Line): real {
    if points == [] then 0.0
    else
      var p := points[|points| - 1];
      var unit := if p.uncertainty >= 1.0 then p.uncertainty else 1.0;
      var missed := (p.y - (l.slope * p.x + l.intercept)) / unit;
      MissedSquares(points[..|points| - 1], l) + missed * missed
  }

  lemma Rescaled(r: real, m: real)
    requires m >= 1.0 && m * m > 0.0
    ensures 1.0 / (m * m) * (r * r) == (r / m) * (r / m)
  {
    var q := r / m;
    assert q * m == r;
    assert r * r == (q * q) * (m * m);
  }

  lemma {:induction false} MisfitIsMissed(points: seq<WeightedPoint>, l: Line)
    ensures Misfit(points, l) == MissedSquares(points, l)
  {
    if points != [] {
      var n := |points| - 1;
      var p := points[n];
      MisfitIsMissed(points[..n], l);
      assert Terms(points, 0.0, 0.0)[..n] == Terms(points[..n], 0.0, 0.0);
      var m := MaxReal(p.uncertainty, 1.0);
      Product(m, m);
      Rescaled(ResidualAt(l, p.x, p.y), m);
    }
  }

  function Moved(l: Line, x0: real, y0: real): Line { Line(l.slope, l.intercept + l.slope * x0 - y0) }

  lemma ResidualMoved(l: Line, x0: real, y0: real, x: real, y: real)
    ensures ResidualAt(Moved(l, x0, y0), x - x0, y - y0) == ResidualAt(l, x, y)
  {
    assert l.slope * (x - x0) == l.slope * x - l.slope * x0;
  }

  lemma {:induction false} SumsAgree(t: seq<Term>, u: seq<Term>, f: Term -> real, g: Term -> real)
    requires |t| == |u| && forall i :: 0 <= i < |t| ==> f(t[i]) == g(u[i])
    ensures Sum(t, f) == Sum(u, g)
  {
    if t != [] {
      SumsAgree(t[..|t| - 1], u[..|t| - 1], f, g);
    }
  }

  lemma MisfitMoved(points: seq<WeightedPoint>, l: Line, x0: real, y0: real)
    ensures Misfit(points, l) == SquaredError(Terms(points, x0, y0), Moved(l, x0, y0))
  {
    var t, u := Terms(points, 0.0, 0.0), Terms(points, x0, y0);
    var f, g := ResidualSquared(l), ResidualSquared(Moved(l, x0, y0));
    forall i | 0 <= i < |t|
      ensures f(t[i]) == g(u[i])
    {
      ResidualMoved(l, x0, y0, points[i].x, points[i].y);
    }
    SumsAgree(t, u, f, g);
  }

  lemma InterceptMoved(slope: real, x0: real, y0: real, mx: real, my: real)
    ensures Moved(Line(slope, PlacedIntercept(slope, x0, y0, mx, my)), x0, y0) == Line(slope, my - slope * mx)
  {
    assert slope * (x0 + mx) == slope * x0 + slope * mx;
  }

  lemma MovedFit(s: Functional, l: Line, x0: real, y0: real)
    requires s(W()) != 0.0 && Denominator(s) != 0.0 && l.slope == FitLine(s).slope
    requires l.intercept == PlacedIntercept(l.slope, x0, y0, MeanX(s), MeanY(s))
    ensures Moved(l, x0, y0) == FitLine(s)
  {
    InterceptMoved(l.slope, x0, y0, MeanX(s), MeanY(s));
  }

  lemma PlacedLine(points: seq<WeightedPoint>)
    requires FitAffine(points).Fitted?
    ensures var t := Terms(points, points[0].x, points[0].y);
            var s := SumOver(t);
            && Weighted(t) && !SameX(t) && Sum(t, W()) > 0.0 && Denominator(s) > 0.0
            && var slope := FitLine(s).slope;
               LineOf(FitAffine(points).estimate)
               == Line(slope, PlacedIntercept(slope, points[0].x, points[0].y, MeanX(s), MeanY(s)))
  {
    TermsWeighted(points, points[0].x, points[0].y);
    DenominatorSign(Terms(points, points[0].x, points[0].y));
  }

  /** Relative to the first point the estimate is the fitted line of the terms. */
  lemma EstimateMoved(points: seq<WeightedPoint>)
    requires FitAffine(points).Fitted?
    ensures var t := Terms(points, points[0].x, points[0].y);
            && Weighted(t) && !SameX(t) && Sum(t, W()) > 0.0 && Denominator(SumOver(t)) > 0.0
            && Moved(LineOf(FitAffine(points).estimate), points[0].x, points[0].y) == FitLine(SumOver(t))
  {
    PlacedLine(points);
    var s := SumOver(Terms(points, points[0].x, points[0].y));
    MovedFit(s, LineOf(FitAffine(points).estimate), points[0].x, points[0].y);
  }

  lemma MovedApart(l: Line, l': Line, x0: real, y0: real)
    requires Moved(l, x0, y0) == Moved(l', x0, y0)
    ensures l == l'
  {
  }

  /** Every other line is farther from the points than the estimate. */
  lemma FitIsBest(points: seq<WeightedPoint>, other: Line)
    requires FitAffine(points).Fitted? && other != LineOf(FitAffine(points).estimate)
    ensures Misfit(points, LineOf(FitAffine(points).estimate)) < Misfit(points, other)
    ensures MissedSquares(points, LineOf(FitAffine(points).estimate)) < MissedSquares(points, other)
  {
    MisfitIsMissed(points, LineOf(FitAffine(points).estimate));
    MisfitIsMissed(points, other);
    var l, x0, y0 := LineOf(FitAffine(points).estimate), points[0].x, points[0].y;
    EstimateMoved(points);
    MisfitMoved(points, l, x0, y0);
    MisfitMoved(points, other, x0, y0);
    FitLineIsBest(Terms(points, x0, y0), Moved(other, x0, y0));
    if Moved(other, x0, y0) == Moved(l, x0, y0) {
      MovedApart(other, l, x0, y0);
    }
  }

  /** The residual and uncertainty of an estimate bound those of every point. */
  lemma FitBounds(points: seq<WeightedPoint>, p: WeightedPoint)
    requires FitAffine(points).Fitted? && p in points
    ensures var e := FitAffine(points).estimate;
            Abs(p.y - Predict(e, p.x)) <= e.maxResidual <= e.uncertainty && p.uncertainty <= e.uncertainty
  {
    FitMeasures(points);
    MeasuredBounds(points, LineOf(FitAffine(points).estimate), p);
    PredictionMissed(FitAffine(points).estimate, p);
  }

  /** The residual is that of some point; the uncertainty is the residual or that of
      some point. */
  lemma FitAttains(points: seq<WeightedPoint>) returns (worst: WeightedPoint, least: WeightedPoint)
    requires FitAffine(points).Fitted?
    ensures var e := FitAffine(points).estimate;
            && worst in points && Abs(worst.y - Predict(e, worst.x)) == e.maxResidual
            && least in points && (e.uncertainty == e.maxResidual || e.uncertainty == least.uncertainty)
            && e.observationCount == |points|
  {
    FitMeasures(points);
    var e := FitAffine(points).estimate;
    var residuals, uncertainties := Residuals(points, LineOf(e)), Uncertainties(points);
    var i :| 0 <= i < |residuals| && residuals[i] == Largest(residuals);
    var j :| 0 <= j < |uncertainties| && uncertainties[j] == Largest(uncertainties);
    worst, least := points[i], points[j];
    PredictionMissed(e, worst);
  }

  lemma PredictionMissed(e: AffineEstimate, p: WeightedPoint)
    ensures p.y - Predict(e, p.x) == ResidualAt(LineOf(e), p.x, p.y)
  {
  }

  lemma MeasuredBounds(points: seq<WeightedPoint>, l: Line, p: WeightedPoint)
    requires p in points
    ensures var e := Measured(points, l);
            Abs(ResidualAt(l, p.x, p.y)) <= e.maxResidual <= e.uncertainty && p.uncertainty <= e.uncertainty
  {
    var i :| 0 <= i < |points| && points[i] == p;
    assert Residuals(points, l)[i] in Residuals(points, l);
    assert Uncertainties(points)[i] in Uncertainties(points);
  }

  lemma OnLine(points: seq<WeightedPoint>, l: Line)
    requires forall p :: p in points ==> p.y == l.slope * p.x + l.intercept
    ensures Misfit(points, l) == 0.0
  {
    var t := Terms(points, 0.0, 0.0);
    var f := ResidualSquared(l);
    forall p | p in t
      ensures f(p) == 0.0
    {
      var i :| 0 <= i < |t| && t[i] == p;
      assert points[i] in points;
      assert ResidualAt(l, p.x, p.y) == 0.0;
    }
    SumSign(t, f);
  }

  lemma MisfitSign(points: seq<WeightedPoint>, l: Line)
    ensures Misfit(points, l) >= 0.0
  {
    var t := Terms(points, 0.0, 0.0);
    var f := ResidualSquared(l);
    TermsWeighted(points, 0.0, 0.0);
    forall p | p in t
      ensures f(p) >= 0.0
    {
      SquareSign(p.w, ResidualAt(l, p.x, p.y));
    }
    SumSign(t, f);
  }

  /** Points on a line give that line back, without residual. */
  lemma ExactFit(points: seq<WeightedPoint>, l: Line)
    requires FitAffine(points).Fitted? && forall p :: p in points ==> p.y == l.slope * p.x + l.intercept
    ensures LineOf(FitAffine(points).estimate) == l && FitAffine(points).estimate.maxResidual == 0.0
  {
    var e := FitAffine(points).estimate;
    OnLine(points, l);
    MisfitSign(points, LineOf(e));
    if l != LineOf(e) {
      FitIsBest(points, l);
    }
    FitMeasures(points);
    MeasuredOnLine(points, l);
  }

  lemma MeasuredOnLine(points: seq<WeightedPoint>, l: Line)
    requires points != [] && forall p :: p in points ==> p.y == l.slope * p.x + l.intercept
    ensures Measured(points, l).maxResidual == 0.0
  {
    var r := Residuals(points, l);
    forall v | v in r
      ensures v == 0.0
    {
      var i :| 0 <= i < |r| && r[i] == v;
      assert points[i] in points;
    }
    assert Largest(r) in r;
  }

  // ----- rounding -----

  /** To the nearest integer, halves to the even one. */
  function Round(r: real): (n: int)
    ensures -0.5 <= n as real - r <= 0.5
    ensures n as real - r == 0.5 || n as real - r == -0.5 ==> n % 2 == 0
  {
    var n, part := r.Floor, r - r.Floor as real;
    if part < 0.5 || (part == 0.5 && n % 2 == 0) then n else n + 1
  }

  lemma RoundMonotone(a: real, b: real)
    requires a <= b
    ensures Round(a) <= Round(b)
  {
  }

  lemma Steeper(slope: real, intercept: real, a: real, b: real)
    requires slope > 0.0 && a < b
    ensures slope * a + intercept < slope * b + intercept
  {
    Product(slope, b - a);
    assert slope * (b - a) == slope * b - slope * a;
  }
}
