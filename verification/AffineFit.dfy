/** The weighted least-squares line that the clock models fit, over exact reals.
    A weighted sum over points is a linear functional on functions of a point; the
    algebra of the fit uses nothing else about it. */
module AffineFit {
  /** A point with its weight, relative to the first point of the fit. */
  datatype Term = Term(w: real, x: real, y: real)

  datatype Line = Line(slope: real, intercept: real)

  type Functional = (Term -> real) -> real

  // ----- sums -----

  function Sum(t: seq<Term>, f: Term -> real): real {
    if t == [] then 0.0 else Sum(t[..|t| - 1], f) + f(t[|t| - 1])
  }

  function SumOver(t: seq<Term>): Functional { (f: Term -> real) => Sum(t, f) }

  lemma {:induction false} SumSign(t: seq<Term>, f: Term -> real)
    requires forall p :: p in t ==> f(p) >= 0.0
    ensures Sum(t, f) >= 0.0
    ensures Sum(t, f) == 0.0 <==> forall p :: p in t ==> f(p) == 0.0
  {
    if t != [] {
      var n := |t| - 1;
      assert t == t[..n] + [t[n]];
      SumSign(t[..n], f);
      assert t[n] in t;
    }
  }

  lemma Distribute(a: real, x: real, y: real)
    ensures a * (x + y) == a * x + a * y
  {
  }

  ghost predicate Combines(
    f: Term -> real, g: Term -> real, h: Term -> real, k: Term -> real, l: Term -> real, a: real, b: real, c: real)
  {
    forall p :: f(p) == g(p) + a * h(p) + b * k(p) + c * l(p)
  }

  ghost predicate Linear(s: Functional) {
    forall f, g, h, k, l, a, b, c :: Combines(f, g, h, k, l, a, b, c) ==> s(f) == s(g) + a * s(h) + b * s(k) + c * s(l)
  }

  lemma {:induction false} SumCombines(
    t: seq<Term>, f: Term -> real, g: Term -> real, h: Term -> real, k: Term -> real, l: Term -> real,
    a: real, b: real, c: real)
    requires Combines(f, g, h, k, l, a, b, c)
    ensures Sum(t, f) == Sum(t, g) + a * Sum(t, h) + b * Sum(t, k) + c * Sum(t, l)
  {
    if t != [] {
      var n := |t| - 1;
      SumCombines(t[..n], f, g, h, k, l, a, b, c);
      Distribute(a, Sum(t[..n], h), h(t[n]));
      Distribute(b, Sum(t[..n], k), k(t[n]));
      Distribute(c, Sum(t[..n], l), l(t[n]));
    }
  }

  lemma SumIsLinear(t: seq<Term>)
    ensures Linear(SumOver(t))
  {
    forall f, g, h, k, l, a, b, c | Combines(f, g, h, k, l, a, b, c)
      ensures Sum(t, f) == Sum(t, g) + a * Sum(t, h) + b * Sum(t, k) + c * Sum(t, l)
    {
      SumCombines(t, f, g, h, k, l, a, b, c);
    }
  }

  // ----- what is summed -----

  function W(): Term -> real { (p: Term) => p.w }
  function X(): Term -> real { (p: Term) => p.w * p.x }
  function Y(): Term -> real { (p: Term) => p.w * p.y }

  function OffX(mx: real): Term -> real { (p: Term) => p.w * (p.x - mx) }
  function OffY(my: real): Term -> real { (p: Term) => p.w * (p.y - my) }
  function OffXX(mx: real): Term -> real { (p: Term) => p.w * ((p.x - mx) * (p.x - mx)) }
  function OffXY(mx: real, my: real): Term -> real { (p: Term) => p.w * ((p.x - mx) * (p.y - my)) }

  function ResidualAt(l: Line, x: real, y: real): real { y - (l.slope * x + l.intercept) }

  function Residual(l: Line): Term -> real { (p: Term) => p.w * ResidualAt(l, p.x, p.y) }
  function ResidualX(l: Line): Term -> real { (p: Term) => p.w * (p.x * ResidualAt(l, p.x, p.y)) }
  function ResidualSquared(l: Line): Term -> real {
    (p: Term) => p.w * (ResidualAt(l, p.x, p.y) * ResidualAt(l, p.x, p.y))
  }
  function HeightSquared(d: Line): Term -> real {
    (p: Term) => p.w * ((d.slope * p.x + d.intercept) * (d.slope * p.x + d.intercept))
  }

  // ----- the fit -----

  function MeanX(s: Functional): real
    requires s(W()) != 0.0
  {
    s(X()) / s(W())
  }

  function MeanY(s: Functional): real
    requires s(W()) != 0.0
  {
    s(Y()) / s(W())
  }

  function Denominator(s: Functional): real
    requires s(W()) != 0.0
  {
    s(OffXX(MeanX(s)))
  }

  function Numerator(s: Functional): real
    requires s(W()) != 0.0
  {
    s(OffXY(MeanX(s), MeanY(s)))
  }

  function FitLine(s: Functional): Line
    requires s(W()) != 0.0 && Denominator(s) != 0.0
  {
    var slope := Numerator(s) / Denominator(s);
    Line(slope, MeanY(s) - slope * MeanX(s))
  }

  // ----- the means balance -----

  lemma OffXCombines(mx: real)
    ensures Combines(OffX(mx), X(), W(), W(), W(), -mx, 0.0, 0.0)
  {
    forall p: Term
      ensures OffX(mx)(p) == X()(p) + (-mx) * W()(p) + 0.0 * W()(p) + 0.0 * W()(p)
    {
      assert p.w * (p.x - mx) == p.w * p.x + (-mx) * p.w;
    }
  }

  lemma OffYCombines(my: real)
    ensures Combines(OffY(my), Y(), W(), W(), W(), -my, 0.0, 0.0)
  {
    forall p: Term
      ensures OffY(my)(p) == Y()(p) + (-my) * W()(p) + 0.0 * W()(p) + 0.0 * W()(p)
    {
      assert p.w * (p.y - my) == p.w * p.y + (-my) * p.w;
    }
  }

  lemma MeanCancels(w: real, x: real, m: real)
    requires w != 0.0 && m == x / w
    ensures x + (-m) * w == 0.0
  {
  }

  lemma OffXBalances(s: Functional, m: real)
    requires Linear(s) && s(X()) + (-m) * s(W()) == 0.0
    ensures s(OffX(m)) == 0.0
  {
    OffXCombines(m);
  }

  lemma OffYBalances(s: Functional, m: real)
    requires Linear(s) && s(Y()) + (-m) * s(W()) == 0.0
    ensures s(OffY(m)) == 0.0
  {
    OffYCombines(m);
  }

  lemma MeansBalance(s: Functional)
    requires Linear(s) && s(W()) != 0.0
    ensures s(OffX(MeanX(s))) == 0.0 && s(OffY(MeanY(s))) == 0.0
  {
    MeanCancels(s(W()), s(X()), MeanX(s));
    MeanCancels(s(W()), s(Y()), MeanY(s));
    OffXBalances(s, MeanX(s));
    OffYBalances(s, MeanY(s));
  }

  // ----- the fitted line balances, so it is the best -----

  lemma CentredResidual(w: real, x: real, y: real, mx: real, my: real, l: Line)
    requires l.intercept == my - l.slope * mx
    ensures w * ResidualAt(l, x, y) == w * (y - my) + (-l.slope) * (w * (x - mx))
    ensures w * (x * ResidualAt(l, x, y))
            == w * ((x - mx) * (y - my)) + (-l.slope) * (w * ((x - mx) * (x - mx))) + mx * (w * ResidualAt(l, x, y))
  {
    var r, dx, dy := ResidualAt(l, x, y), x - mx, y - my;
    assert r == dy - l.slope * dx;
    assert x * r == dx * dy - l.slope * (dx * dx) + mx * r;
    assert w * (x * r) == w * (dx * dy) - w * (l.slope * (dx * dx)) + w * (mx * r);
  }

  lemma ResidualCombines(l: Line, mx: real, my: real)
    requires l.intercept == my - l.slope * mx
    ensures Combines(Residual(l), OffY(my), OffX(mx), W(), W(), -l.slope, 0.0, 0.0)
    ensures Combines(ResidualX(l), OffXY(mx, my), OffXX(mx), Residual(l), W(), -l.slope, mx, 0.0)
  {
    forall p: Term
      ensures Residual(l)(p) == OffY(my)(p) + (-l.slope) * OffX(mx)(p) + 0.0 * W()(p) + 0.0 * W()(p)
      ensures ResidualX(l)(p) == OffXY(mx, my)(p) + (-l.slope) * OffXX(mx)(p) + mx * Residual(l)(p) + 0.0 * W()(p)
    {
      CentredResidual(p.w, p.x, p.y, mx, my, l);
    }
  }

  lemma Quotient(num: real, den: real, q: real)
    requires den != 0.0 && q == num / den
    ensures num + (-q) * den == 0.0
  {
  }

  lemma ResidualsBalance(s: Functional, l: Line, mx: real, my: real)
    requires Linear(s) && l.intercept == my - l.slope * mx && s(OffX(mx)) == 0.0 && s(OffY(my)) == 0.0
    requires s(OffXY(mx, my)) + (-l.slope) * s(OffXX(mx)) == 0.0
    ensures s(Residual(l)) == 0.0 && s(ResidualX(l)) == 0.0
  {
    ResidualCombines(l, mx, my);
  }

  /** The residuals of the fitted line cancel out, plainly and against x. */
  lemma NormalEquations(s: Functional)
    requires Linear(s) && s(W()) != 0.0 && Denominator(s) != 0.0
    ensures s(Residual(FitLine(s))) == 0.0 && s(ResidualX(FitLine(s))) == 0.0
  {
    MeansBalance(s);
    Quotient(Numerator(s), Denominator(s), FitLine(s).slope);
    ResidualsBalance(s, FitLine(s), MeanX(s), MeanY(s));
  }

  lemma SquareOfDifference(w: real, x: real, r: real, a: real, b: real, r': real)
    requires r' == r - (a * x + b)
    ensures var h := a * x + b;
            w * (r' * r') == w * (r * r) + 1.0 * (w * (h * h)) + (-2.0 * a) * (w * (x * r)) + (-2.0 * b) * (w * r)
  {
    var h := a * x + b;
    assert r' * r' == r * r - 2.0 * (h * r) + h * h;
    assert h * r == a * (x * r) + b * r;
    assert w * (h * r) == a * (w * (x * r)) + b * (w * r);
    assert w * (r' * r') == w * (r * r) - 2.0 * (w * (h * r)) + w * (h * h);
  }

  lemma SquaredCombines(l: Line, d: Line, l': Line)
    requires l'.slope == l.slope + d.slope && l'.intercept == l.intercept + d.intercept
    ensures Combines(ResidualSquared(l'), ResidualSquared(l), HeightSquared(d), ResidualX(l), Residual(l),
                     1.0, -2.0 * d.slope, -2.0 * d.intercept)
  {
    forall p: Term
      ensures ResidualSquared(l')(p)
              == ResidualSquared(l)(p) + 1.0 * HeightSquared(d)(p)
                 + (-2.0 * d.slope) * ResidualX(l)(p) + (-2.0 * d.intercept) * Residual(l)(p)
    {
      assert l'.slope * p.x == l.slope * p.x + d.slope * p.x;
      SquareOfDifference(p.w, p.x, ResidualAt(l, p.x, p.y), d.slope, d.intercept, ResidualAt(l', p.x, p.y));
    }
  }

  /** Moving off a balanced line adds the weighted squares of the move. */
  lemma BalancedMove(s: Functional, l: Line, other: Line)
    requires Linear(s) && s(Residual(l)) == 0.0 && s(ResidualX(l)) == 0.0
    ensures s(ResidualSquared(other))
            == s(ResidualSquared(l)) + s(HeightSquared(Line(other.slope - l.slope, other.intercept - l.intercept)))
  {
    SquaredCombines(l, Line(other.slope - l.slope, other.intercept - l.intercept), other);
  }

  // ----- signs -----

  ghost predicate Weighted(t: seq<Term>) {
    forall p :: p in t ==> p.w > 0.0
  }

  ghost predicate SameX(t: seq<Term>) {
    forall p, q :: p in t && q in t ==> p.x == q.x
  }

  lemma Product(a: real, b: real)
    ensures a > 0.0 && b > 0.0 ==> a * b > 0.0
    ensures a < 0.0 && b < 0.0 ==> a * b > 0.0
    ensures a * b == 0.0 <==> a == 0.0 || b == 0.0
  {
  }

  lemma SquareSign(w: real, d: real)
    requires w > 0.0
    ensures w * (d * d) >= 0.0
    ensures w * (d * d) == 0.0 <==> d == 0.0
  {
    Product(d, d);
    Product(w, d * d);
  }

  lemma TotalPositive(t: seq<Term>)
    requires Weighted(t) && t != []
    ensures Sum(t, W()) > 0.0
  {
    SumSign(t, W());
    assert t[0] in t;
  }

  lemma SpreadSign(t: seq<Term>, mx: real)
    requires Weighted(t)
    ensures Sum(t, OffXX(mx)) >= 0.0
    ensures Sum(t, OffXX(mx)) == 0.0 <==> forall p :: p in t ==> p.x == mx
  {
    var f := OffXX(mx);
    forall p | p in t
      ensures f(p) >= 0.0 && (f(p) == 0.0 <==> p.x == mx)
    {
      SquareSign(p.w, p.x - mx);
    }
    SumSign(t, f);
  }

  lemma Balanced(t: seq<Term>)
    requires Weighted(t) && t != []
    ensures Sum(t, W()) > 0.0 && Sum(t, OffX(MeanX(SumOver(t)))) == 0.0
  {
    TotalPositive(t);
    SumIsLinear(t);
    MeansBalance(SumOver(t));
  }

  /** With all x above, or all below, a centre the sum does not balance there. */
  lemma OneSided(t: seq<Term>, mx: real)
    requires Weighted(t) && Sum(t, OffX(mx)) == 0.0
    ensures (forall p :: p in t ==> p.x >= mx) ==> forall p :: p in t ==> p.x == mx
    ensures (forall p :: p in t ==> p.x <= mx) ==> forall p :: p in t ==> p.x == mx
  {
    var f := OffX(mx);
    var g := (p: Term) => -f(p);
    forall p | p in t
      ensures (p.x >= mx <==> f(p) >= 0.0) && (p.x <= mx <==> f(p) <= 0.0)
    {
      Product(p.w, p.x - mx);
      Product(p.w, mx - p.x);
      assert p.w * (mx - p.x) == -(p.w * (p.x - mx));
    }
    if forall p :: p in t ==> p.x >= mx {
      SumSign(t, f);
    }
    if forall p :: p in t ==> p.x <= mx {
      SumSign(t, g);
      NegatedSum(t, f, g);
    }
  }

  lemma {:induction false} NegatedSum(t: seq<Term>, f: Term -> real, g: Term -> real)
    requires forall p :: g(p) == -f(p)
    ensures Sum(t, g) == -Sum(t, f)
  {
    if t != [] {
      NegatedSum(t[..|t| - 1], f, g);
    }
  }

  /** The denominator of the fit is positive unless all x coincide. */
  lemma DenominatorSign(t: seq<Term>)
    requires Weighted(t) && t != []
    ensures Sum(t, W()) > 0.0 && Denominator(SumOver(t)) >= 0.0
    ensures Denominator(SumOver(t)) == 0.0 <==> SameX(t)
  {
    Balanced(t);
    var mx := MeanX(SumOver(t));
    SpreadSign(t, mx);
    if SameX(t) {
      OneSided(t, mx);
      assert forall p :: p in t ==> p.x == t[0].x;
    }
  }

  // ----- rising points have a rising line -----

  ghost predicate Rising(t: seq<Term>) {
    forall i, j :: 0 <= i < j < |t| ==> t[i].x < t[j].x && t[i].y < t[j].y
  }

  lemma ProductMoved(w: real, dx: real, y: real, my: real, c: real)
    ensures w * (dx * (y - my)) == w * (dx * (y - c)) + (c - my) * (w * dx)
  {
    assert dx * (y - my) == dx * (y - c) + (c - my) * dx;
  }

  lemma CrossMoved(s: Functional, mx: real, my: real, c: real)
    requires Linear(s) && s(OffX(mx)) == 0.0
    ensures s(OffXY(mx, my)) == s(OffXY(mx, c))
  {
    assert Combines(OffXY(mx, my), OffXY(mx, c), OffX(mx), W(), W(), c - my, 0.0, 0.0) by {
      forall p: Term
        ensures OffXY(mx, my)(p) == OffXY(mx, c)(p) + (c - my) * OffX(mx)(p) + 0.0 * W()(p) + 0.0 * W()(p)
      {
        ProductMoved(p.w, p.x - mx, p.y, my, c);
      }
    }
  }

  /** The last point not right of the centre; there is one to its right. */
  lemma {:induction false} Crossing(t: seq<Term>, mx: real) returns (k: nat)
    requires Rising(t) && |t| >= 2 && t[0].x <= mx < t[|t| - 1].x
    ensures k < |t| - 1 && t[k].x <= mx < t[k + 1].x
  {
    k := 0;
    while t[k + 1].x <= mx
      invariant k < |t| - 1 && t[k].x <= mx
      decreases |t| - k
    {
      k := k + 1;
    }
  }

  lemma OneSign(w: real, dx: real, dy: real)
    requires w > 0.0 && ((dx <= 0.0 && dy <= 0.0) || (dx > 0.0 && dy > 0.0))
    ensures w * (dx * dy) >= 0.0
    ensures dx > 0.0 ==> w * (dx * dy) > 0.0
  {
    Product(dx, dy);
    Product(w, dx * dy);
  }

  lemma CrossPositive(t: seq<Term>, mx: real, k: nat)
    requires Weighted(t) && Rising(t) && k < |t| - 1 && t[k].x <= mx < t[k + 1].x
    ensures Sum(t, OffXY(mx, t[k].y)) > 0.0
  {
    var f := OffXY(mx, t[k].y);
    forall p | p in t
      ensures f(p) >= 0.0 && (p.x > mx ==> f(p) > 0.0)
    {
      var i :| 0 <= i < |t| && t[i] == p;
      if i <= k {
        assert p.x <= t[k].x && p.y <= t[k].y;
      } else {
        assert p.x >= t[k + 1].x && p.y > t[k].y;
      }
      OneSign(p.w, p.x - mx, p.y - t[k].y);
    }
    SumSign(t, f);
    assert t[k + 1] in t;
  }

  /** Points that rise in both coordinates have a positive numerator. */
  lemma NumeratorPositive(t: seq<Term>)
    requires Weighted(t) && Rising(t) && |t| >= 2
    ensures Sum(t, W()) > 0.0 && Numerator(SumOver(t)) > 0.0
  {
    Balanced(t);
    var mx, n := MeanX(SumOver(t)), |t| - 1;
    OneSided(t, mx);
    assert t[0] in t && t[n] in t && t[0].x < t[n].x;
    assert forall p :: p in t ==> t[0].x <= p.x <= t[n].x;
    var k := Crossing(t, mx);
    CrossPositive(t, mx, k);
    SumIsLinear(t);
    CrossMoved(SumOver(t), mx, MeanY(SumOver(t)), t[k].y);
  }

  // ----- the best line -----

  lemma FlatLine(d: Line, x: real, x': real)
    requires d != Line(0.0, 0.0) && x != x'
    ensures d.slope * x + d.intercept != 0.0 || d.slope * x' + d.intercept != 0.0
  {
    if d.slope * x == d.slope * x' {
      assert d.slope * (x - x') == 0.0;
      Product(d.slope, x - x');
    }
  }

  lemma HeightSign(t: seq<Term>, d: Line, p: Term)
    requires Weighted(t) && p in t && d.slope * p.x + d.intercept != 0.0
    ensures Sum(t, HeightSquared(d)) > 0.0
  {
    var f := HeightSquared(d);
    forall z | z in t
      ensures f(z) >= 0.0
    {
      SquareSign(z.w, d.slope * z.x + d.intercept);
    }
    assert f(p) > 0.0 by {
      SquareSign(p.w, d.slope * p.x + d.intercept);
    }
    SumSign(t, f);
  }

  /** No line but the zero line vanishes at two places. */
  lemma HeightPositive(t: seq<Term>, d: Line, p: Term, q: Term)
    requires Weighted(t) && p in t && q in t && p.x != q.x && d != Line(0.0, 0.0)
    ensures Sum(t, HeightSquared(d)) > 0.0
  {
    FlatLine(d, p.x, q.x);
    if d.slope * p.x + d.intercept != 0.0 {
      HeightSign(t, d, p);
    } else {
      HeightSign(t, d, q);
    }
  }

  /** The weighted sum of squared residuals, which a fit is to make smallest. */
  function SquaredError(t: seq<Term>, l: Line): real { Sum(t, ResidualSquared(l)) }

  /** Every other line has a larger weighted squared error. */
  lemma FitLineIsBest(t: seq<Term>, other: Line)
    requires Weighted(t) && t != [] && !SameX(t)
    ensures Sum(t, W()) > 0.0 && Denominator(SumOver(t)) > 0.0
    ensures other != FitLine(SumOver(t)) ==> SquaredError(t, FitLine(SumOver(t))) < SquaredError(t, other)
  {
    DenominatorSign(t);
    SumIsLinear(t);
    var l := FitLine(SumOver(t));
    NormalEquations(SumOver(t));
    BalancedMove(SumOver(t), l, other);
    if other != l {
      var p, q :| p in t && q in t && p.x != q.x;
      HeightPositive(t, Line(other.slope - l.slope, other.intercept - l.intercept), p, q);
    }
  }
}
