/** The closed-form ordinary least-squares fit, recomputed from the whole point list. */
module LeastSquares {
  import opened Geometry

  /** Why the closed form yields no finite line. */
  datatype FitError =
    | NoPoints      // the empty list has no x column to take
    | ZeroVariance  // all x are equal, so the slope divides by a zero denominator

  datatype FitResult = Fitted(line: Line) | Failed(error: FitError)

  /** Σ f(p) over the points, in list order. */
  function Sum(d: seq<Point>, f: Point -> real): real {
    if d == [] then 0.0 else f(d[0]) + Sum(d[1..], f)
  }

  function Abscissa(p: Point): real { p.x }

  function Ordinate(p: Point): real { p.y }

  function One(p: Point): real { 1.0 }

  function XDeviation(mx: real): Point -> real {
    (p: Point) => p.x - mx
  }

  function YDeviation(my: real): Point -> real {
    (p: Point) => p.y - my
  }

  function XDeviationSquared(mx: real): Point -> real {
    (p: Point) => Square(p.x - mx)
  }

  function CrossDeviation(mx: real, my: real): Point -> real {
    (p: Point) => (p.x - mx) * (p.y - my)
  }

  function ResidualOf(l: Line): Point -> real {
    (p: Point) => Residual(l, p)
  }

  function SquaredResidual(l: Line): Point -> real {
    (p: Point) => Square(Residual(l, p))
  }

  function MeanX(d: seq<Point>): real
    requires |d| > 0
  {
    Sum(d, Abscissa) / |d| as real
  }

  function MeanY(d: seq<Point>): real
    requires |d| > 0
  {
    Sum(d, Ordinate) / |d| as real
  }

  /** Σ (x - mx)², the denominator of the slope. */
  function Sxx(d: seq<Point>, mx: real): real {
    Sum(d, XDeviationSquared(mx))
  }

  /** Σ (x - mx)(y - my), the numerator of the slope. */
  function Sxy(d: seq<Point>, mx: real, my: real): real {
    Sum(d, CrossDeviation(mx, my))
  }

  /** Σ (y - (m*x + b))², the squared error of line l on the points. */
  function SquaredError(d: seq<Point>, l: Line): real {
    Sum(d, SquaredResidual(l))
  }

  /** All x-coordinates are equal. */
  predicate SameX(d: seq<Point>) {
    forall i :: 0 <= i < |d| ==> d[i].x == d[0].x
  }

  /** The least-squares line: slope Sxy/Sxx about the means, intercept through the mean point.
      Where the source computes a non-finite slope, or fails on an empty list, the result is Failed. */
  function Fit(d: seq<Point>): (r: FitResult)
    ensures r == Failed(NoPoints) <==> |d| == 0
    ensures r == Failed(ZeroVariance) <==> |d| > 0 && SameX(d)
    ensures r.Fitted? ==> |d| > 0 && Predict(r.line, MeanX(d)) == MeanY(d)
  {
    if |d| == 0 then Failed(NoPoints)
    else
      var xMean := MeanX(d);
      var yMean := MeanY(d);
      var numerator := Sxy(d, xMean, yMean);
      var denominator := Sxx(d, xMean);
      ZeroVarianceIffSameX(d);
      if denominator == 0.0 then Failed(ZeroVariance)
      else
        var m := numerator / denominator;
        InterceptThroughPoint(m, xMean, yMean);
        Fitted(Line(m, yMean - m * xMean))
  }

  /** The intercept y - m*x puts the point (x, y) on the line of slope m. */
  lemma InterceptThroughPoint(m: real, x: real, y: real)
    ensures Predict(Line(m, y - m * x), x) == y
  {
  }

  // ----- Sums over the point list -----

  /** a·x + b·y + c·z. */
  function Combo(a: real, x: real, b: real, y: real, c: real, z: real): real {
    a * x + b * y + c * z
  }

  /** Pointwise, f is the combination a·g + b·h + c·j. */
  ghost predicate Combines(f: Point -> real, g: Point -> real, h: Point -> real, j: Point -> real,
                     a: real, b: real, c: real)
  {
    forall p: Point :: f(p) == Combo(a, g(p), b, h(p), c, j(p))
  }

  /** Sums are linear in the summed term. */
  lemma {:induction false} SumLinear(d: seq<Point>, f: Point -> real, g: Point -> real,
                                     h: Point -> real, j: Point -> real, a: real, b: real, c: real)
    requires Combines(f, g, h, j, a, b, c)
    ensures Sum(d, f) == Combo(a, Sum(d, g), b, Sum(d, h), c, Sum(d, j))
  {
    if d != [] {
      SumLinear(d[1..], f, g, h, j, a, b, c);
      assert f(d[0]) == Combo(a, g(d[0]), b, h(d[0]), c, j(d[0]));
    }
  }

  lemma {:induction false} SumConstant(d: seq<Point>, f: Point -> real, c: real)
    requires forall i :: 0 <= i < |d| ==> f(d[i]) == c
    ensures Sum(d, f) == |d| as real * c
  {
    if d != [] {
      forall i | 0 <= i < |d[1..]|
        ensures f(d[1..][i]) == c
      {
        assert d[1..][i] == d[i + 1];
      }
      SumConstant(d[1..], f, c);
    }
  }

  /** A sum of non-negative terms is non-negative, and zero exactly when every term is. */
  lemma {:induction false} SumNonnegative(d: seq<Point>, f: Point -> real)
    requires forall i :: 0 <= i < |d| ==> f(d[i]) >= 0.0
    ensures Sum(d, f) >= 0.0
    ensures Sum(d, f) == 0.0 <==> forall i :: 0 <= i < |d| ==> f(d[i]) == 0.0
  {
    if d != [] {
      var t := d[1..];
      forall i | 0 <= i < |t|
        ensures f(t[i]) >= 0.0
      {
        assert t[i] == d[i + 1];
      }
      SumNonnegative(t, f);
      if Sum(d, f) == 0.0 {
        forall i | 0 <= i < |d|
          ensures f(d[i]) == 0.0
        {
          if i > 0 { assert d[i] == t[i - 1]; }
        }
      }
      if forall i :: 0 <= i < |d| ==> f(d[i]) == 0.0 {
        forall i | 0 <= i < |t|
          ensures f(t[i]) == 0.0
        {
          assert t[i] == d[i + 1];
        }
      }
    }
  }

  // ----- Real arithmetic -----

  lemma ProductNonnegative(a: real, s: real)
    requires a >= 0.0 && s >= 0.0
    ensures a * s >= 0.0
  {
  }

  /** Two squares with positive weights: their weighted sum is non-negative, and at most
      zero only if both squared values vanish. */
  lemma WeightedSquares(a: real, u: real, c: real, v: real)
    requires a > 0.0 && c > 0.0
    ensures a * Square(u) + c * Square(v) >= 0.0
    ensures a * Square(u) + c * Square(v) <= 0.0 ==> u == 0.0 && v == 0.0
  {
    ProductNonnegative(a, Square(u));
    ProductNonnegative(c, Square(v));
    if a * Square(u) + c * Square(v) <= 0.0 {
      ProductZero(a, Square(u));
      ProductZero(c, Square(v));
    }
  }

  /** An error that exceeds another by two positively weighted squares, yet is no larger,
      leaves both squared values zero. */
  lemma NoExcess(el: real, ef: real, a: real, u: real, c: real, v: real)
    requires a > 0.0 && c > 0.0
    requires el == ef + a * Square(u) + c * Square(v)
    requires el <= ef
    ensures u == 0.0 && v == 0.0
  {
    WeightedSquares(a, u, c, v);
  }

  lemma TimesQuotient(a: real, n: real)
    requires n != 0.0
    ensures n * (a / n) == a
  {
  }

  /** t = a·x + b·y + c·z vanishes once each summand does. */
  lemma CombinationZero(t: real, a: real, x: real, b: real, y: real, c: real, z: real)
    requires t == Combo(a, x, b, y, c, z)
    requires x == 0.0 || a == 0.0
    requires y == 0.0 || b == 0.0
    requires z == 0.0 || c == 0.0
    ensures t == 0.0
  {
  }

  /** With m·sxx = sxy, the combination sxy - m·sxx (plus nothing of o) vanishes. */
  lemma SlopeCombinationZero(t: real, sxy: real, m: real, sxx: real, o: real)
    requires t == Combo(1.0, sxy, -m, sxx, 0.0, o)
    requires m * sxx == sxy
    ensures t == 0.0
  {
  }

  /** For a line through (mx, my), the residual in centred coordinates. */
  lemma CenteredResidual(x: real, y: real, m: real, b: real, mx: real, my: real)
    requires b == my - m * mx
    ensures y - (m * x + b) == (y - my) - m * (x - mx)
    ensures ((y - my) - m * (x - mx)) * (x - mx) == (x - mx) * (y - my) - m * Square(x - mx)
  {
    SquareIsProduct(x - mx);
  }

  /** The residual of line (lm, lb) against that of (fm, fb), which passes through (mx, my). */
  lemma ResidualShift(x: real, y: real, fm: real, fb: real, lm: real, lb: real, mx: real, my: real)
    requires fb == my - fm * mx
    ensures y - (lm * x + lb) == (y - (fm * x + fb)) + (my - (lm * mx + lb)) - (lm - fm) * (x - mx)
  {
  }

  /** rl² - rf² for rl = rf + k - dm·u, expanded. */
  lemma GapIdentity(rl: real, rf: real, u: real, k: real, dm: real)
    requires rl == rf + k - dm * u
    ensures Square(rl) - Square(rf)
         == Square(k) * 1.0 + Square(dm) * Square(u)
          + 1.0 * ((-2.0 * k * dm) * u + (2.0 * k) * rf + (-2.0 * dm) * (rf * u))
  {
    SquareIsProduct(rl);
    SquareIsProduct(rf);
    SquareIsProduct(k);
    SquareIsProduct(dm);
    SquareIsProduct(u);
  }

  /** GapIdentity for the residuals rl of line (lm, lb) and rf of line (fm, fb), the latter
      through (mx, my). */
  lemma ResidualGap(x: real, y: real, fm: real, fb: real, lm: real, lb: real, mx: real, my: real,
                    rl: real, rf: real, k: real, dm: real, u: real)
    requires fb == my - fm * mx
    requires rl == y - (lm * x + lb) && rf == y - (fm * x + fb)
    requires k == my - (lm * mx + lb) && dm == lm - fm && u == x - mx
    ensures Square(rl) - Square(rf)
            == Square(k) * 1.0 + Square(dm) * Square(u)
             + 1.0 * ((-2.0 * k * dm) * u + (2.0 * k) * rf + (-2.0 * dm) * (rf * u))
  {
    ResidualShift(x, y, fm, fb, lm, lb, mx, my);
    GapIdentity(rl, rf, u, k, dm);
  }

  /** The sums behind the decomposition, combined. */
  lemma DecompositionArithmetic(el: real, ef: real, gap: real, o: real, sk: real, n: real,
                                sdm: real, sxx: real)
    requires el == Combo(1.0, ef, 1.0, gap, 0.0, o)
    requires gap == sk * n + sdm * sxx
    ensures el == ef + sxx * sdm + n * sk
  {
  }

  // ----- The denominator -----

  /** The denominator of the slope vanishes exactly when all x-coordinates are equal. */
  lemma ZeroVarianceIffSameX(d: seq<Point>)
    requires |d| > 0
    ensures Sxx(d, MeanX(d)) >= 0.0
    ensures Sxx(d, MeanX(d)) == 0.0 <==> SameX(d)
  {
    var mx := MeanX(d);
    forall i | 0 <= i < |d|
      ensures XDeviationSquared(mx)(d[i]) >= 0.0
      ensures XDeviationSquared(mx)(d[i]) == 0.0 <==> d[i].x == mx
    {
    }
    SumNonnegative(d, XDeviationSquared(mx));
    if SameX(d) {
      SumConstant(d, Abscissa, d[0].x);
      assert mx == d[0].x;
    }
  }

  // ----- The squared error -----

  /** The squared error is never negative, and zero exactly for a line through every point. */
  lemma SquaredErrorZeroIff(d: seq<Point>, l: Line)
    ensures SquaredError(d, l) >= 0.0
    ensures SquaredError(d, l) == 0.0 <==> OnLine(d, l)
  {
    forall i | 0 <= i < |d|
      ensures SquaredResidual(l)(d[i]) >= 0.0
      ensures SquaredResidual(l)(d[i]) == 0.0 <==> Residual(l, d[i]) == 0.0
    {
    }
    SumNonnegative(d, SquaredResidual(l));
  }

  /** Deviations from the means sum to zero. */
  lemma CenteredSums(d: seq<Point>)
    requires |d| > 0
    ensures Sum(d, XDeviation(MeanX(d))) == 0.0
    ensures Sum(d, YDeviation(MeanY(d))) == 0.0
  {
    var n := |d| as real;
    var mx, my := MeanX(d), MeanY(d);
    SumConstant(d, One, 1.0);
    SumLinear(d, XDeviation(mx), Abscissa, One, One, 1.0, -mx, 0.0);
    SumLinear(d, YDeviation(my), Ordinate, One, One, 1.0, -my, 0.0);
    TimesQuotient(Sum(d, Abscissa), n);
    TimesQuotient(Sum(d, Ordinate), n);
  }

  /** What the least-squares line satisfies: a positive denominator, the slope equation
      m·Sxx = Sxy, and the mean point on the line. */
  lemma FittedLine(d: seq<Point>)
    requires Fit(d).Fitted?
    ensures |d| > 0 && Sxx(d, MeanX(d)) > 0.0
    ensures Fit(d).line.m * Sxx(d, MeanX(d)) == Sxy(d, MeanX(d), MeanY(d))
    ensures Fit(d).line.b == MeanY(d) - Fit(d).line.m * MeanX(d)
  {
    ZeroVarianceIffSameX(d);
    var sxx, sxy := Sxx(d, MeanX(d)), Sxy(d, MeanX(d), MeanY(d));
    assert Fit(d).line.m == sxy / sxx;
    TimesQuotient(sxy, sxx);
  }

  // ----- Optimality -----

  function ResidualTimesXDeviation(f: Line, mx: real): Point -> real {
    (p: Point) => Residual(f, p) * (p.x - mx)
  }

  /** The terms of r_l² - r_f² that sum to zero about the means, for r_l = r_f + k - dm·(x - mx). */
  function CrossTerms(f: Line, mx: real, k: real, dm: real): Point -> real {
    (p: Point) => (-2.0 * k * dm) * (p.x - mx) + (2.0 * k) * Residual(f, p)
                  + (-2.0 * dm) * (Residual(f, p) * (p.x - mx))
  }

  function SquaredResidualGap(l: Line, f: Line): Point -> real {
    (p: Point) => Square(Residual(l, p)) - Square(Residual(f, p))
  }

  /** For a line f through (mx, my), its residual is a combination of the centred terms. */
  lemma ResidualTerms(f: Line, mx: real, my: real)
    requires f.b == my - f.m * mx
    ensures Combines(ResidualOf(f), YDeviation(my), XDeviation(mx), One, 1.0, -f.m, 0.0)
  {
    forall p: Point
      ensures ResidualOf(f)(p) == Combo(1.0, YDeviation(my)(p), -f.m, XDeviation(mx)(p), 0.0, One(p))
    {
      CenteredResidual(p.x, p.y, f.m, f.b, mx, my);
    }
  }

  /** For a line f through (mx, my), its residual times x - mx is a combination of the centred terms. */
  lemma WeightedResidualTerms(f: Line, mx: real, my: real)
    requires f.b == my - f.m * mx
    ensures Combines(ResidualTimesXDeviation(f, mx), CrossDeviation(mx, my), XDeviationSquared(mx), One,
                     1.0, -f.m, 0.0)
  {
    forall p: Point
      ensures ResidualTimesXDeviation(f, mx)(p)
              == Combo(1.0, CrossDeviation(mx, my)(p), -f.m, XDeviationSquared(mx)(p), 0.0, One(p))
    {
      WeightedResidualTerm(f, mx, my, p);
    }
  }

  lemma WeightedResidualTerm(f: Line, mx: real, my: real, p: Point)
    requires f.b == my - f.m * mx
    ensures ResidualTimesXDeviation(f, mx)(p)
            == Combo(1.0, CrossDeviation(mx, my)(p), -f.m, XDeviationSquared(mx)(p), 0.0, One(p))
  {
    CenteredResidual(p.x, p.y, f.m, f.b, mx, my);
  }

  lemma CrossTermsSplit(f: Line, mx: real, k: real, dm: real)
    ensures Combines(CrossTerms(f, mx, k, dm), XDeviation(mx), ResidualOf(f), ResidualTimesXDeviation(f, mx),
                     -2.0 * k * dm, 2.0 * k, -2.0 * dm)
  {
    forall p: Point
      ensures CrossTerms(f, mx, k, dm)(p)
              == Combo(-2.0 * k * dm, XDeviation(mx)(p), 2.0 * k, ResidualOf(f)(p),
                     -2.0 * dm, ResidualTimesXDeviation(f, mx)(p))
    {
      CrossTermParts(f, mx, k, dm, p);
    }
  }

  lemma CrossTermParts(f: Line, mx: real, k: real, dm: real, p: Point)
    ensures CrossTerms(f, mx, k, dm)(p)
            == Combo(-2.0 * k * dm, XDeviation(mx)(p), 2.0 * k, ResidualOf(f)(p),
                   -2.0 * dm, ResidualTimesXDeviation(f, mx)(p))
  {
    var u, r := XDeviation(mx)(p), ResidualOf(f)(p);
    assert ResidualTimesXDeviation(f, mx)(p) == r * u;
    assert CrossTerms(f, mx, k, dm)(p) == (-2.0 * k * dm) * u + (2.0 * k) * r + (-2.0 * dm) * (r * u);
    assert Combo(-2.0 * k * dm, u, 2.0 * k, r, -2.0 * dm, r * u)
        == (-2.0 * k * dm) * u + (2.0 * k) * r + (-2.0 * dm) * (r * u);
  }

  /** For f through (mx, my) and any line l: the gap between the squared residuals of l and f
      splits into k², dm²·(x - mx)² and the cross terms. */
  lemma GapTerms(l: Line, f: Line, mx: real, my: real, k: real, dm: real)
    requires f.b == my - f.m * mx
    requires dm == l.m - f.m && k == my - Predict(l, mx)
    ensures Combines(SquaredResidualGap(l, f), One, XDeviationSquared(mx), CrossTerms(f, mx, k, dm),
                     Square(k), Square(dm), 1.0)
  {
    forall p: Point
      ensures SquaredResidualGap(l, f)(p)
              == Combo(Square(k), One(p), Square(dm), XDeviationSquared(mx)(p), 1.0, CrossTerms(f, mx, k, dm)(p))
    {
      GapTerm(l, f, mx, my, k, dm, p);
    }
  }

  lemma GapTerm(l: Line, f: Line, mx: real, my: real, k: real, dm: real, p: Point)
    requires f.b == my - f.m * mx
    requires dm == l.m - f.m && k == my - Predict(l, mx)
    ensures SquaredResidualGap(l, f)(p)
            == Combo(Square(k), One(p), Square(dm), XDeviationSquared(mx)(p), 1.0, CrossTerms(f, mx, k, dm)(p))
  {
    var u := p.x - mx;
    ResidualGap(p.x, p.y, f.m, f.b, l.m, l.b, mx, my, Residual(l, p), Residual(f, p), k, dm, u);
    GapTermParts(l, f, mx, k, dm, u, p);
  }

  lemma GapTermParts(l: Line, f: Line, mx: real, k: real, dm: real, u: real, p: Point)
    requires u == p.x - mx
    ensures SquaredResidualGap(l, f)(p) == Square(Residual(l, p)) - Square(Residual(f, p))
    ensures XDeviationSquared(mx)(p) == Square(u)
    ensures One(p) == 1.0
    ensures CrossTerms(f, mx, k, dm)(p)
            == (-2.0 * k * dm) * u + (2.0 * k) * Residual(f, p) + (-2.0 * dm) * (Residual(f, p) * u)
  {
  }

  lemma GapSplit(l: Line, f: Line)
    ensures Combines(SquaredResidual(l), SquaredResidual(f), SquaredResidualGap(l, f), One, 1.0, 1.0, 0.0)
  {
  }

  /** About the means, the residuals of a line through the mean point sum to zero. */
  lemma ResidualSum(d: seq<Point>, f: Line, mx: real, my: real)
    requires Sum(d, XDeviation(mx)) == 0.0 && Sum(d, YDeviation(my)) == 0.0
    requires f.b == my - f.m * mx
    ensures Sum(d, ResidualOf(f)) == 0.0
  {
    ResidualTerms(f, mx, my);
    SumLinear(d, ResidualOf(f), YDeviation(my), XDeviation(mx), One, 1.0, -f.m, 0.0);
    CombinationZero(Sum(d, ResidualOf(f)), 1.0, Sum(d, YDeviation(my)), -f.m, Sum(d, XDeviation(mx)),
                    0.0, Sum(d, One));
  }

  /** For a line through the mean point with m·Sxx = Sxy, the residuals weighted by x - mx
      sum to zero. */
  lemma WeightedResidualSum(d: seq<Point>, f: Line, mx: real, my: real)
    requires f.m * Sxx(d, mx) == Sxy(d, mx, my) && f.b == my - f.m * mx
    ensures Sum(d, ResidualTimesXDeviation(f, mx)) == 0.0
  {
    WeightedResidualCombination(d, f, mx, my);
    SlopeCombinationZero(Sum(d, ResidualTimesXDeviation(f, mx)), Sxy(d, mx, my), f.m, Sxx(d, mx), Sum(d, One));
  }

  lemma WeightedResidualCombination(d: seq<Point>, f: Line, mx: real, my: real)
    requires f.b == my - f.m * mx
    ensures Sum(d, ResidualTimesXDeviation(f, mx)) == Combo(1.0, Sxy(d, mx, my), -f.m, Sxx(d, mx), 0.0, Sum(d, One))
  {
    WeightedResidualTerms(f, mx, my);
    SumLinear(d, ResidualTimesXDeviation(f, mx), CrossDeviation(mx, my), XDeviationSquared(mx), One,
              1.0, -f.m, 0.0);
  }

  /** About the means of the points, the cross terms of the gap sum to zero. */
  lemma CrossTermsVanish(d: seq<Point>, f: Line, mx: real, my: real, k: real, dm: real)
    requires Sum(d, XDeviation(mx)) == 0.0 && Sum(d, YDeviation(my)) == 0.0
    requires f.m * Sxx(d, mx) == Sxy(d, mx, my) && f.b == my - f.m * mx
    ensures Sum(d, CrossTerms(f, mx, k, dm)) == 0.0
  {
    ResidualSum(d, f, mx, my);
    WeightedResidualSum(d, f, mx, my);
    CrossTermsSplit(f, mx, k, dm);
    SumLinear(d, CrossTerms(f, mx, k, dm), XDeviation(mx), ResidualOf(f), ResidualTimesXDeviation(f, mx),
              -2.0 * k * dm, 2.0 * k, -2.0 * dm);
    CombinationZero(Sum(d, CrossTerms(f, mx, k, dm)), -2.0 * k * dm, Sum(d, XDeviation(mx)),
                    2.0 * k, Sum(d, ResidualOf(f)), -2.0 * dm, Sum(d, ResidualTimesXDeviation(f, mx)));
  }

  /** About the means, the gap between the squared residuals of a line l and of the fitted
      line f sums to n·k² + Sxx·dm². */
  lemma GapSum(d: seq<Point>, l: Line, f: Line, mx: real, my: real, k: real, dm: real)
    requires Sum(d, XDeviation(mx)) == 0.0 && Sum(d, YDeviation(my)) == 0.0
    requires f.m * Sxx(d, mx) == Sxy(d, mx, my) && f.b == my - f.m * mx
    requires dm == l.m - f.m && k == my - Predict(l, mx)
    ensures Sum(d, SquaredResidualGap(l, f)) == Square(k) * |d| as real + Square(dm) * Sxx(d, mx)
  {
    CrossTermsVanish(d, f, mx, my, k, dm);
    SumConstant(d, One, 1.0);
    GapTerms(l, f, mx, my, k, dm);
    SumLinear(d, SquaredResidualGap(l, f), One, XDeviationSquared(mx), CrossTerms(f, mx, k, dm),
              Square(k), Square(dm), 1.0);
    GapArithmetic(Sum(d, SquaredResidualGap(l, f)), Square(k), Sum(d, One), |d| as real, Square(dm), Sxx(d, mx),
                  Sum(d, CrossTerms(f, mx, k, dm)));
  }

  lemma GapArithmetic(gap: real, sk: real, o: real, n: real, sdm: real, sxx: real, cross: real)
    requires gap == Combo(sk, o, sdm, sxx, 1.0, cross)
    requires o == n * 1.0 && cross == 0.0
    ensures gap == sk * n + sdm * sxx
  {
  }

  /** The squared error of any line l exceeds that of the least-squares line f by
      Sxx·(l.m - f.m)² plus n·k², where k is how far l passes from the mean point. */
  lemma Decomposition(d: seq<Point>, l: Line)
    requires Fit(d).Fitted?
    ensures var f := Fit(d).line;
      var k := MeanY(d) - Predict(l, MeanX(d));
      SquaredError(d, l)
        == SquaredError(d, f)
         + Sxx(d, MeanX(d)) * Square(l.m - f.m)
         + |d| as real * Square(k)
  {
    var f := Fit(d).line;
    var mx, my := MeanX(d), MeanY(d);
    FittedLine(d);
    CenteredSums(d);
    ErrorDecomposition(d, l, f, mx, my, my - Predict(l, mx), l.m - f.m);
  }

  /** The decomposition about any point (mx, my) of the points' centre, for a line f through
      it that solves the slope equation. */
  lemma ErrorDecomposition(d: seq<Point>, l: Line, f: Line, mx: real, my: real, k: real, dm: real)
    requires Sum(d, XDeviation(mx)) == 0.0 && Sum(d, YDeviation(my)) == 0.0
    requires f.m * Sxx(d, mx) == Sxy(d, mx, my) && f.b == my - f.m * mx
    requires dm == l.m - f.m && k == my - Predict(l, mx)
    ensures SquaredError(d, l) == SquaredError(d, f) + Sxx(d, mx) * Square(dm) + |d| as real * Square(k)
  {
    GapSum(d, l, f, mx, my, k, dm);
    GapSplit(l, f);
    SumLinear(d, SquaredResidual(l), SquaredResidual(f), SquaredResidualGap(l, f), One, 1.0, 1.0, 0.0);
    DecompositionArithmetic(SquaredError(d, l), SquaredError(d, f), Sum(d, SquaredResidualGap(l, f)),
                            Sum(d, One), Square(k), |d| as real, Square(dm), Sxx(d, mx));
  }

  /** No line has a smaller squared error than the least-squares line. */
  lemma FitMinimizesSquaredError(d: seq<Point>, l: Line)
    requires Fit(d).Fitted?
    ensures SquaredError(d, Fit(d).line) <= SquaredError(d, l)
  {
    var f := Fit(d).line;
    var k := MeanY(d) - Predict(l, MeanX(d));
    var dm := l.m - f.m;
    Decomposition(d, l);
    FittedLine(d);
    WeightedSquares(Sxx(d, MeanX(d)), dm, |d| as real, k);
  }

  /** The least-squares line is the only line that attains the least squared error. */
  lemma FitUniqueMinimizer(d: seq<Point>, l: Line)
    requires Fit(d).Fitted?
    ensures SquaredError(d, l) <= SquaredError(d, Fit(d).line) <==> l == Fit(d).line
  {
    var f := Fit(d).line;
    if SquaredError(d, l) <= SquaredError(d, f) {
      var mx, my := MeanX(d), MeanY(d);
      var k := my - Predict(l, mx);
      var dm := l.m - f.m;
      Decomposition(d, l);
      FittedLine(d);
      NoExcess(SquaredError(d, l), SquaredError(d, f), Sxx(d, mx), dm, |d| as real, k);
      LineThroughPoint(l, f, mx, my);
    }
  }

  /** A line with the slope of f through a point (mx, my) of f is f itself. */
  lemma LineThroughPoint(l: Line, f: Line, mx: real, my: real)
    requires l.m - f.m == 0.0 && my - Predict(l, mx) == 0.0
    requires Predict(f, mx) == my
    ensures l == f
  {
  }

  /** Points lying exactly on a line whose x-coordinates are not all equal give back exactly that line. */
  lemma FitRecoversExactLine(d: seq<Point>, l: Line)
    requires !SameX(d)
    requires OnLine(d, l)
    ensures Fit(d) == Fitted(l)
  {
    SquaredErrorZeroIff(d, l);
    SquaredErrorZeroIff(d, Fit(d).line);
    FitUniqueMinimizer(d, l);
  }
}
