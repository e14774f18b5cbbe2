/** The weighted straight-line fit of regress.c over the reals: a large w marks an unreliable point. */
module LeastSquares {

  datatype RawPoint = Point(x: real, y: real, w: real)

  type Point = p: RawPoint | p.w > 0.0 witness Point(0.0, 0.0, 1.0)

  // ---------- what one point adds to the sums of the fit ----------

  function Ratio(a: real, w: real): real
    requires w > 0.0
  {
    a / w
  }

  function Times(a: real, b: real): real { a * b }

  function ProductRatio(a: real, b: real, w: real): real
    requires w > 0.0
  {
    Ratio(Times(a, b), w)
  }

  function TermW(q: Point): real { Ratio(1.0, q.w) }
  function TermX(q: Point): real { Ratio(q.x, q.w) }
  function TermY(q: Point): real { Ratio(q.y, q.w) }
  function TermYY(q: Point): real { ProductRatio(q.y, q.y, q.w) }
  function TermZ(q: Point, u: real): real { Ratio(q.x - u, q.w) }
  function TermYZ(q: Point, u: real): real { ProductRatio(q.y, q.x - u, q.w) }
  function TermZZ(q: Point, u: real): real { ProductRatio(q.x - u, q.x - u, q.w) }

  // ---------- the sums of the fit ----------

  datatype Weights = Weights(U: real, W: real)

  /** Sums of x/w and 1/w. */
  function WeightSums(p: seq<Point>): Weights {
    if p == [] then Weights(0.0, 0.0)
    else
      var s, q := WeightSums(p[..|p| - 1]), p[|p| - 1];
      Weights(s.U + TermX(q), s.W + TermW(q))
  }

  datatype Centred = Centred(P: real, Q: real, V: real)

  /** Sums of y/w, y*(x-u)/w and (x-u)^2/w. */
  function CentredSums(p: seq<Point>, u: real): Centred {
    if p == [] then Centred(0.0, 0.0, 0.0)
    else
      var s, q := CentredSums(p[..|p| - 1], u), p[|p| - 1];
      Centred(s.P + TermY(q), s.Q + TermYZ(q, u), s.V + TermZZ(q, u))
  }

  // ---------- what a line is measured by ----------

  datatype Line = Line(b0: real, b1: real)

  function Residual(q: Point, b0: real, b1: real): real {
    q.y - b0 - b1 * q.x
  }

  function TermR(q: Point, l: Line): real { Ratio(Residual(q, l.b0, l.b1), q.w) }
  function TermXR(q: Point, l: Line): real { ProductRatio(q.x, Residual(q, l.b0, l.b1), q.w) }

  function TermError(q: Point, b0: real, b1: real): real {
    ProductRatio(Residual(q, b0, b1), Residual(q, b0, b1), q.w)
  }

  ghost function SquaredError(p: seq<Point>, b0: real, b1: real): real {
    if p == [] then 0.0
    else
      var q := p[|p| - 1];
      SquaredError(p[..|p| - 1], b0, b1) + TermError(q, b0, b1)
  }

  /** Sum of the weighted residuals. */
  ghost function ResidualSum(p: seq<Point>, l: Line): real {
    if p == [] then 0.0
    else ResidualSum(p[..|p| - 1], l) + TermR(p[|p| - 1], l)
  }

  /** Sum of the weighted residuals times x. */
  ghost function ResidualMoment(p: seq<Point>, l: Line): real {
    if p == [] then 0.0
    else ResidualMoment(p[..|p| - 1], l) + TermXR(p[|p| - 1], l)
  }

  ghost function SquaredY(p: seq<Point>): real {
    if p == [] then 0.0
    else SquaredY(p[..|p| - 1]) + TermYY(p[|p| - 1])
  }

  // ---------- algebra of one point ----------

  lemma Over(t: real, w: real)
    requires w > 0.0
    ensures t / w == t * (1.0 / w) && Ratio(t, w) == t * (1.0 / w)
  {
  }

  /** The squared error as a quadratic form in the height c at the centre and the slope b. */
  function Form(Y: real, P: real, Q: real, W: real, Z: real, V: real, c: real, b: real): real {
    Y - 2.0 * (c * P) - 2.0 * (b * Q) + c * c * W + 2.0 * (c * b * Z) + b * b * V
  }

  /** The weighted square of a residual about the centre; c is the line's height there and z the
      point's distance from it. */
  lemma ResidualSquare(r: real, y: real, z: real, w: real, c: real, b: real)
    requires r == y - c - b * z && w > 0.0
    ensures ProductRatio(r, r, w) ==
              Form(ProductRatio(y, y, w), Ratio(y, w), ProductRatio(y, z, w), Ratio(1.0, w), Ratio(z, w),
                   ProductRatio(z, z, w), c, b)
  {
    var g := 1.0 / w;
    ScaledSquare(r, y, z, g, c, b);
    hide Form;
    assert Ratio(1.0, w) == g;
    ProductOver(r, r, w);
    ProductOver(y, y, w);
    Over(y, w);
    ProductOver(y, z, w);
    Over(z, w);
    ProductOver(z, z, w);
    hide Ratio, ProductRatio;
  }

  lemma ProductOver(a: real, b: real, w: real)
    requires w > 0.0
    ensures ProductRatio(a, b, w) == a * b * (1.0 / w)
  {
    var t := a * b;
    Over(t, w);
    assert ProductRatio(a, b, w) == t / w;
  }

  lemma ScaledSquare(r: real, y: real, z: real, g: real, c: real, b: real)
    requires r == y - c - b * z
    ensures r * r * g == Form(y * y * g, y * g, y * z * g, g, z * g, z * z * g, c, b)
  {
    var yy, yz, zz := y * y, y * z, z * z;
    SquareOfResidual(r, y, z, c, b);
    Distribute(r * r, yy, c * y, b * yz, c * c, c * b * z, b * b * zz, g);
    Associate(c, y, g);
    Associate(b, yz, g);
    Associate(c * b, z, g);
    Associate(b * b, zz, g);
  }

  lemma SquareOfResidual(r: real, y: real, z: real, c: real, b: real)
    requires r == y - c - b * z
    ensures r * r == y * y - 2.0 * (c * y) - 2.0 * (b * (y * z)) + c * c + 2.0 * (c * b * z) + b * b * (z * z)
  {
    var k := b * z;
    SquareOfThree(r, y, c, k);
    assert y * k == b * (y * z);
    assert c * k == c * b * z;
    assert k * k == b * b * (z * z);
  }

  lemma SquareOfThree(r: real, y: real, c: real, k: real)
    requires r == y - c - k
    ensures r * r == y * y - 2.0 * (c * y) - 2.0 * (y * k) + c * c + 2.0 * (c * k) + k * k
  {
  }

  lemma Associate(k: real, t: real, g: real)
    ensures k * t * g == k * (t * g)
  {
  }

  lemma Distribute(R: real, t1: real, t2: real, t3: real, t4: real, t5: real, t6: real, g: real)
    requires R == t1 - 2.0 * t2 - 2.0 * t3 + t4 + 2.0 * t5 + t6
    ensures R * g == t1 * g - 2.0 * (t2 * g) - 2.0 * (t3 * g) + t4 * g + 2.0 * (t5 * g) + t6 * g
  {
  }

  lemma RatioSigns(z: real, w: real)
    requires w > 0.0
    ensures Ratio(1.0, w) > 0.0
    ensures ProductRatio(z, z, w) >= 0.0
    ensures z != 0.0 ==> ProductRatio(z, z, w) > 0.0
  {
    hide Ratio, Times;
    SquareSign(z);
    RatioSign(Times(z, z), w);
    RatioSign(1.0, w);
  }

  lemma SquareAtLeastZero(z: real)
    ensures z * z >= 0.0
  {
  }

  lemma ProductSign(z: real, y: real)
    requires z > 0.0 && y > 0.0
    ensures Times(z, y) > 0.0
  {
  }

  lemma SquareAboveZero(z: real)
    requires z != 0.0
    ensures Times(z, z) > 0.0
  {
    if z > 0.0 {
      ProductSign(z, z);
    } else {
      ProductSign(-z, -z);
      assert Times(-z, -z) == Times(z, z);
    }
  }

  lemma SquareSign(z: real)
    ensures Times(z, z) >= 0.0 && (z != 0.0 ==> Times(z, z) > 0.0)
  {
    SquareAtLeastZero(z);
    if z != 0.0 {
      SquareAboveZero(z);
    }
  }

  lemma RatioSign(t: real, w: real)
    requires w > 0.0
    ensures t > 0.0 ==> Ratio(t, w) > 0.0
    ensures t >= 0.0 ==> Ratio(t, w) >= 0.0
  {
  }

  lemma PositiveTerms(q: Point, u: real)
    ensures TermW(q) > 0.0 && TermZZ(q, u) >= 0.0 && (q.x != u ==> TermZZ(q, u) > 0.0)
  {
    hide Ratio, ProductRatio;
    RatioSigns(q.x - u, q.w);
  }

  /** Positive weights have a positive sum. */
  lemma {:induction false} WeightIsPositive(p: seq<Point>)
    ensures WeightSums(p).W >= 0.0 && (p != [] ==> WeightSums(p).W > 0.0)
  {
    hide TermW;
    if p != [] {
      WeightIsPositive(p[..|p| - 1]);
      PositiveTerms(p[|p| - 1], 0.0);
    }
  }

  /** V is zero only when every x equals the centre. */
  lemma {:induction false} SpreadIsPositive(p: seq<Point>, u: real)
    ensures CentredSums(p, u).V >= 0.0
    ensures forall i :: 0 <= i < |p| && p[i].x != u ==> CentredSums(p, u).V > 0.0
  {
    hide TermZZ;
    if p != [] {
      var n := |p| - 1;
      SpreadIsPositive(p[..n], u);
      PositiveTerms(p[n], u);
      forall i | 0 <= i < |p| && p[i].x != u ensures CentredSums(p, u).V > 0.0 {
        if i < n {
          assert p[..n][i].x != u;
        }
      }
    }
  }

  // ---------- the error of any line, in terms of the sums ----------

  lemma FormAdds(Y: real, P: real, Q: real, W: real, Z: real, V: real,
                 Y': real, P': real, Q': real, W': real, Z': real, V': real, c: real, b: real)
    ensures Form(Y + Y', P + P', Q + Q', W + W', Z + Z', V + V', c, b) ==
              Form(Y, P, Q, W, Z, V, c, b) + Form(Y', P', Q', W', Z', V', c, b)
  {
    assert c * (P + P') == c * P + c * P';
    assert b * (Q + Q') == b * Q + b * Q';
    assert (c * c) * (W + W') == (c * c) * W + (c * c) * W';
    assert (c * b) * (Z + Z') == (c * b) * Z + (c * b) * Z';
    assert (b * b) * (V + V') == (b * b) * V + (b * b) * V';
  }

  /** Sum of the deviations from u, (x-u)/w. */
  function Deviation(p: seq<Point>, u: real): real {
    if p == [] then 0.0 else Deviation(p[..|p| - 1], u) + TermZ(p[|p| - 1], u)
  }

  lemma DeviationOfPoint(q: Point, u: real)
    ensures TermZ(q, u) == TermX(q) - u * TermW(q)
  {
    Over(q.x - u, q.w);
    Over(q.x, q.w);
    assert (q.x - u) * TermW(q) == q.x * TermW(q) - u * TermW(q);
  }

  lemma Distributes(u: real, a: real, b: real)
    ensures u * (a + b) == u * a + u * b
  {
  }

  /** About the weighted mean the deviations cancel out. */
  lemma {:induction false} DeviationIsCentred(p: seq<Point>, u: real)
    ensures Deviation(p, u) == WeightSums(p).U - u * WeightSums(p).W
  {
    hide TermX, TermW, TermZ;
    if p != [] {
      var n := |p| - 1;
      DeviationIsCentred(p[..n], u);
      DeviationOfPoint(p[n], u);
      Distributes(u, WeightSums(p[..n]).W, TermW(p[n]));
    }
  }

  ghost function ErrorForm(p: seq<Point>, u: real, c: real, b: real): real {
    var t := CentredSums(p, u);
    Form(SquaredY(p), t.P, t.Q, WeightSums(p).W, Deviation(p, u), t.V, c, b)
  }

  lemma ErrorOfPoint(q: Point, u: real, c: real, b: real)
    ensures TermError(q, c - b * u, b) ==
              Form(TermYY(q), TermY(q), TermYZ(q, u), TermW(q), TermZ(q, u), TermZZ(q, u), c, b)
  {
    hide Form, Ratio, ProductRatio;
    var r := Residual(q, c - b * u, b);
    assert b * (q.x - u) == b * q.x - b * u;
    ResidualSquare(r, q.y, q.x - u, q.w, c, b);
  }

  lemma {:induction false} ErrorIsForm(p: seq<Point>, u: real, c: real, b: real)
    ensures SquaredError(p, c - b * u, b) == ErrorForm(p, u, c, b)
  {
    if p == [] {
      assert ErrorForm(p, u, c, b) == Form(0.0, 0.0, 0.0, 0.0, 0.0, 0.0, c, b) == 0.0;
    } else {
      hide Form, TermW, TermY, TermYY, TermZ, TermYZ, TermZZ, TermError;
      var n := |p| - 1;
      var q, s := p[n], p[..n];
      ErrorIsForm(s, u, c, b);
      ErrorOfPoint(q, u, c, b);
      var t := CentredSums(s, u);
      FormAdds(SquaredY(s), t.P, t.Q, WeightSums(s).W, Deviation(s, u), t.V,
               TermYY(q), TermY(q), TermYZ(q, u), TermW(q), TermZ(q, u), TermZZ(q, u), c, b);
    }
  }

  lemma ErrorOfLine(p: seq<Point>, u: real, b0: real, b1: real, c: real)
    requires c == b0 + b1 * u
    ensures SquaredError(p, b0, b1) == ErrorForm(p, u, c, b1)
  {
    ErrorIsForm(p, u, c, b1);
    assert b0 == c - b1 * u;
  }

  // ---------- the fitted line ----------

  predicate Fittable(p: seq<Point>) {
    exists i, j :: 0 <= i < j < |p| && p[i].x != p[j].x
  }

  lemma FitIsDefined(p: seq<Point>, u: real)
    requires Fittable(p)
    ensures WeightSums(p).W > 0.0 && CentredSums(p, u).V > 0.0
  {
    var i, j :| 0 <= i < j < |p| && p[i].x != p[j].x;
    WeightIsPositive(p);
    SpreadIsPositive(p, u);
    assert p[i].x != u || p[j].x != u;
  }

  function Mean(p: seq<Point>): real
    requires Fittable(p)
  {
    FitIsDefined(p, 0.0);
    WeightSums(p).U / WeightSums(p).W
  }

  /** RGR_WeightedRegression's slope and intercept. */
  function Fit(p: seq<Point>): Line
    requires Fittable(p)
  {
    var u := Mean(p);
    FitIsDefined(p, u);
    var t := CentredSums(p, u);
    var b1 := t.Q / t.V;
    Line(t.P / WeightSums(p).W - b1 * u, b1)
  }

  lemma CompleteSquare(P: real, W: real, c: real)
    requires W > 0.0
    ensures c * c * W - 2.0 * c * P == (c - P / W) * (c - P / W) * W - P * P / W
  {
    var m := P / W;
    assert m * W == P;
    assert P * P / W == m * m * W;
    assert (c - m) * (c - m) == c * c - 2.0 * c * m + m * m;
    assert (c * c - 2.0 * c * m + m * m) * W == c * c * W - 2.0 * c * (m * W) + m * m * W;
  }

  function Excess(d: real, w: real): real { d * d * w }

  /** With the centre at the mean, the form is least at cf = P/W and bf = Q/V. */
  lemma FormAboveLeast(Y: real, P: real, Q: real, W: real, Z: real, V: real, c: real, b: real, cf: real, bf: real)
    requires W > 0.0 && V > 0.0 && Z == 0.0 && cf == P / W && bf == Q / V
    ensures Form(Y, P, Q, W, Z, V, c, b) ==
              Form(Y, P, Q, W, Z, V, cf, bf) + Excess(c - cf, W) + Excess(b - bf, V)
  {
    CompleteSquare(P, W, c);
    CompleteSquare(P, W, cf);
    CompleteSquare(Q, V, b);
    CompleteSquare(Q, V, bf);
  }

  lemma MeanCancels(p: seq<Point>)
    requires Fittable(p)
    ensures Deviation(p, Mean(p)) == 0.0
  {
    DeviationIsCentred(p, Mean(p));
    FitIsDefined(p, 0.0);
    assert Mean(p) * WeightSums(p).W == WeightSums(p).U;
  }

  function Height(l: Line, x: real): real { l.b0 + l.b1 * x }

  lemma FitAtMean(p: seq<Point>, f: Line, u: real)
    requires Fittable(p) && f == Fit(p) && u == Mean(p)
    ensures WeightSums(p).W > 0.0 && CentredSums(p, u).V > 0.0
    ensures Height(f, u) == CentredSums(p, u).P / WeightSums(p).W
    ensures f.b1 == CentredSums(p, u).Q / CentredSums(p, u).V
  {
    FitIsDefined(p, u);
  }

  lemma ErrorOfHeight(p: seq<Point>, u: real, l: Line)
    ensures SquaredError(p, l.b0, l.b1) == ErrorForm(p, u, Height(l, u), l.b1)
  {
    ErrorOfLine(p, u, l.b0, l.b1, Height(l, u));
  }

  /** Any line's squared error exceeds the fitted one's by a square for the difference in height at
      the mean and a square for the difference in slope. */
  lemma ErrorAboveFit(p: seq<Point>, l: Line, f: Line, u: real)
    requires Fittable(p) && f == Fit(p) && u == Mean(p)
    ensures SquaredError(p, l.b0, l.b1) ==
              SquaredError(p, f.b0, f.b1)
              + Excess(Height(l, u) - Height(f, u), WeightSums(p).W)
              + Excess(l.b1 - f.b1, CentredSums(p, u).V)
  {
    FitAtMean(p, f, u);
    MeanCancels(p);
    ErrorOfHeight(p, u, l);
    ErrorOfHeight(p, u, f);
    hide Form, Excess, Height, Fit, Mean, SquaredError, CentredSums, WeightSums, Deviation, SquaredY;
    var t := CentredSums(p, u);
    FormAboveLeast(SquaredY(p), t.P, t.Q, WeightSums(p).W, Deviation(p, u), t.V,
                   Height(l, u), l.b1, Height(f, u), f.b1);
  }

  lemma ExcessSign(d: real, w: real)
    requires w > 0.0
    ensures Excess(d, w) >= 0.0 && (d != 0.0 ==> Excess(d, w) > 0.0)
  {
    SquareSign(d);
    if d != 0.0 {
      ProductSign(Times(d, d), w);
    }
  }

  lemma SameLine(l: Line, f: Line, u: real)
    requires l.b1 == f.b1 && Height(l, u) == Height(f, u)
    ensures l == f
  {
  }

  /** The fitted line has the least weighted squared error, and no other line reaches it. */
  lemma FitIsLeastSquares(p: seq<Point>, l: Line)
    requires Fittable(p)
    ensures SquaredError(p, Fit(p).b0, Fit(p).b1) <= SquaredError(p, l.b0, l.b1)
    ensures SquaredError(p, Fit(p).b0, Fit(p).b1) == SquaredError(p, l.b0, l.b1) <==> l == Fit(p)
  {
    var f, u := Fit(p), Mean(p);
    FitAtMean(p, f, u);
    ErrorAboveFit(p, l, f, u);
    hide Fit, Mean, Height, Excess, SquaredError, CentredSums, WeightSums;
    ExcessSign(Height(l, u) - Height(f, u), WeightSums(p).W);
    ExcessSign(l.b1 - f.b1, CentredSums(p, u).V);
    if l.b1 == f.b1 && Height(l, u) == Height(f, u) {
      SameLine(l, f, u);
    }
  }

  // ---------- the normal equations ----------

  function Linear(P: real, W: real, Z: real, c: real, b: real): real {
    P - c * W - b * Z
  }

  lemma LinearAdds(P: real, W: real, Z: real, P': real, W': real, Z': real, c: real, b: real)
    ensures Linear(P + P', W + W', Z + Z', c, b) == Linear(P, W, Z, c, b) + Linear(P', W', Z', c, b)
  {
    Distributes(c, W, W');
    Distributes(b, Z, Z');
  }

  lemma ScaledResidual(r: real, y: real, z: real, g: real, c: real, b: real)
    requires r == y - c - b * z
    ensures r * g == Linear(y * g, g, z * g, c, b)
    ensures z * r * g == Linear(y * z * g, z * g, z * z * g, c, b)
  {
    var k := b * z;
    assert r * g == y * g - c * g - k * g;
    Associate(b, z, g);
    var zg := z * g;
    Associate(b, z, zg);
    assert r * zg == y * zg - c * zg - k * zg;
    Associate(y, z, g);
    Associate(z, z, g);
    Associate(r, z, g);
  }

  lemma ResidualOfPoint(q: Point, l: Line, u: real)
    ensures TermR(q, l) == Linear(TermY(q), TermW(q), TermZ(q, u), Height(l, u), l.b1)
    ensures TermXR(q, l) ==
              Times(u, TermR(q, l)) + Linear(TermYZ(q, u), TermZ(q, u), TermZZ(q, u), Height(l, u), l.b1)
  {
    var r, z, g := Residual(q, l.b0, l.b1), q.x - u, 1.0 / q.w;
    assert l.b1 * z == l.b1 * q.x - l.b1 * u;
    assert r == q.y - Height(l, u) - l.b1 * z;
    hide Linear, Height, Residual;
    ScaledResidual(r, q.y, z, g, Height(l, u), l.b1);
    Over(r, q.w);
    Over(q.y, q.w);
    Over(z, q.w);
    ProductOver(q.x, r, q.w);
    ProductOver(q.y, z, q.w);
    ProductOver(z, z, q.w);
    MomentAbout(q.x, u, z, r, g);
  }

  lemma MomentAbout(x: real, u: real, z: real, r: real, g: real)
    requires x == u + z
    ensures x * r * g == u * (r * g) + z * r * g
  {
    var k := r * g;
    Associate(x, r, g);
    Associate(z, r, g);
    assert x * k == u * k + z * k;
  }

  lemma TimesAdds(u: real, a: real, b: real)
    ensures Times(u, a + b) == Times(u, a) + Times(u, b)
  {
  }

  lemma {:induction false} SumOfResiduals(p: seq<Point>, l: Line, u: real)
    ensures ResidualSum(p, l) == Linear(CentredSums(p, u).P, WeightSums(p).W, Deviation(p, u), Height(l, u), l.b1)
  {
    if p != [] {
      var n := |p| - 1;
      var q, s := p[n], p[..n];
      SumOfResiduals(s, l, u);
      ResidualOfPoint(q, l, u);
      hide Times, Linear, Height, TermW, TermX, TermY, TermZ, TermYZ, TermZZ, TermR, TermXR;
      var t := CentredSums(s, u);
      LinearAdds(t.P, WeightSums(s).W, Deviation(s, u), TermY(q), TermW(q), TermZ(q, u), Height(l, u), l.b1);
    }
  }

  lemma {:induction false} MomentOfResiduals(p: seq<Point>, l: Line, u: real)
    ensures ResidualMoment(p, l) ==
              Times(u, ResidualSum(p, l))
              + Linear(CentredSums(p, u).Q, Deviation(p, u), CentredSums(p, u).V, Height(l, u), l.b1)
  {
    if p != [] {
      var n := |p| - 1;
      var q, s := p[n], p[..n];
      MomentOfResiduals(s, l, u);
      ResidualOfPoint(q, l, u);
      hide Times, Linear, Height, TermW, TermX, TermY, TermZ, TermYZ, TermZZ, TermR, TermXR;
      var t := CentredSums(s, u);
      LinearAdds(t.Q, Deviation(s, u), t.V, TermYZ(q, u), TermZ(q, u), TermZZ(q, u), Height(l, u), l.b1);
      TimesAdds(u, ResidualSum(s, l), TermR(q, l));
    }
  }

  lemma QuotientIsUnique(P: real, W: real, c: real)
    requires W > 0.0
    ensures P - c * W == 0.0 <==> c == P / W
  {
    if P - c * W == 0.0 {
      assert c * W / W == c;
    }
  }

  /** Over centred sums the linear form vanishes only at the quotient. */
  lemma LinearVanishes(P: real, W: real, Z: real, c: real, b: real)
    requires W > 0.0 && Z == 0.0
    ensures Linear(P, W, Z, c, b) == 0.0 <==> c == P / W
  {
    QuotientIsUnique(P, W, c);
  }

  lemma SlopeVanishes(Q: real, Z: real, V: real, c: real, b: real)
    requires V > 0.0 && Z == 0.0
    ensures Linear(Q, Z, V, c, b) == 0.0 <==> b == Q / V
  {
    QuotientIsUnique(Q, V, b);
  }

  /** The weighted normal equations hold for the fitted line and for no other. */
  lemma NormalEquations(p: seq<Point>, l: Line)
    requires Fittable(p)
    ensures ResidualSum(p, l) == 0.0 && ResidualMoment(p, l) == 0.0 <==> l == Fit(p)
  {
    var f, u := Fit(p), Mean(p);
    FitAtMean(p, f, u);
    MeanCancels(p);
    SumOfResiduals(p, l, u);
    MomentOfResiduals(p, l, u);
    assert Times(u, 0.0) == 0.0;
    hide Times, Linear, Height, Fit, Mean, ResidualSum, ResidualMoment, CentredSums, WeightSums, Deviation;
    var t := CentredSums(p, u);
    LinearVanishes(t.P, WeightSums(p).W, Deviation(p, u), Height(l, u), l.b1);
    SlopeVanishes(t.Q, Deviation(p, u), t.V, Height(l, u), l.b1);
    if l.b1 == f.b1 && Height(l, u) == Height(f, u) {
      SameLine(l, f, u);
    }
  }

  // ---------- RGR_WeightedRegression ----------

  predicate PositiveWeights(w: seq<real>) {
    forall i :: 0 <= i < |w| ==> w[i] > 0.0
  }

  ghost function Points(x: seq<real>, y: seq<real>, w: seq<real>): (p: seq<Point>)
    requires |x| == |y| == |w| && PositiveWeights(w)
    ensures |p| == |x|
  {
    seq(|x|, i requires 0 <= i < |x| => Point(x[i], y[i], w[i]))
  }

  method WeightAndMean(x: seq<real>, y: seq<real>, w: seq<real>) returns (u: real, W: real)
    requires |x| == |y| == |w| && PositiveWeights(w) && Fittable(Points(x, y, w))
    ensures W == WeightSums(Points(x, y, w)).W && W > 0.0
    ensures u == Mean(Points(x, y, w))
  {
    ghost var p := Points(x, y, w);
    var U := 0.0;
    W := 0.0;
    for i := 0 to |x|
      invariant WeightSums(p[..i]) == Weights(U, W)
    {
      assert p[..i + 1][..i] == p[..i];
      U := U + x[i] / w[i];
      W := W + 1.0 / w[i];
    }
    assert p[..|x|] == p;
    FitIsDefined(p, 0.0);
    u := U / W;
  }

  lemma CentredTerms(q: Point, u: real, ui: real)
    requires ui == q.x - u
    ensures TermY(q) == q.y / q.w && TermYZ(q, u) == q.y * ui / q.w && TermZZ(q, u) == ui * ui / q.w
  {
  }

  method CentredStatistics(x: seq<real>, y: seq<real>, w: seq<real>, u: real) returns (P: real, Q: real, V: real)
    requires |x| == |y| == |w| && PositiveWeights(w)
    ensures Centred(P, Q, V) == CentredSums(Points(x, y, w), u)
  {
    ghost var p := Points(x, y, w);
    P, Q, V := 0.0, 0.0, 0.0;
    for i := 0 to |x|
      invariant CentredSums(p[..i], u) == Centred(P, Q, V)
    {
      assert p[..i + 1][..i] == p[..i];
      var ui := x[i] - u;
      CentredTerms(p[i], u, ui);
      hide TermY, TermYZ, TermZZ;
      P := P + y[i] / w[i];
      Q := Q + y[i] * ui / w[i];
      V := V + ui * ui / w[i];
    }
    assert p[..|x|] == p;
  }

  method ResidualVariance(x: seq<real>, y: seq<real>, w: seq<real>, l: Line) returns (s2: real)
    requires |x| == |y| == |w| && PositiveWeights(w)
    ensures s2 == SquaredError(Points(x, y, w), l.b0, l.b1)
  {
    ghost var p := Points(x, y, w);
    s2 := 0.0;
    for i := 0 to |x|
      invariant SquaredError(p[..i], l.b0, l.b1) == s2
    {
      assert p[..i + 1][..i] == p[..i];
      var q := Point(x[i], y[i], w[i]);
      hide ProductRatio, Residual;
      var diff := Residual(q, l.b0, l.b1);
      s2 := s2 + ProductRatio(diff, diff, w[i]);
    }
    assert p[..|x|] == p;
  }

  /** The fitted line, as the loops compute it. */
  method FitLine(x: seq<real>, y: seq<real>, w: seq<real>) returns (l: Line, W: real)
    requires |x| == |y| == |w| && PositiveWeights(w) && Fittable(Points(x, y, w))
    ensures l == Fit(Points(x, y, w)) && W == WeightSums(Points(x, y, w)).W && W > 0.0
  {
    ghost var p := Points(x, y, w);
    hide Fittable, Points;
    var u: real;
    u, W := WeightAndMean(x, y, w);
    FitIsDefined(p, u);
    var P, Q, V := CentredStatistics(x, y, w, u);
    var b := Q / V;
    l := Line(P / W - b * u, b);
  }

  /** The intercept and slope minimise the weighted squared error; s2 is that minimum averaged over
      n - 2 degrees of freedom and rescaled by the mean weight. */
  method WeightedRegression(x: array<real>, y: array<real>, w: array<real>, n: nat)
    returns (b0: real, b1: real, s2: real)
    requires 3 <= n <= x.Length && n <= y.Length && n <= w.Length
    requires PositiveWeights(w[..n]) && Fittable(Points(x[..n], y[..n], w[..n]))
    ensures Line(b0, b1) == Fit(Points(x[..n], y[..n], w[..n]))
    ensures WeightSums(Points(x[..n], y[..n], w[..n])).W > 0.0
    ensures s2 == SquaredError(Points(x[..n], y[..n], w[..n]), b0, b1) / (n - 2) as real
                  * (n as real / WeightSums(Points(x[..n], y[..n], w[..n])).W)
  {
    hide Fit, Fittable, Points, SquaredError;
    var l, W := FitLine(x[..n], y[..n], w[..n]);
    b0, b1 := l.b0, l.b1;
    s2 := ResidualVariance(x[..n], y[..n], w[..n], l);
    s2 := s2 / (n - 2) as real;
    s2 := s2 * (n as real / W);
  }
}
