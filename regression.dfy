/** `calculate_linear_regression`: an ordinary least-squares line through the anchor
    window, with the axes as the code has them (x is the flow reading, y is the
    reading's position 0..n-1), evaluated at two points for drawing. */
module TrendProjector {
  import opened Errors
  import opened Lists

  // ---------------------------------------------------------------------------
  // The sums the loop accumulates, over x = xs[j] and y = j

  /** Σ j for j < n: the sum of the positions. */
  function IndexSum(n: nat): real
  {
    if n == 0 then 0.0 else IndexSum(n - 1) + (n - 1) as real
  }

  /** Σ xs[j] * j. */
  function SumXY(xs: seq<real>): real
  {
    if |xs| == 0 then 0.0 else SumXY(xs[..|xs| - 1]) + xs[|xs| - 1] * (|xs| - 1) as real
  }

  /** Σ xs[j]². */
  function SumSq(xs: seq<real>): real
  {
    if |xs| == 0 then 0.0 else SumSq(xs[..|xs| - 1]) + xs[|xs| - 1] * xs[|xs| - 1]
  }

  /** n·Σx² − (Σx)², the divisor of the slope. */
  function Divisor(n: real, sumX: real, sumXSq: real): real
  {
    n * sumXSq - sumX * sumX
  }

  function Denominator(xs: seq<real>): real
  {
    Divisor(|xs| as real, Sum(xs), SumSq(xs))
  }

  /** The positions 0..n-1: `ys`, the reset index of the window. */
  function Positions(n: nat): (ys: seq<real>)
    ensures |ys| == n && forall j :: 0 <= j < n ==> ys[j] == j as real
  {
    seq(n, j requires 0 <= j < n => j as real)
  }

  /** All readings are the same (vacuously so for no readings). */
  predicate AllEqual(xs: seq<real>)
  {
    forall i, j :: 0 <= i < |xs| && 0 <= j < |xs| ==> xs[i] == xs[j]
  }

  datatype Line = Line(slope: real, intercept: real)

  /** The height of the line above x. */
  function LineAt(line: Line, x: real): real
  {
    line.intercept + line.slope * x
  }

  /** The closed-form slope and intercept from the four sums and the count;
      ZeroDivisionError when the divisor is zero. */
  function FitFromSums(n: real, sumX: real, sumY: real, sumXY: real, sumXSq: real): Result<Line>
  {
    var d := Divisor(n, sumX, sumXSq);
    if d == 0.0 || n == 0.0 then Err(ZeroDivisionError)
    else
      var slope := (n * sumXY - sumX * sumY) / d;
      Ok(Line(slope, (sumY - slope * sumX) / n))
  }

  /** The least-squares fit of position against flow. */
  function Fit(xs: seq<real>): Result<Line>
  {
    FitFromSums(|xs| as real, Sum(xs), IndexSum(|xs|), SumXY(xs), SumSq(xs))
  }

  /** The two points the code returns: the line at the smallest flow, and the line
      at `max(ys)`, the last position. */
  function Regression(xs: seq<real>): Result<(real, real)>
  {
    match Fit(xs)
    case Err(e) => Err(e)
    case Ok(line) =>
      if |xs| == 0 then Err(ZeroDivisionError)
      else Ok((LineAt(line, Min(xs)), LineAt(line, Max(Positions(|xs|)))))
  }

  /** The closed-form slope and intercept, divided out as the code does: the slope's
      division fails on a zero divisor and the intercept's on a zero count. */
  method ClosedForm(n: real, sumX: real, sumY: real, sumXY: real, sumXSq: real) returns (r: Result<Line>)
    ensures r == FitFromSums(n, sumX, sumY, sumXY, sumXSq)
    ensures r.Err? <==> Divisor(n, sumX, sumXSq) == 0.0 || n == 0.0
    ensures r.Err? ==> r.error == ZeroDivisionError
  {
    var den := Divisor(n, sumX, sumXSq);
    if den == 0.0 {
      return Err(ZeroDivisionError);
    }
    var slope := (n * sumXY - sumX * sumY) / den;
    if n == 0.0 {
      return Err(ZeroDivisionError);
    }
    var yInt := (sumY - slope * sumX) / n;
    assert FitFromSums(n, sumX, sumY, sumXY, sumXSq).value == Line(slope, yInt);
    r := Ok(Line(slope, yInt));
  }

  /** Regression in terms of the fit, with its match taken apart. */
  lemma RegressionOfFit(xs: seq<real>)
    ensures Fit(xs).Err? ==> Regression(xs) == Err(Fit(xs).error)
    ensures Fit(xs).Ok? ==>
      |xs| > 0 && Regression(xs) == Ok((LineAt(Fit(xs).value, Min(xs)), LineAt(Fit(xs).value, Max(Positions(|xs|)))))
  {
    FitFailsIffAllEqual(xs);
  }

  /** The accumulation loop, then the closed-form fit and the two points. The division
      fails exactly when there are no readings or all readings are equal. */
  method LinearRegression(xs: seq<real>) returns (r: Result<(real, real)>)
    ensures r == Regression(xs)
    ensures r.Err? <==> AllEqual(xs)
    ensures r.Err? ==> r.error == ZeroDivisionError
  {
    var sumX, sumY, sumXY, sumXSq := 0.0, 0.0, 0.0, 0.0;
    var n := |xs|;
    for i := 0 to n
      invariant sumX == Sum(xs[..i]) && sumY == IndexSum(i)
      invariant sumXY == SumXY(xs[..i]) && sumXSq == SumSq(xs[..i])
    {
      var x, y := xs[i], i as real;
      assert xs[..i + 1][..i] == xs[..i];
      sumX := sumX + x;
      sumY := sumY + y;
      sumXY := sumXY + x * y;
      sumXSq := sumXSq + x * x;
    }
    assert xs[..n] == xs;
    var fit := ClosedForm(n as real, sumX, sumY, sumXY, sumXSq);
    assert fit == Fit(xs);
    FitFailsIffAllEqual(xs);
    RegressionOfFit(xs);
    if fit.Err? {
      return Err(fit.error);
    }
    var line := fit.value;
    var minX := Min(xs);
    var maxX := Max(Positions(n));
    r := Ok((LineAt(line, minX), LineAt(line, maxX)));
  }

  // ---------------------------------------------------------------------------
  // Algebra on plain numbers, kept apart from the sequences

  /** Σ (x_j − x)² written with the sum of squares q, the sum s and the count m. */
  function SpreadForm(q: real, s: real, m: real, x: real): real
  {
    q - 2.0 * x * s + m * x * x
  }

  /** Σy − n·a − b·Σx: how far a line is from the first normal equation. */
  function FirstNormal(n: real, s: real, y: real, line: Line): real
  {
    y - n * line.intercept - line.slope * s
  }

  /** Σxy − a·Σx − b·Σx²: how far a line is from the second normal equation. */
  function SecondNormal(s: real, p: real, q: real, line: Line): real
  {
    p - line.intercept * s - line.slope * q
  }

  lemma SquareNonNegative(d: real)
    ensures d * d >= 0.0
  {
  }

  lemma SquarePositive(d: real)
    requires d != 0.0
    ensures d * d > 0.0
  {
    if d < 0.0 {
      assert d * d == (-d) * (-d);
    }
  }

  /** a + d² vanishes with a ≥ 0 only when a and d both vanish. */
  lemma NonNegativeSummands(a: real, d: real)
    requires a >= 0.0 && a + d * d == 0.0
    ensures a == 0.0 && d == 0.0
  {
    if d != 0.0 {
      SquarePositive(d);
      calc {
        0.0;
        a + d * d;
      >
        a;
      }
    }
  }

  lemma SpreadStepAlgebra(sp: real, q: real, s: real, m: real, l: real, x: real,
                          sp': real, q': real, s': real, m': real)
    requires sp == SpreadForm(q, s, m, x)
    requires sp' == sp + (l - x) * (l - x) && q' == q + l * l && s' == s + l && m' == m + 1.0
    ensures sp' == SpreadForm(q', s', m', x)
  {
  }

  lemma DivisorStepAlgebra(q: real, s: real, m: real, x: real, sp: real, q': real, s': real, m': real)
    requires sp == SpreadForm(q, s, m, x)
    requires q' == q + x * x && s' == s + x && m' == m + 1.0
    ensures Divisor(m', s', q') == Divisor(m, s, q) + sp
  {
  }

  lemma ResidualSumStepAlgebra(rs: real, ys: real, m: real, s: real, x: real, line: Line,
                               rs': real, ys': real, m': real, s': real)
    requires rs == FirstNormal(m, s, ys, line)
    requires rs' == rs + (m - (line.intercept + line.slope * x)) && ys' == ys + m && m' == m + 1.0 && s' == s + x
    ensures rs' == FirstNormal(m', s', ys', line)
  {
  }

  lemma MomentStepAlgebra(rm: real, p: real, s: real, q: real, x: real, j: real, line: Line,
                          rm': real, p': real, s': real, q': real)
    requires rm == SecondNormal(s, p, q, line)
    requires rm' == rm + x * (j - (line.intercept + line.slope * x))
    requires p' == p + x * j && s' == s + x && q' == q + x * x
    ensures rm' == SecondNormal(s', p', q', line)
  {
  }

  /** The closed form solves both normal equations. */
  lemma NormalEquationsAlgebra(n: real, s: real, y: real, p: real, q: real, line: Line)
    requires FitFromSums(n, s, y, p, q) == Ok(line)
    ensures FirstNormal(n, s, y, line) == 0.0
    ensures SecondNormal(s, p, q, line) == 0.0
  {
    var a, b, d := line.intercept, line.slope, Divisor(n, s, q);
    assert b * d == n * p - s * y;
    assert n * a == y - b * s;
    assert n * (p - a * s - b * q) == (n * p - s * y) - b * d;
  }

  lemma MeansAlgebra(n: real, s: real, y: real, line: Line)
    requires n != 0.0 && FirstNormal(n, s, y, line) == 0.0
    ensures LineAt(line, s / n) == y / n
  {
    var a, b := line.intercept, line.slope;
    assert b * (s / n) == (b * s) / n;
    assert a == (n * a) / n;
  }

  /** The identities below hold trivially when every sum is zero. */
  lemma EmptySums(line: Line, x: real, n: real, s: real, q: real, p: real, y: real)
    requires n == 0.0 && s == 0.0 && q == 0.0 && p == 0.0 && y == 0.0
    ensures SpreadForm(q, s, n, x) == 0.0
    ensures FirstNormal(n, s, y, line) == 0.0
    ensures SecondNormal(s, p, q, line) == 0.0
    ensures Divisor(n, s, q) == 0.0
  {
  }

  lemma ProductSign(b: real, w: real)
    requires w > 0.0
    ensures b * w > 0.0 <==> b > 0.0
    ensures b * w < 0.0 <==> b < 0.0
  {
  }

  /** Between two abscissae lo < hi, a line rises by slope·(hi − lo). */
  lemma LineRise(line: Line, lo: real, hi: real)
    requires lo < hi
    ensures LineAt(line, hi) - LineAt(line, lo) == line.slope * (hi - lo)
    ensures LineAt(line, lo) < LineAt(line, hi) <==> line.slope > 0.0
    ensures LineAt(line, hi) < LineAt(line, lo) <==> line.slope < 0.0
  {
    ProductSign(line.slope, hi - lo);
  }

  // ---------------------------------------------------------------------------
  // When the divisor vanishes

  /** Σ (xs[j] − x)². */
  function Spread(xs: seq<real>, x: real): real
  {
    if |xs| == 0 then 0.0
    else
      var d := xs[|xs| - 1] - x;
      Spread(xs[..|xs| - 1], x) + d * d
  }

  lemma {:induction false} SpreadNonNegative(xs: seq<real>, x: real)
    ensures Spread(xs, x) >= 0.0
  {
    if |xs| > 0 {
      SpreadNonNegative(xs[..|xs| - 1], x);
      SquareNonNegative(xs[|xs| - 1] - x);
    }
  }

  lemma {:induction false} SpreadExpanded(xs: seq<real>, x: real)
    ensures Spread(xs, x) == SpreadForm(SumSq(xs), Sum(xs), |xs| as real, x)
  {
    if |xs| == 0 {
      EmptySums(Line(0.0, 0.0), x, |xs| as real, Sum(xs), SumSq(xs), 0.0, 0.0);
    } else {
      var init, last := xs[..|xs| - 1], xs[|xs| - 1];
      SpreadExpanded(init, x);
      SumsStep(xs);
      SpreadStepAlgebra(Spread(init, x), SumSq(init), Sum(init), |init| as real, last, x,
                        Spread(xs, x), SumSq(xs), Sum(xs), |xs| as real);
    }
  }

  /** How the count, the sum and the sum of squares grow with the last reading. */
  lemma SumsStep(xs: seq<real>)
    requires |xs| > 0
    ensures |xs| as real == |xs[..|xs| - 1]| as real + 1.0
    ensures Sum(xs) == Sum(xs[..|xs| - 1]) + xs[|xs| - 1]
    ensures SumSq(xs) == SumSq(xs[..|xs| - 1]) + xs[|xs| - 1] * xs[|xs| - 1]
  {
  }

  /** Appending a reading x grows the divisor by the squared distances of the earlier readings to x. */
  lemma DenominatorStep(xs: seq<real>)
    requires |xs| > 0
    ensures Denominator(xs) == Denominator(xs[..|xs| - 1]) + Spread(xs[..|xs| - 1], xs[|xs| - 1])
  {
    var init, x := xs[..|xs| - 1], xs[|xs| - 1];
    SpreadExpanded(init, x);
    SumsStep(xs);
    DivisorStepAlgebra(SumSq(init), Sum(init), |init| as real, x, Spread(init, x),
                       SumSq(xs), Sum(xs), |xs| as real);
  }

  lemma {:induction false} SpreadZero(xs: seq<real>, x: real)
    requires Spread(xs, x) == 0.0
    ensures forall j :: 0 <= j < |xs| ==> xs[j] == x
  {
    if |xs| > 0 {
      var init, last := xs[..|xs| - 1], xs[|xs| - 1];
      SpreadNonNegative(init, x);
      NonNegativeSummands(Spread(init, x), last - x);
      SpreadZero(init, x);
      assert forall j :: 0 <= j < |init| ==> xs[j] == init[j];
    }
  }

  lemma {:induction false} SpreadOfEqual(xs: seq<real>, x: real)
    requires forall j :: 0 <= j < |xs| ==> xs[j] == x
    ensures Spread(xs, x) == 0.0
  {
    if |xs| > 0 {
      SpreadOfEqual(xs[..|xs| - 1], x);
    }
  }

  /** n·Σx² − (Σx)² is never negative, and it is zero exactly when all readings are
      equal, which includes the case of no readings at all. */
  lemma {:induction false} DegenerateIffAllEqual(xs: seq<real>)
    ensures Denominator(xs) >= 0.0
    ensures Denominator(xs) == 0.0 <==> AllEqual(xs)
  {
    if |xs| == 0 {
      EmptySums(Line(0.0, 0.0), 0.0, |xs| as real, Sum(xs), SumSq(xs), 0.0, 0.0);
    } else {
      var init, x := xs[..|xs| - 1], xs[|xs| - 1];
      DegenerateIffAllEqual(init);
      DenominatorStep(xs);
      SpreadNonNegative(init, x);
      assert forall j :: 0 <= j < |init| ==> xs[j] == init[j];
      if Denominator(xs) == 0.0 {
        assert Denominator(init) == 0.0 && Spread(init, x) == 0.0;
        SpreadZero(init, x);
        assert forall j :: 0 <= j < |xs| ==> xs[j] == x;
      }
      if AllEqual(xs) {
        assert forall j :: 0 <= j < |init| ==> init[j] == x;
        SpreadOfEqual(init, x);
      }
    }
  }

  /** The fit fails exactly when there are no readings or they are all equal. */
  lemma FitFailsIffAllEqual(xs: seq<real>)
    ensures Fit(xs).Err? <==> AllEqual(xs)
    ensures Fit(xs).Ok? ==> |xs| > 0
  {
    DegenerateIffAllEqual(xs);
  }

  // ---------------------------------------------------------------------------
  // What the fitted line satisfies

  /** Σ (j − (a + b·xs[j])): the residuals of the positions. */
  function ResidualSum(xs: seq<real>, line: Line): real
  {
    if |xs| == 0 then 0.0
    else
      var j := |xs| - 1;
      ResidualSum(xs[..j], line) + (j as real - (line.intercept + line.slope * xs[j]))
  }

  /** Σ xs[j] · (j − (a + b·xs[j])): the residuals weighted by the flows. */
  function ResidualMoment(xs: seq<real>, line: Line): real
  {
    if |xs| == 0 then 0.0
    else
      var j := |xs| - 1;
      ResidualMoment(xs[..j], line) + xs[j] * (j as real - (line.intercept + line.slope * xs[j]))
  }

  lemma {:induction false} ResidualSumExpanded(xs: seq<real>, line: Line)
    ensures ResidualSum(xs, line) == FirstNormal(|xs| as real, Sum(xs), IndexSum(|xs|), line)
  {
    if |xs| == 0 {
      EmptySums(line, 0.0, |xs| as real, Sum(xs), 0.0, 0.0, IndexSum(|xs|));
    } else {
      var j := |xs| - 1;
      var init := xs[..j];
      ResidualSumExpanded(init, line);
      ResidualSumStepAlgebra(ResidualSum(init, line), IndexSum(j), j as real, Sum(init), xs[j],
                             line, ResidualSum(xs, line), IndexSum(|xs|), |xs| as real, Sum(xs));
    }
  }

  lemma {:induction false} ResidualMomentExpanded(xs: seq<real>, line: Line)
    ensures ResidualMoment(xs, line) == SecondNormal(Sum(xs), SumXY(xs), SumSq(xs), line)
  {
    if |xs| == 0 {
      EmptySums(line, 0.0, 0.0, Sum(xs), SumSq(xs), SumXY(xs), 0.0);
    } else {
      var j := |xs| - 1;
      var init := xs[..j];
      ResidualMomentExpanded(init, line);
      MomentStepAlgebra(ResidualMoment(init, line), SumXY(init), Sum(init), SumSq(init), xs[j], j as real,
                        line, ResidualMoment(xs, line), SumXY(xs), Sum(xs), SumSq(xs));
    }
  }

  /** The fitted line solves the two normal equations of least squares:
      Σy = n·a + b·Σx and Σxy = a·Σx + b·Σx². */
  lemma NormalEquations(xs: seq<real>)
    requires Fit(xs).Ok?
    ensures FirstNormal(|xs| as real, Sum(xs), IndexSum(|xs|), Fit(xs).value) == 0.0
    ensures SecondNormal(Sum(xs), SumXY(xs), SumSq(xs), Fit(xs).value) == 0.0
  {
    NormalEquationsAlgebra(|xs| as real, Sum(xs), IndexSum(|xs|), SumXY(xs), SumSq(xs), Fit(xs).value);
  }

  /** A line solving the first normal equation leaves residuals that sum to zero. */
  lemma ResidualsSumToZero(xs: seq<real>, line: Line)
    requires FirstNormal(|xs| as real, Sum(xs), IndexSum(|xs|), line) == 0.0
    ensures ResidualSum(xs, line) == 0.0
  {
    ResidualSumExpanded(xs, line);
  }

  /** A line solving the second normal equation leaves residuals orthogonal to the flows. */
  lemma ResidualsOrthogonalToFlows(xs: seq<real>, line: Line)
    requires SecondNormal(Sum(xs), SumXY(xs), SumSq(xs), line) == 0.0
    ensures ResidualMoment(xs, line) == 0.0
  {
    ResidualMomentExpanded(xs, line);
  }

  /** So the fitted line is the least-squares line: its residuals sum to zero, and so
      do its residuals weighted by the flows. */
  lemma FitIsLeastSquares(xs: seq<real>)
    requires Fit(xs).Ok?
    ensures ResidualSum(xs, Fit(xs).value) == 0.0
    ensures ResidualMoment(xs, Fit(xs).value) == 0.0
  {
    NormalEquations(xs);
    ResidualsSumToZero(xs, Fit(xs).value);
    ResidualsOrthogonalToFlows(xs, Fit(xs).value);
  }

  /** The line passes through the point of means (Σx/n, Σy/n). */
  lemma PassesThroughMeans(xs: seq<real>)
    requires Fit(xs).Ok?
    ensures |xs| > 0
    ensures LineAt(Fit(xs).value, Sum(xs) / |xs| as real) == IndexSum(|xs|) / |xs| as real
  {
    var line := Fit(xs).value;
    FitFailsIffAllEqual(xs);
    NormalEquations(xs);
    MeansAlgebra(|xs| as real, Sum(xs), IndexSum(|xs|), line);
  }

  /** Σ j for j < n is n(n−1)/2. */
  lemma {:induction false} IndexSumClosedForm(n: nat)
    ensures IndexSum(n) == (n * (n - 1)) as real / 2.0
  {
    if n > 0 {
      IndexSumClosedForm(n - 1);
      assert n * (n - 1) == (n - 1) * (n - 2) + 2 * (n - 1);
    }
  }

  /** `max(ys)` is the last position. */
  lemma MaxOfPositions(n: nat)
    requires n > 0
    ensures Max(Positions(n)) == (n - 1) as real
  {
    var ys := Positions(n);
    assert ys[n - 1] == (n - 1) as real;
  }

  /** The second point is taken at the last position n − 1, the largest of `ys`. */
  lemma SecondPointAtLastPosition(xs: seq<real>)
    requires Fit(xs).Ok?
    ensures Regression(xs) == Ok((LineAt(Fit(xs).value, Min(xs)), LineAt(Fit(xs).value, (|xs| - 1) as real)))
  {
    FitFailsIffAllEqual(xs);
    MaxOfPositions(|xs|);
  }

  // ---------------------------------------------------------------------------
  // The second point as evidently intended: at the largest flow

  function CorrectedRegression(xs: seq<real>): Result<(real, real)>
  {
    match Fit(xs)
    case Err(e) => Err(e)
    case Ok(line) =>
      if |xs| == 0 then Err(ZeroDivisionError)
      else Ok((LineAt(line, Min(xs)), LineAt(line, Max(xs))))
  }

  /** A flow whose smallest and largest readings coincide is constant. */
  lemma ExtremesEqualOnlyIfAllEqual(xs: seq<real>)
    requires |xs| > 0
    ensures Min(xs) == Max(xs) ==> AllEqual(xs)
  {
    if Min(xs) == Max(xs) {
      assert forall i, j :: 0 <= i < |xs| && 0 <= j < |xs| ==> xs[i] == Max(xs) && xs[j] == Max(xs);
    }
  }

  /** Both corrected points lie on the fitted line at the extremes of the flow, so
      the segment rises exactly when the slope is positive and falls exactly when
      it is negative. */
  lemma CorrectedPointsFollowSlope(xs: seq<real>)
    requires Fit(xs).Ok?
    ensures |xs| > 0 && Min(xs) < Max(xs)
    ensures CorrectedRegression(xs) == Ok((LineAt(Fit(xs).value, Min(xs)), LineAt(Fit(xs).value, Max(xs))))
    ensures LineAt(Fit(xs).value, Min(xs)) < LineAt(Fit(xs).value, Max(xs)) <==> Fit(xs).value.slope > 0.0
    ensures LineAt(Fit(xs).value, Max(xs)) < LineAt(Fit(xs).value, Min(xs)) <==> Fit(xs).value.slope < 0.0
  {
    FitFailsIffAllEqual(xs);
    ExtremesEqualOnlyIfAllEqual(xs);
    LineRise(Fit(xs).value, Min(xs), Max(xs));
  }

  /** As written, readings 10 and 20 fit the rising line through (10, 0) and (20, 1),
      yet the second point is taken at x = 1 and lies below the first. */
  lemma SecondPointBelowFirstForRisingLine()
    ensures Fit([10.0, 20.0]) == Ok(Line(0.1, -1.0))
    ensures Regression([10.0, 20.0]) == Ok((0.0, -0.9))
    ensures CorrectedRegression([10.0, 20.0]) == Ok((0.0, 1.0))
  {
    var xs := [10.0, 20.0];
    assert xs[..1] == [10.0];
    assert [10.0][..0] == [];
    assert Sum(xs) == 30.0;
    assert SumSq(xs) == 500.0;
    assert SumXY(xs) == 20.0;
    assert IndexSum(2) == 1.0;
    assert Min(xs) == 10.0 && Max(xs) == 20.0;
    assert Max(Positions(2)) == 1.0;
  }
}
