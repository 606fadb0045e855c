/** The capacity forecast (internal/ai/stats.go): a least-squares trend, its R-squared and the moment
    the trend reaches a threshold.

    The one-pass sums of the code are tied to definitions over the whole point set: the squared error
    of an arbitrary line and the spread of the time axis as a sum over pairs of points. */
module Forecasting {
  import opened Series

  const YEAR_HOURS := 8760.0
  const HOUR_NS := 3_600_000_000_000
  const MS_NS := 1_000_000

  /** `hits` is Unix nanoseconds. */
  datatype Hit = Never | At(ns: int)
  datatype Forecast = Forecast(slopePerHour: real, projected: real, hits: Hit, confidence: real)

  const NO_FORECAST := Forecast(0.0, 0.0, Never, 0.0)

  /** A sample on the regression plane: hours since the first sample, value. */
  datatype Point = Point(x: real, y: real)

  function Hours(t: int, t0: int): real { (t - t0) as real / HOUR_MS as real }

  function Plot(samples: seq<Sample>, n: nat): (p: seq<Point>)
    requires n <= |samples|
    ensures |p| == n
    ensures forall i :: 0 <= i < n ==> p[i] == Point(Hours(samples[i].t, samples[0].t), samples[i].v)
  {
    if n == 0 then []
    else Plot(samples, n - 1) + [Point(Hours(samples[n - 1].t, samples[0].t), samples[n - 1].v)]
  }

  function Square(x: real): real { x * x }

  function Residual(q: Point, b: real, m: real): real { q.y - (b + m * q.x) }

  /** Squared error of the line `b + m * x`. */
  ghost function SquaredError(p: seq<Point>, b: real, m: real): real {
    if p == [] then 0.0
    else SquaredError(p[..|p| - 1], b, m) + Square(Residual(p[|p| - 1], b, m))
  }

  ghost function ResidualSum(p: seq<Point>, b: real, m: real): real {
    if p == [] then 0.0
    else ResidualSum(p[..|p| - 1], b, m) + Residual(p[|p| - 1], b, m)
  }

  ghost predicate BestLine(p: seq<Point>, b: real, m: real) {
    forall b', m' :: SquaredError(p, b, m) <= SquaredError(p, b', m')
  }

  /** Squared distances from `x` to every point. */
  ghost function SpreadFrom(p: seq<Point>, x: real): real {
    if p == [] then 0.0 else SpreadFrom(p[..|p| - 1], x) + Square(x - p[|p| - 1].x)
  }

  /** Squared distances over all pairs of points: zero exactly when all points share one instant. */
  ghost function PairSpread(p: seq<Point>): real {
    if p == [] then 0.0 else PairSpread(p[..|p| - 1]) + SpreadFrom(p[..|p| - 1], p[|p| - 1].x)
  }

  /** The five running sums of the code, as one value. */
  datatype Sums = Sums(n: real, x: real, y: real, xy: real, xx: real, yy: real)

  function Add(s: Sums, q: Point): Sums {
    Sums(s.n + 1.0, s.x + q.x, s.y + q.y, s.xy + q.x * q.y, s.xx + q.x * q.x, s.yy + q.y * q.y)
  }

  function SumsOf(p: seq<Point>): Sums {
    if p == [] then Sums(0.0, 0.0, 0.0, 0.0, 0.0, 0.0) else Add(SumsOf(p[..|p| - 1]), p[|p| - 1])
  }

  // ---- squared error as a quadratic in the sums -------------------------------------------------

  function ErrorFromSums(s: Sums, b: real, m: real): real {
    s.yy - 2.0 * (b * s.y) - 2.0 * (m * s.xy) + b * b * s.n + 2.0 * (b * m * s.x) + m * m * s.xx
  }

  lemma ErrorOfOneMore(s: Sums, q: Point, b: real, m: real)
    ensures ErrorFromSums(Add(s, q), b, m) == ErrorFromSums(s, b, m) + Square(Residual(q, b, m))
  {
    var mx := m * q.x;
    assert Square(q.y - (b + mx)) == q.y * q.y - 2.0 * (b * q.y) - 2.0 * (mx * q.y) + b * b + 2.0 * (b * mx) + mx * mx;
    assert mx * q.y == m * (q.x * q.y);
    assert b * mx == b * m * q.x;
    assert mx * mx == m * m * (q.x * q.x);
    assert m * (s.xy + q.x * q.y) == m * s.xy + m * (q.x * q.y);
    assert b * m * (s.x + q.x) == b * m * s.x + b * m * q.x;
    assert m * m * (s.xx + q.x * q.x) == m * m * s.xx + m * m * (q.x * q.x);
    assert b * b * (s.n + 1.0) == b * b * s.n + b * b;
    assert b * (s.y + q.y) == b * s.y + b * q.y;
  }

  lemma {:induction false} ErrorIsQuadratic(p: seq<Point>, b: real, m: real)
    ensures SquaredError(p, b, m) == ErrorFromSums(SumsOf(p), b, m)
  {
    if p != [] {
      var q := p[..|p| - 1];
      ErrorIsQuadratic(q, b, m);
      hide ErrorFromSums, Add, Residual, Square;
      ErrorOfOneMore(SumsOf(q), p[|p| - 1], b, m);
    }
  }

  lemma {:induction false} ErrorIsNonNegative(p: seq<Point>, b: real, m: real)
    ensures SquaredError(p, b, m) >= 0.0
  {
    if p != [] {
      ErrorIsNonNegative(p[..|p| - 1], b, m);
      var r := Residual(p[|p| - 1], b, m);
      assert r * r >= 0.0;
    }
  }

  lemma {:induction false} ResidualsFromSums(p: seq<Point>, b: real, m: real)
    ensures ResidualSum(p, b, m) == SumsOf(p).y - SumsOf(p).n * b - m * SumsOf(p).x
  {
    if p != [] {
      var q, l := p[..|p| - 1], p[|p| - 1];
      ResidualsFromSums(q, b, m);
      assert m * (SumsOf(q).x + l.x) == m * SumsOf(q).x + m * l.x;
      assert (SumsOf(q).n + 1.0) * b == SumsOf(q).n * b + b;
    }
  }

  // ---- the spread of the time axis --------------------------------------------------------------

  function SpreadOver(s: Sums, x: real): real { s.n * (x * x) - 2.0 * (x * s.x) + s.xx }

  function Determinant(s: Sums): real { s.n * s.xx - s.x * s.x }

  lemma SpreadOfOneMore(s: Sums, q: Point, x: real)
    ensures SpreadOver(Add(s, q), x) == SpreadOver(s, x) + Square(x - q.x)
    ensures Square(x - q.x) >= 0.0
  {
    assert Square(x - q.x) == x * x - 2.0 * (x * q.x) + q.x * q.x;
    assert (s.n + 1.0) * (x * x) == s.n * (x * x) + x * x;
    assert x * (s.x + q.x) == x * s.x + x * q.x;
  }

  lemma DeterminantOfOneMore(s: Sums, q: Point)
    ensures Determinant(Add(s, q)) == Determinant(s) + SpreadOver(s, q.x)
  {
    var xx := q.x * q.x;
    assert (s.n + 1.0) * (s.xx + xx) == s.n * s.xx + s.n * xx + s.xx + xx;
    assert (s.x + q.x) * (s.x + q.x) == s.x * s.x + 2.0 * (q.x * s.x) + xx;
  }

  lemma {:induction false} SpreadFromSums(p: seq<Point>, x: real)
    ensures SpreadFrom(p, x) == SpreadOver(SumsOf(p), x)
    ensures SpreadFrom(p, x) >= 0.0
  {
    if p != [] {
      SpreadFromSums(p[..|p| - 1], x);
      hide SpreadOver, Square, Add;
      SpreadOfOneMore(SumsOf(p[..|p| - 1]), p[|p| - 1], x);
    }
  }

  /** The denominator of the code is the pairwise spread, so it is never negative. */
  lemma {:induction false} DenominatorIsPairSpread(p: seq<Point>)
    ensures PairSpread(p) == Determinant(SumsOf(p))
    ensures PairSpread(p) >= 0.0
  {
    if p != [] {
      DenominatorIsPairSpread(p[..|p| - 1]);
      hide SpreadOver, Determinant, Add;
      SpreadFromSums(p[..|p| - 1], p[|p| - 1].x);
      DeterminantOfOneMore(SumsOf(p[..|p| - 1]), p[|p| - 1]);
    }
  }

  // ---- optimality -------------------------------------------------------------------------------

  ghost predicate NormalEquations(s: Sums, b: real, m: real) {
    && s.n * b + m * s.x == s.y
    && b * s.x + m * s.xx == s.xy
  }

  /** Away from a solution of the normal equations the error grows by the squared gap between the lines. */
  lemma ErrorAwayFromFit(s: Sums, b: real, m: real, db: real, dm: real)
    requires NormalEquations(s, b, m)
    ensures ErrorFromSums(s, b + db, m + dm) == ErrorFromSums(s, b, m) + GapOver(s, db, dm)
  {
    var e1 := (b + db) * (b + db) * s.n;
    assert e1 == b * b * s.n + 2.0 * (db * (s.n * b)) + db * db * s.n;
    var e2 := (b + db) * (m + dm) * s.x;
    assert e2 == b * m * s.x + dm * (b * s.x) + db * (m * s.x) + db * dm * s.x;
    var e3 := (m + dm) * (m + dm) * s.xx;
    assert e3 == m * m * s.xx + 2.0 * (dm * (m * s.xx)) + dm * dm * s.xx;
    assert db * s.y == db * (s.n * b) + db * (m * s.x);
    assert dm * s.xy == dm * (b * s.x) + dm * (m * s.xx);
    assert (b + db) * s.y == b * s.y + db * s.y;
    assert (m + dm) * s.xy == m * s.xy + dm * s.xy;
  }

  function Gap(q: Point, db: real, dm: real): real { db + dm * q.x }

  /** That squared gap: the error of the difference line against a series that is zero everywhere. */
  ghost function GapSquares(p: seq<Point>, db: real, dm: real): real {
    if p == [] then 0.0 else GapSquares(p[..|p| - 1], db, dm) + Square(Gap(p[|p| - 1], db, dm))
  }

  function GapOver(s: Sums, db: real, dm: real): real {
    db * db * s.n + 2.0 * (db * dm * s.x) + dm * dm * s.xx
  }

  lemma GapOfOneMore(s: Sums, q: Point, db: real, dm: real)
    ensures GapOver(Add(s, q), db, dm) == GapOver(s, db, dm) + Square(Gap(q, db, dm))
    ensures Square(Gap(q, db, dm)) >= 0.0
  {
    var mx := dm * q.x;
    assert Square(db + mx) == db * db + 2.0 * (db * mx) + mx * mx;
    assert db * mx == db * dm * q.x;
    assert mx * mx == dm * dm * (q.x * q.x);
    assert db * db * (s.n + 1.0) == db * db * s.n + db * db;
    assert db * dm * (s.x + q.x) == db * dm * s.x + db * dm * q.x;
    assert dm * dm * (s.xx + q.x * q.x) == dm * dm * s.xx + dm * dm * (q.x * q.x);
  }

  lemma {:induction false} GapFromSums(p: seq<Point>, db: real, dm: real)
    ensures GapSquares(p, db, dm) == GapOver(SumsOf(p), db, dm)
    ensures GapSquares(p, db, dm) >= 0.0
  {
    if p != [] {
      GapFromSums(p[..|p| - 1], db, dm);
      hide GapOver, Square, Add, Gap;
      GapOfOneMore(SumsOf(p[..|p| - 1]), p[|p| - 1], db, dm);
    }
  }

  /** A solution of the normal equations is the least-squares line: no line does better, and any
      other line pays exactly the squared gap. */
  lemma NormalLineIsBest(p: seq<Point>, b: real, m: real)
    requires NormalEquations(SumsOf(p), b, m)
    ensures BestLine(p, b, m)
    ensures forall b', m' :: SquaredError(p, b', m') == SquaredError(p, b, m) + GapSquares(p, b' - b, m' - m)
    ensures ResidualSum(p, b, m) == 0.0
  {
    forall b', m'
      ensures SquaredError(p, b', m') == SquaredError(p, b, m) + GapSquares(p, b' - b, m' - m)
      ensures GapSquares(p, b' - b, m' - m) >= 0.0
    {
      ErrorIsQuadratic(p, b, m);
      ErrorIsQuadratic(p, b', m');
      GapFromSums(p, b' - b, m' - m);
      hide ErrorFromSums, NormalEquations, GapOver, SumsOf;
      ErrorAwayFromFit(SumsOf(p), b, m, b' - b, m' - m);
      assert b + (b' - b) == b' && m + (m' - m) == m';
    }
    ResidualsFromSums(p, b, m);
  }

  // ---- uniqueness -------------------------------------------------------------------------------

  lemma {:induction false} SharedInstantHasNoSpread(p: seq<Point>, x: real)
    requires forall i :: 0 <= i < |p| ==> p[i].x == x
    ensures SpreadFrom(p, x) == 0.0 && PairSpread(p) == 0.0
  {
    if p != [] {
      SharedInstantHasNoSpread(p[..|p| - 1], x);
    }
  }

  lemma {:induction false} NoGapMeansNoGapAnywhere(p: seq<Point>, db: real, dm: real, i: nat)
    requires GapSquares(p, db, dm) == 0.0 && i < |p|
    ensures Gap(p[i], db, dm) == 0.0
  {
    hide Gap;
    var q := p[..|p| - 1];
    GapFromSums(q, db, dm);
    var g := Gap(p[|p| - 1], db, dm);
    SquareFacts(g);
    if i < |q| { NoGapMeansNoGapAnywhere(q, db, dm, i); }
  }

  lemma SquareFacts(g: real)
    ensures Square(g) >= 0.0
    ensures Square(g) == 0.0 ==> g == 0.0
  {
    if g > 0.0 { PositiveProduct(g, g, Square(g)); }
    if g < 0.0 { PositiveProduct(-g, -g, Square(g)); }
  }

  lemma PositiveProduct(x: real, y: real, product: real)
    requires x > 0.0 && y > 0.0 && product == x * y
    ensures product > 0.0
  {}

  lemma TwoZeroGaps(q: Point, r: Point, db: real, dm: real)
    requires Gap(q, db, dm) == 0.0 && Gap(r, db, dm) == 0.0 && q.x != r.x
    ensures db == 0.0 && dm == 0.0
  {
    assert dm * (q.x - r.x) == 0.0;
  }

  /** As soon as two samples differ in time there is only one least-squares line. */
  lemma BestLineIsUnique(p: seq<Point>, b: real, m: real, b': real, m': real)
    requires PairSpread(p) > 0.0 && NormalEquations(SumsOf(p), b, m)
    requires BestLine(p, b', m')
    ensures b' == b && m' == m
  {
    NormalLineIsBest(p, b, m);
    var db, dm := b' - b, m' - m;
    GapFromSums(p, db, dm);
    assert SquaredError(p, b', m') <= SquaredError(p, b, m);
    assert GapSquares(p, db, dm) == 0.0;
    if forall i :: 0 <= i < |p| ==> p[i].x == p[0].x {
      SharedInstantHasNoSpread(p, if p == [] then 0.0 else p[0].x);
    } else {
      var i :| 0 <= i < |p| && p[i].x != p[0].x;
      NoGapMeansNoGapAnywhere(p, db, dm, 0);
      NoGapMeansNoGapAnywhere(p, db, dm, i);
      TwoZeroGaps(p[0], p[i], db, dm);
    }
  }

  // ---- the computation --------------------------------------------------------------------------

  lemma FitSolvesNormalEquations(s: Sums, b: real, m: real)
    requires s.n > 0.0 && Determinant(s) > 0.0
    requires m == (s.n * s.xy - s.x * s.y) / Determinant(s)
    requires b == (s.y - m * s.x) / s.n
    ensures NormalEquations(s, b, m)
  {
    var d := Determinant(s);
    assert m * d == s.n * s.xy - s.x * s.y;
    assert s.n * b == s.y - m * s.x;
    SecondEquation(s, b, m);
  }

  lemma SecondEquation(s: Sums, b: real, m: real)
    requires s.n > 0.0
    requires m * Determinant(s) == s.n * s.xy - s.x * s.y
    requires s.n * b + m * s.x == s.y
    ensures b * s.x + m * s.xx == s.xy
  {
    var lhs := b * s.x + m * s.xx;
    assert s.n * lhs == (s.n * b) * s.x + s.n * (m * s.xx);
    assert (s.n * b) * s.x == s.y * s.x - (m * s.x) * s.x;
    assert m * Determinant(s) == m * (s.n * s.xx) - m * (s.x * s.x);
    assert s.n * lhs == s.n * s.xy;
    assert s.n * (lhs - s.xy) == 0.0;
  }

  function Mean(p: seq<Point>): real
    requires p != []
    ensures SumsOf(p).n == |p| as real
  {
    CountOf(p);
    SumsOf(p).y / SumsOf(p).n
  }

  lemma {:induction false} CountOf(p: seq<Point>)
    ensures SumsOf(p).n == |p| as real
  {
    if p != [] { CountOf(p[..|p| - 1]); }
  }

  /** The share of the variation around the mean that the line `b + m * x` explains. */
  ghost predicate ExplainedShare(p: seq<Point>, b: real, m: real, share: real)
    requires p != []
  {
    var total := SquaredError(p, Mean(p), 0.0);
    if total > TINY then share * total == total - SquaredError(p, b, m) else share == 0.0
  }

  /** Where the projected line meets the first sample's instant. */
  function InterceptOf(f: Forecast, lastX: real): real { f.projected - f.slopePerHour * lastX }

  /** What a forecast of enough samples, spread over more than one instant, has to be. */
  ghost predicate IsForecast(samples: seq<Sample>, threshold: real, f: Forecast)
    requires samples != []
  {
    var p := Plot(samples, |samples|);
    var b := InterceptOf(f, p[|p| - 1].x);
    && BestLine(p, b, f.slopePerHour)
    && ResidualSum(p, b, f.slopePerHour) == 0.0
    && ExplainedShare(p, b, f.slopePerHour, f.confidence)
    && 0.0 <= f.confidence <= 1.0
    && HitIsCrossing(samples[|samples| - 1].t, f.projected, f.slopePerHour, threshold, f.hits)
  }

  /** The trend is at `threshold` exactly `h` hours after the last sample. */
  ghost predicate Crosses(projected: real, slope: real, threshold: real, h: real) {
    projected + slope * h == threshold
  }

  /** A hit is the one crossing of a sloped trend within the coming year, cut to whole nanoseconds. */
  ghost predicate HitIsCrossing(last: int, projected: real, slope: real, threshold: real, hit: Hit) {
    match hit
    case Never =>
      slope == 0.0 || threshold == 0.0
      || forall h :: 0.0 < h < YEAR_HOURS ==> !Crosses(projected, slope, threshold, h)
    case At(ns) =>
      && slope != 0.0 && threshold != 0.0
      && exists h :: 0.0 < h < YEAR_HOURS && Crosses(projected, slope, threshold, h)
                  && ns == last * MS_NS + (h * HOUR_NS as real).Floor
  }

  lemma OneCrossing(projected: real, slope: real, threshold: real, h: real)
    requires slope != 0.0
    ensures Crosses(projected, slope, threshold, h) <==> h == (threshold - projected) / slope
  {
    var c := (threshold - projected) / slope;
    assert slope * c == threshold - projected;
    if projected + slope * h == threshold {
      assert slope * (h - c) == 0.0;
    }
  }

  method HitTime(last: int, projected: real, slope: real, threshold: real) returns (hit: Hit)
    ensures HitIsCrossing(last, projected, slope, threshold, hit)
  {
    hit := Never;
    if slope != 0.0 && threshold != 0.0 {
      var hoursToHit := (threshold - projected) / slope;
      forall h ensures Crosses(projected, slope, threshold, h) <==> h == hoursToHit {
        OneCrossing(projected, slope, threshold, h);
      }
      hide Crosses;
      if hoursToHit > 0.0 && hoursToHit < YEAR_HOURS {
        hit := At(last * MS_NS + (hoursToHit * HOUR_NS as real).Floor);
        assert Crosses(projected, slope, threshold, hoursToHit);
      }
    }
  }

  /** First pass: the five sums. */
  method Accumulate(samples: seq<Sample>) returns (s: Sums)
    ensures s == SumsOf(Plot(samples, |samples|))
  {
    s := Sums(0.0, 0.0, 0.0, 0.0, 0.0, 0.0);
    hide Add;
    for i := 0 to |samples|
      invariant s == SumsOf(Plot(samples, i))
    {
      assert Plot(samples, i + 1)[..i] == Plot(samples, i);
      s := Add(s, Point(Hours(samples[i].t, samples[0].t), samples[i].v));
    }
  }

  lemma ResidualOfFlatLine(q: Point, mean: real)
    ensures Residual(q, mean, 0.0) == q.y - mean
  {}

  lemma NoError(samples: seq<Sample>, b: real, m: real)
    ensures SquaredError(Plot(samples, 0), b, m) == 0.0
  {}

  lemma ErrorAtSample(samples: seq<Sample>, i: nat, b: real, m: real)
    requires i < |samples|
    ensures SquaredError(Plot(samples, i + 1), b, m) ==
      SquaredError(Plot(samples, i), b, m) +
      Square(Residual(Point(Hours(samples[i].t, samples[0].t), samples[i].v), b, m))
  {
    hide Square, Residual;
    assert Plot(samples, i + 1)[..i] == Plot(samples, i);
  }

  /** Second pass: squared error of the fitted line and of the mean. */
  method Errors(samples: seq<Sample>, b: real, m: real, mean: real) returns (ssRes: real, ssTot: real)
    ensures ssRes == SquaredError(Plot(samples, |samples|), b, m)
    ensures ssTot == SquaredError(Plot(samples, |samples|), mean, 0.0)
  {
    hide Square, Residual, SquaredError, Plot;
    ssRes, ssTot := 0.0, 0.0;
    NoError(samples, b, m);
    NoError(samples, mean, 0.0);
    for i := 0 to |samples|
      invariant ssRes == SquaredError(Plot(samples, i), b, m)
      invariant ssTot == SquaredError(Plot(samples, i), mean, 0.0)
    {
      var q := Point(Hours(samples[i].t, samples[0].t), samples[i].v);
      ErrorAtSample(samples, i, b, m);
      ErrorAtSample(samples, i, mean, 0.0);
      ResidualOfFlatLine(q, mean);
      ssRes := ssRes + Square(Residual(q, b, m));
      ssTot := ssTot + Square(samples[i].v - mean);
    }
  }

  lemma ProductSign(q: real, total: real)
    requires total > 0.0
    ensures q < 0.0 <==> q * total < 0.0
    ensures q > 1.0 <==> q * total > total
  {
    assert (q - 1.0) * total == q * total - total;
  }

  lemma ShareInUnitInterval(part: real, total: real)
    requires 0.0 <= part <= total && total > 0.0
    ensures 0.0 <= 1.0 - part / total <= 1.0
    ensures (1.0 - part / total) * total == total - part
  {
    ProductSign(part / total, total);
  }

  /** Slope and intercept from the sums. */
  method Fit(s: Sums) returns (slope: real, intercept: real)
    requires s.n > 0.0 && Determinant(s) > 0.0
    ensures NormalEquations(s, intercept, slope)
  {
    var denom := Determinant(s);
    slope := (s.n * s.xy - s.x * s.y) / denom;
    intercept := (s.y - slope * s.x) / s.n;
    hide NormalEquations;
    FitSolvesNormalEquations(s, intercept, slope);
  }

  method ComputeForecast(samples: seq<Sample>, threshold: real) returns (f: Forecast)
    ensures |samples| < 10 ==> f == NO_FORECAST
    ensures |samples| >= 10 && PairSpread(Plot(samples, |samples|)) < TINY ==> f == NO_FORECAST
    ensures |samples| >= 10 && PairSpread(Plot(samples, |samples|)) >= TINY ==> IsForecast(samples, threshold, f)
  {
    if |samples| < 10 { return NO_FORECAST; }
    hide *;
    PlotHasAll(samples);
    ghost var p := Plot(samples, |samples|);
    var s := Accumulate(samples);
    DenominatorIsPairSpread(p);
    CountOf(p);
    if -TINY < Determinant(s) < TINY { return NO_FORECAST; }
    var slope, intercept := Fit(s);
    NormalLineIsBest(p, intercept, slope);
    var ssRes, ssTot := Errors(samples, intercept, slope, s.y / s.n);
    var r2 := 0.0;
    if ssTot > TINY { r2 := 1.0 - ssRes / ssTot; }
    Explained(p, intercept, slope, ssRes, ssTot, r2);
    var lastX := Hours(samples[|samples| - 1].t, samples[0].t);
    var projected := intercept + slope * lastX;
    var hit := HitTime(samples[|samples| - 1].t, projected, slope, threshold);
    f := Forecast(slope, projected, hit, r2);
    Assemble(samples, threshold, f, intercept);
  }

  lemma PlotHasAll(samples: seq<Sample>)
    ensures |Plot(samples, |samples|)| == |samples|
  {}

  lemma Assemble(samples: seq<Sample>, threshold: real, f: Forecast, intercept: real)
    requires samples != []
    requires f.projected == intercept + f.slopePerHour * Hours(samples[|samples| - 1].t, samples[0].t)
    requires var p := Plot(samples, |samples|);
      && BestLine(p, intercept, f.slopePerHour)
      && ResidualSum(p, intercept, f.slopePerHour) == 0.0
      && ExplainedShare(p, intercept, f.slopePerHour, f.confidence)
    requires 0.0 <= f.confidence <= 1.0
    requires HitIsCrossing(samples[|samples| - 1].t, f.projected, f.slopePerHour, threshold, f.hits)
    ensures IsForecast(samples, threshold, f)
  {
    hide BestLine, ResidualSum, ExplainedShare, HitIsCrossing, InterceptOf;
    InterceptIsRecovered(f, Hours(samples[|samples| - 1].t, samples[0].t), intercept);
  }

  lemma InterceptIsRecovered(f: Forecast, lastX: real, intercept: real)
    requires f.projected == intercept + f.slopePerHour * lastX
    ensures InterceptOf(f, lastX) == intercept
  {}

  lemma Explained(p: seq<Point>, b: real, m: real, ssRes: real, ssTot: real, share: real)
    requires p != [] && BestLine(p, b, m)
    requires ssRes == SquaredError(p, b, m) && ssTot == SquaredError(p, Mean(p), 0.0)
    requires share == if ssTot > TINY then 1.0 - ssRes / ssTot else 0.0
    ensures ExplainedShare(p, b, m, share) && 0.0 <= share <= 1.0
  {
    ErrorIsNonNegative(p, b, m);
    assert ssRes <= ssTot by { assert BestLine(p, b, m); }
    hide SquaredError, BestLine;
    if ssTot > TINY { ShareInUnitInterval(ssRes, ssTot); }
  }
}
