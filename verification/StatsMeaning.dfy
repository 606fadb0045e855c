/** Units and directions of the metric analyses (internal/ai/stats.go), in plain numbers: hours, weekdays, deviations on
    both sides of the expected value, and the instant a forecast announces. */
module StatsMeaning {
  import opened Series
  import opened Anomalies
  import opened Forecasting

  // ---- anomalies --------------------------------------------------------------------------------

  /** An instant given as week, day of week (day zero of Unix time is a Thursday), hour, and milliseconds into the hour
      goes by the table row of its hour and, with Sunday as 0, its weekday. */
  lemma SlotMeans(week: int, day: nat, hour: nat, ms: nat)
    requires day < 7 && hour < 24 && ms < 3_600_000
    ensures Slot(((week * 7 + day) * 24 + hour) * 3_600_000 + ms) == hour * 7 + (day + 4) % 7
  {
    var hours, days := (week * 7 + day) * 24 + hour, week * 7 + day;
    var t := hours * 3_600_000 + ms;
    assert t / 3_600_000 == hours;
    assert hours % 24 == hour && hours / 24 == days;
    assert t / 86_400_000 == days by { assert t == days * 86_400_000 + (hour * 3_600_000 + ms); }
    assert (days + 4) % 7 == (day + 4) % 7 by { assert days + 4 == week * 7 + (day + 4); }
  }

  /** The expected value is that of the instant's row if the table is complete, otherwise the mean. */
  lemma ExpectedMeans(b: Baseline, week: int, day: nat, hour: nat, ms: nat)
    requires day < 7 && hour < 24 && ms < 3_600_000
    ensures SeasonalExpected(b, ((week * 7 + day) * 24 + hour) * 3_600_000 + ms) ==
      if |b.seasonal| == 168 then b.seasonal[hour * 7 + (day + 4) % 7] else b.mean
  {
    SlotMeans(week, day, hour, ms);
    hide Slot;
  }

  /** A sample deviates when it is more than k times the scale above or below what is expected; the scale is the median
      deviation, or the standard deviation where that is below a billionth. */
  lemma DeviatesMeans(p: Sample, b: Baseline, k: real)
    requires Scale(b) >= 0.000000001
    ensures var scale := if b.mad < 0.000000001 then b.stdDev else b.mad;
      var expected := SeasonalExpected(b, p.t);
      && (Deviates(p, b, k) <==> p.v > expected + k * scale || p.v < expected - k * scale)
      && Measured(p, b).at == p.t && Measured(p, b).value == p.v && Measured(p, b).expected == expected
      && (p.v >= expected ==> expected + Measured(p, b).deviation * scale == p.v)
      && (p.v <= expected ==> expected - Measured(p, b).deviation * scale == p.v)
  {
    hide SeasonalExpected, Slot;
    var scale, gap := Scale(b), Abs(p.v - SeasonalExpected(b, p.t));
    Ratio(gap, scale, k);
    assert Measured(p, b).deviation == gap / scale;
  }

  lemma Ratio(gap: real, scale: real, k: real)
    requires scale > 0.0
    ensures gap / scale * scale == gap && (gap / scale > k <==> gap > k * scale)
  {
    var q := gap / scale;
    assert q * scale == gap;
    if q > k { assert q * scale > k * scale; } else { assert q * scale <= k * scale; }
  }

  /** Where the caller gives none: five times the scale, three samples in a row. */
  lemma DefaultsMean(k: real, minRun: int)
    ensures Sensitivity(k) == if k > 0.0 then k else 5.0
    ensures MinRun(minRun) == if minRun > 0 then minRun else 3
  {}

  // ---- forecasts --------------------------------------------------------------------------------

  /** A sample's abscissa is the hours from the first sample to it, 3,600,000 milliseconds each. */
  lemma HoursMean(samples: seq<Sample>, i: nat)
    requires i < |samples|
    ensures var q := Plot(samples, |samples|)[i];
      q.x * 3_600_000.0 == (samples[i].t - samples[0].t) as real && q.y == samples[i].v
  {
    var d := (samples[i].t - samples[0].t) as real;
    assert d / 3_600_000.0 * 3_600_000.0 == d;
  }

  /** The line that rises by `slope` an hour and is at `value` at hour `x` fits the points best. */
  ghost predicate BestThrough(p: seq<Point>, slope: real, x: real, value: real) {
    exists b :: BestLine(p, b, slope) && b + slope * x == value
  }

  /** `h` hours of 3.6e12 nanoseconds after `last` milliseconds the line is at the threshold, within 8760 hours, and
      `ns` is that instant to the nanosecond. */
  ghost predicate Announces(last: int, f: Forecast, threshold: real, h: real, ns: int) {
    && 0.0 < h < 8760.0 && f.projected + f.slopePerHour * h == threshold
    && ns == last * 1_000_000 + (h * 3_600_000_000_000.0).Floor
  }

  /** What a forecast says: at the last sample the best line is at the projected value, and it rises by the slope each
      hour; an instant is announced only if the line then reaches the threshold, and whenever a sloped line reaches a
      threshold other than zero within the year. */
  lemma ForecastMeans(samples: seq<Sample>, threshold: real, f: Forecast)
    requires samples != [] && IsForecast(samples, threshold, f)
    ensures var p := Plot(samples, |samples|); BestThrough(p, f.slopePerHour, p[|p| - 1].x, f.projected)
    ensures var last := samples[|samples| - 1].t;
      && (f.hits.At? ==> exists h :: Announces(last, f, threshold, h, f.hits.ns))
      && (f.hits == Never && threshold != 0.0 && f.slopePerHour != 0.0 ==>
            forall h, ns :: !Announces(last, f, threshold, h, ns))
  {
    hide BestLine, ResidualSum, ExplainedShare;
    var p := Plot(samples, |samples|);
    var b := InterceptOf(f, p[|p| - 1].x);
    assert BestLine(p, b, f.slopePerHour) && b + f.slopePerHour * p[|p| - 1].x == f.projected;
    HitMeans(samples[|samples| - 1].t, f, threshold);
  }

  lemma HitMeans(last: int, f: Forecast, threshold: real)
    requires HitIsCrossing(last, f.projected, f.slopePerHour, threshold, f.hits)
    ensures f.hits.At? ==> exists h :: Announces(last, f, threshold, h, f.hits.ns)
    ensures f.hits == Never && threshold != 0.0 && f.slopePerHour != 0.0 ==>
      forall h, ns :: !Announces(last, f, threshold, h, ns)
  {
    if f.hits.At? {
      var h :| 0.0 < h < YEAR_HOURS && Crosses(f.projected, f.slopePerHour, threshold, h)
               && f.hits.ns == last * MS_NS + (h * HOUR_NS as real).Floor;
      assert Announces(last, f, threshold, h, f.hits.ns);
    } else {
      forall h, ns | threshold != 0.0 && f.slopePerHour != 0.0 ensures !Announces(last, f, threshold, h, ns) {
        assert 0.0 < h < YEAR_HOURS ==> !Crosses(f.projected, f.slopePerHour, threshold, h);
      }
    }
  }
}
