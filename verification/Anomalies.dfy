/** Run detection over a metric series (internal/ai/stats.go).

    The detector makes one pass with a run counter and a buffer.  Its output is tied to a definition
    that knows neither: a sample is anomalous when it lies in some block of at least `minRun`
    consecutive deviating samples. */
module Anomalies {

  import opened Series

  datatype Baseline = Baseline(mean: real, mad: real, stdDev: real, seasonal: seq<real>)

  datatype Anomaly = Anomaly(at: int, value: real, expected: real, deviation: real)

  /** Row of the hour-of-day by weekday table; day zero of Unix time is a Thursday. */
  function Slot(t: int): (i: nat)
    ensures i < 24 * 7
  {
    var hour := (t / HOUR_MS) % 24;
    var weekday := (t / (24 * HOUR_MS) + 4) % 7;
    hour * 7 + weekday
  }

  function SeasonalExpected(b: Baseline, t: int): real {
    if |b.seasonal| != 24 * 7 then b.mean else b.seasonal[Slot(t)]
  }

  function Abs(x: real): real { if x < 0.0 then -x else x }

  /** The scale deviations are measured in; near-constant series fall back to the standard deviation. */
  function Scale(b: Baseline): real { if b.mad < TINY then b.stdDev else b.mad }

  function Measured(p: Sample, b: Baseline): Anomaly
    requires Scale(b) >= TINY
  {
    var expected := SeasonalExpected(b, p.t);
    Anomaly(p.t, p.v, expected, Abs(p.v - expected) / Scale(b))
  }

  predicate Deviates(p: Sample, b: Baseline, k: real)
    requires Scale(b) >= TINY
  {
    Measured(p, b).deviation > k
  }

  /** Samples `[lo, hi)` all deviate. */
  ghost predicate Block(points: seq<Sample>, b: Baseline, k: real, lo: nat, hi: nat)
    requires Scale(b) >= TINY
  {
    lo <= hi <= |points| && forall i :: lo <= i < hi ==> Deviates(points[i], b, k)
  }

  /** A block that cannot be extended on either side. */
  ghost predicate MaximalBlock(points: seq<Sample>, b: Baseline, k: real, lo: nat, hi: nat)
    requires Scale(b) >= TINY
  {
    && Block(points, b, k, lo, hi)
    && (lo == 0 || !Deviates(points[lo - 1], b, k))
    && (hi == |points| || !Deviates(points[hi], b, k))
  }

  /** Sample `i` lies in a maximal run of at least `minRun` consecutive deviating samples. */
  ghost predicate InLongRun(points: seq<Sample>, b: Baseline, k: real, minRun: nat, i: nat)
    requires Scale(b) >= TINY
  {
    exists lo: nat, hi: nat :: MaximalBlock(points, b, k, lo, hi) && lo <= i < hi && hi - lo >= minRun
  }

  /** The anomalous samples among the first `n`, in order. */
  ghost function Flagged(points: seq<Sample>, b: Baseline, k: real, minRun: nat, n: nat): seq<Anomaly>
    requires Scale(b) >= TINY && n <= |points|
  {
    if n == 0 then []
    else
      Flagged(points, b, k, minRun, n - 1)
      + if InLongRun(points, b, k, minRun, n - 1) then [Measured(points[n - 1], b)] else []
  }

  /** Everything measured in `[lo, hi)`, in order: what the detector's buffer holds. */
  ghost function AllMeasured(points: seq<Sample>, b: Baseline, lo: nat, hi: nat): seq<Anomaly>
    requires Scale(b) >= TINY && lo <= hi <= |points|
  {
    if lo == hi then [] else AllMeasured(points, b, lo, hi - 1) + [Measured(points[hi - 1], b)]
  }

  /** Inside one maximal block the length alone decides, for every sample at once. */
  lemma BlockDecides(points: seq<Sample>, b: Baseline, k: real, minRun: nat, lo: nat, hi: nat, i: nat)
    requires Scale(b) >= TINY
    requires MaximalBlock(points, b, k, lo, hi) && lo <= i < hi
    ensures InLongRun(points, b, k, minRun, i) <==> hi - lo >= minRun
  {
    if InLongRun(points, b, k, minRun, i) {
      var lo': nat, hi': nat :|
        MaximalBlock(points, b, k, lo', hi') && lo' <= i < hi' && hi' - lo' >= minRun;
      assert lo' == lo && hi' == hi;
    }
  }

  /** Closing a maximal block settles all its samples. */
  lemma {:induction false} CloseBlock(points: seq<Sample>, b: Baseline, k: real, minRun: nat,
                                      lo: nat, hi: nat, upTo: nat)
    requires Scale(b) >= TINY
    requires MaximalBlock(points, b, k, lo, hi) && lo <= upTo <= hi
    ensures Flagged(points, b, k, minRun, upTo)
         == Flagged(points, b, k, minRun, lo)
            + if hi - lo >= minRun then AllMeasured(points, b, lo, upTo) else []
  {
    if lo < upTo {
      CloseBlock(points, b, k, minRun, lo, hi, upTo - 1);
      BlockDecides(points, b, k, minRun, lo, hi, upTo - 1);
    }
  }

  lemma SkipQuiet(points: seq<Sample>, b: Baseline, k: real, minRun: nat, n: nat)
    requires Scale(b) >= TINY && n < |points| && !Deviates(points[n], b, k)
    ensures Flagged(points, b, k, minRun, n + 1) == Flagged(points, b, k, minRun, n)
  {
    assert !InLongRun(points, b, k, minRun, n);
  }

  lemma NothingYet(points: seq<Sample>, b: Baseline, k: real, minRun: nat)
    requires Scale(b) >= TINY
    ensures Flagged(points, b, k, minRun, 0) == []
  {}

  /** The output order is the series order, and nothing else is in it. */
  lemma {:induction false} FlaggedIsExact(points: seq<Sample>, b: Baseline, k: real, minRun: nat, n: nat, a: Anomaly)
    requires Scale(b) >= TINY && n <= |points|
    ensures a in Flagged(points, b, k, minRun, n)
       <==> exists i :: 0 <= i < n && InLongRun(points, b, k, minRun, i) && a == Measured(points[i], b)
  {
    if n > 0 {
      FlaggedIsExact(points, b, k, minRun, n - 1, a);
    }
  }

  function MinRun(minRun: int): nat { if minRun <= 0 then 3 else minRun }

  function Sensitivity(k: real): real { if k <= 0.0 then 5.0 else k }

  method DetectAnomalies(points: seq<Sample>, b: Baseline, k: real, minRun: int) returns (anomalies: seq<Anomaly>)
    ensures Scale(b) < TINY ==> anomalies == []
    ensures Scale(b) >= TINY ==>
              anomalies == Flagged(points, b, Sensitivity(k), MinRun(minRun), |points|)
  {
    hide Flagged, InLongRun;
    var limit, need := k, minRun;
    if limit <= 0.0 { limit := 5.0; }
    if need <= 0 { need := 3; }
    var mad := b.mad;
    if mad < TINY { mad := b.stdDev; }
    if mad < TINY { return []; }
    anomalies := [];
    NothingYet(points, b, limit, need);
    var run := 0;
    var runStart: seq<Anomaly> := [];
    for n := 0 to |points|
      invariant 0 <= run <= n
      invariant Block(points, b, limit, n - run, n)
      invariant n - run == 0 || !Deviates(points[n - run - 1], b, limit)
      invariant runStart == AllMeasured(points, b, n - run, n)
      invariant anomalies == Flagged(points, b, limit, need, n - run)
    {
      var p := points[n];
      var expected := SeasonalExpected(b, p.t);
      var dev := Abs(p.v - expected) / mad;
      if dev > limit {
        run := run + 1;
        runStart := runStart + [Anomaly(p.t, p.v, expected, dev)];
      } else {
        CloseBlock(points, b, limit, need, n - run, n, n);
        if run >= need { anomalies := anomalies + runStart; }
        SkipQuiet(points, b, limit, need, n);
        run := 0;
        runStart := [];
      }
    }
    CloseBlock(points, b, limit, need, |points| - run, |points|, |points|);
    if run >= need { anomalies := anomalies + runStart; }
  }
}
