/** The per-source token bucket of the ingress adapters (internal/api/ingress.go).

    Every source keeps a log of its calls.  The bucket arithmetic is connected to a reference
    definition that does not mention tokens at all: a call is accepted exactly when accepting
    it keeps every window that ends with it within `burst + rate * length`. */
module RateLimit {

  const DEFAULT_RATE := 50.0
  const DEFAULT_BURST := 200

  function EffectiveRate(rate: real): real { if rate <= 0.0 then DEFAULT_RATE else rate }

  function EffectiveBurst(burst: int): int { if burst <= 0 then DEFAULT_BURST else burst }

  datatype Bucket = Bucket(tokens: real, last: real)

  /** One call: the clock reading taken under the bucket's lock, the configured limits and the verdict. */
  datatype Call = Call(at: real, rate: real, burst: int, accepted: bool)

  function Min(x: real, y: real): real { if x <= y then x else y }

  /** Tokens earned between two clock readings. */
  function Inflow(rate: real, since: real, until: real): real { (until - since) * rate }

  /** The bucket's content when a call arrives, after the refill and the cap. */
  function Refilled(b: Bucket, now: real, rate: real, burst: int): real {
    Min(b.tokens + Inflow(rate, b.last, now), burst as real)
  }

  function Spend(tokens: real, now: real): Bucket {
    Bucket(if tokens < 1.0 then tokens else tokens - 1.0, now)
  }

  /** Tokens seen by call `j`, replayed from the whole log.  The first call finds a full bucket. */
  ghost function TokensAt(log: seq<Call>, j: nat): real
    requires j < |log|
  {
    if j == 0 then EffectiveBurst(log[0].burst) as real
    else
      Refilled(Spend(TokensAt(log, j - 1), log[j - 1].at),
               log[j].at, EffectiveRate(log[j].rate), EffectiveBurst(log[j].burst))
  }

  ghost predicate Replayed(log: seq<Call>) {
    forall j :: 0 <= j < |log| ==> log[j].accepted == (TokensAt(log, j) >= 1.0)
  }

  ghost predicate FixedLimits(log: seq<Call>, rate: real, burst: int) {
    forall j :: 0 <= j < |log| ==>
      EffectiveRate(log[j].rate) == rate && EffectiveBurst(log[j].burst) == burst
  }

  ghost predicate ClockNeverRunsBack(log: seq<Call>) {
    forall i, j :: 0 <= i <= j < |log| ==> log[i].at <= log[j].at
  }

  /** Calls accepted among `log[lo..hi]`. */
  ghost function Accepted(log: seq<Call>, lo: nat, hi: nat): nat
    requires lo <= hi <= |log|
  {
    if lo == hi then 0 else Accepted(log, lo, hi - 1) + if log[hi - 1].accepted then 1 else 0
  }

  /** What the window from call `i` to call `j` still allows when call `j` arrives. */
  ghost function Headroom(log: seq<Call>, i: nat, j: nat, rate: real, burst: int): real
    requires i <= j < |log|
  {
    burst as real + rate * (log[j].at - log[i].at) - Accepted(log, i, j) as real
  }

  /** The reference definition: accepting call `j` overruns no window that ends with it. */
  ghost predicate FitsEveryWindow(log: seq<Call>, j: nat, rate: real, burst: int)
    requires j < |log|
  {
    forall i: nat :: i <= j ==> Headroom(log, i, j, rate, burst) >= 1.0
  }

  /** The stored bucket is what replaying the source's log leaves behind. */
  ghost predicate Reflects(b: Bucket, log: seq<Call>) {
    && 0 < |log|
    && Replayed(log)
    && b == Spend(TokensAt(log, |log| - 1), log[|log| - 1].at)
  }

  ghost predicate LastVerdictIsGreedy(log: seq<Call>, rate: real, burst: int)
    requires 0 < |log|
  {
    FixedLimits(log, rate, burst) && ClockNeverRunsBack(log) ==>
      var j := |log| - 1;
      log[j].accepted <==> FitsEveryWindow(log, j, rate, burst)
  }

  class Limiter {
    var buckets: map<string, Bucket>
    ghost var logs: map<string, seq<Call>>

    ghost predicate Valid()
      reads this
    {
      && buckets.Keys == logs.Keys
      && forall s :: s in logs ==>
           0 < |logs[s]| && Reflects(buckets[s], logs[s])
    }

    constructor ()
      ensures Valid() && logs == map[]
    {
      buckets, logs := map[], map[];
    }

    ghost function LogOf(source: string): seq<Call>
      reads this
    {
      if source in logs then logs[source] else []
    }

    /** One request of `source`; `created` and `now` are the two clock readings of the call. */
    method AllowRate(source: string, rate: real, burst: int, created: real, now: real) returns (ok: bool)
      requires Valid()
      requires created <= now
      modifies this
      ensures Valid()
      ensures LogOf(source) == old(LogOf(source)) + [Call(now, rate, burst, ok)]
      ensures forall s :: s != source ==> LogOf(s) == old(LogOf(s)) && (s in logs <==> s in old(logs))
      ensures forall s :: s != source && s in old(buckets) ==> s in buckets && buckets[s] == old(buckets[s])
      ensures LastVerdictIsGreedy(LogOf(source), EffectiveRate(rate), EffectiveBurst(burst))
    {
      hide Inflow, TokensAt, Refilled, Spend, Reflects, Replayed, LastVerdictIsGreedy;
      var r, b := rate, burst;
      if r <= 0.0 { r := DEFAULT_RATE; }
      if b <= 0 { b := DEFAULT_BURST; }
      var bucket := Bucket(b as real, created);
      if source in buckets { bucket := buckets[source]; }
      ghost var arrived := bucket;
      ok, bucket := Draw(bucket, now, r, b);
      ghost var log := LogOf(source) + [Call(now, rate, burst, ok)];
      Extend(LogOf(source), log, arrived, bucket);
      LastVerdict(log, r, b);
      buckets := buckets[source := bucket];
      logs := logs[source := log];
    }
  }

  /** Refill, cap and try to take one token; the limits are already defaulted. */
  method Draw(b: Bucket, now: real, rate: real, burst: int) returns (ok: bool, left: Bucket)
    requires rate > 0.0 && burst > 0
    ensures ok == (Refilled(b, now, rate, burst) >= 1.0)
    ensures left == Spend(Refilled(b, now, rate, burst), now)
  {
    hide Inflow;
    var tokens := b.tokens + Inflow(rate, b.last, now);
    if tokens > burst as real { tokens := burst as real; }
    if tokens < 1.0 { return false, Bucket(tokens, now); }
    return true, Bucket(tokens - 1.0, now);
  }

  /** One more call: `found` is the bucket it finds, `left` the one it leaves. */
  lemma Extend(before: seq<Call>, after: seq<Call>, found: Bucket, left: Bucket)
    requires |after| == |before| + 1 && after[..|before|] == before
    requires var c := after[|before|];
      var tokens := Refilled(found, c.at, EffectiveRate(c.rate), EffectiveBurst(c.burst));
      && c.accepted == (tokens >= 1.0)
      && left == Spend(tokens, c.at)
      && (before != [] ==> Reflects(found, before))
      && (before == [] ==> found.tokens == EffectiveBurst(c.burst) as real && found.last <= c.at)
    ensures Reflects(left, after) && Replayed(after)
  {
    hide Refilled, TokensAt;
    TokensAtPrefix(before, after);
    ArrivesWith(before, after, found);
    forall j | 0 <= j < |after| ensures after[j].accepted == (TokensAt(after, j) >= 1.0) {
      if j < |before| { assert after[j] == before[j]; }
    }
  }

  /** The bucket a call finds, refilled, is what replaying the log gives it. */
  lemma ArrivesWith(before: seq<Call>, after: seq<Call>, found: Bucket)
    requires |after| == |before| + 1 && after[..|before|] == before
    requires before != [] ==> Reflects(found, before)
    requires before == [] ==>
      found.tokens == EffectiveBurst(after[0].burst) as real && found.last <= after[0].at
    ensures var c := after[|before|];
      TokensAt(after, |before|) == Refilled(found, c.at, EffectiveRate(c.rate), EffectiveBurst(c.burst))
  {
    hide Inflow;
    TokensAtPrefix(before, after);
    var n := |before|;
    if n == 0 {
      InflowIsNonNegative(EffectiveRate(after[0].rate), found.last, after[0].at);
    } else {
      assert after[n - 1] == before[n - 1];
    }
  }

  lemma LastVerdict(log: seq<Call>, rate: real, burst: int)
    requires 0 < |log| && Replayed(log)
    ensures LastVerdictIsGreedy(log, rate, burst)
  {
    hide FixedLimits, ClockNeverRunsBack, FitsEveryWindow, Replayed;
    if FixedLimits(log, rate, burst) && ClockNeverRunsBack(log) {
      AcceptedIffEveryWindowFits(log, |log| - 1, rate, burst);
    }
  }

  lemma {:induction false} TokensAtPrefix(short: seq<Call>, long: seq<Call>)
    requires short <= long
    ensures forall j: nat :: j < |short| ==> TokensAt(short, j) == TokensAt(long, j)
  {
    forall j: nat | j < |short| ensures TokensAt(short, j) == TokensAt(long, j) {
      TokensAtPrefixOne(short, long, j);
    }
  }

  lemma {:induction false} TokensAtPrefixOne(short: seq<Call>, long: seq<Call>, j: nat)
    requires short <= long && j < |short|
    ensures TokensAt(short, j) == TokensAt(long, j)
  {
    assert short[j] == long[j];
    if j > 0 {
      assert short[j - 1] == long[j - 1];
      TokensAtPrefixOne(short, long, j - 1);
    }
  }

  /** What a window may carry: `rate` for every second of it. */
  lemma InflowIs(rate: real, a: real, b: real)
    ensures Inflow(rate, a, b) == rate * (b - a)
  {}

  /** Limits that are not set are 50 a second and a burst of 200. */
  lemma LimitsMean(rate: real, burst: int)
    ensures EffectiveRate(rate) == if rate > 0.0 then rate else 50.0
    ensures EffectiveBurst(burst) == if burst > 0 then burst else 200
  {}

  lemma WindowsAddUp(rate: real, a: real, b: real, c: real)
    ensures Inflow(rate, a, c) == Inflow(rate, a, b) + Inflow(rate, b, c)
  {}

  lemma HeadroomStep(log: seq<Call>, i: nat, j: nat, rate: real, burst: int)
    requires i < j < |log|
    ensures Headroom(log, i, j, rate, burst)
         == Headroom(log, i, j - 1, rate, burst) + Inflow(rate, log[j - 1].at, log[j].at)
            - if log[j - 1].accepted then 1.0 else 0.0
  {
    hide Inflow;
    WindowsAddUp(rate, log[i].at, log[j - 1].at, log[j].at);
    InflowIs(rate, log[i].at, log[j].at);
    InflowIs(rate, log[i].at, log[j - 1].at);
  }

  lemma TokensStep(log: seq<Call>, j: nat, rate: real, burst: int)
    requires 0 < j < |log| && Replayed(log)
    requires FixedLimits(log, rate, burst)
    ensures TokensAt(log, j) ==
      Min(TokensAt(log, j - 1) - (if log[j - 1].accepted then 1.0 else 0.0)
          + Inflow(rate, log[j - 1].at, log[j].at), burst as real)
  {
    hide Inflow;
    assert EffectiveRate(log[j].rate) == rate && EffectiveBurst(log[j].burst) == burst;
    assert log[j - 1].accepted == (TokensAt(log, j - 1) >= 1.0);
  }

  lemma InflowIsNonNegative(rate: real, a: real, b: real)
    requires rate > 0.0 && a <= b
    ensures Inflow(rate, a, b) >= 0.0
  {}

  lemma LimitsArePositive(log: seq<Call>, j: nat, rate: real, burst: int)
    requires j < |log| && FixedLimits(log, rate, burst)
    ensures rate > 0.0 && burst >= 1
    ensures TokensAt(log, 0) == burst as real
  {
    assert EffectiveRate(log[j].rate) == rate && EffectiveBurst(log[0].burst) == burst;
  }

  lemma HeadroomOfOneCall(log: seq<Call>, j: nat, rate: real, burst: int)
    requires j < |log|
    ensures Headroom(log, j, j, rate, burst) == burst as real
  {}

  lemma {:induction false} TokensAreNonNegative(log: seq<Call>, j: nat, rate: real, burst: int)
    requires j < |log| && Replayed(log) && ClockNeverRunsBack(log)
    requires FixedLimits(log, rate, burst)
    ensures TokensAt(log, j) >= 0.0
  {
    hide Inflow;
    LimitsArePositive(log, j, rate, burst);
    if j > 0 {
      TokensAreNonNegative(log, j - 1, rate, burst);
      TokensStep(log, j, rate, burst);
      InflowIsNonNegative(rate, log[j - 1].at, log[j].at);
    }
  }

  /** The bucket holds the smallest headroom over all windows, and some window attains it. */
  lemma {:induction false} TokensAreLeastHeadroom(log: seq<Call>, j: nat, rate: real, burst: int) returns (tight: nat)
    requires j < |log| && Replayed(log) && ClockNeverRunsBack(log)
    requires FixedLimits(log, rate, burst)
    ensures forall i: nat :: i <= j ==> TokensAt(log, j) <= Headroom(log, i, j, rate, burst)
    ensures tight <= j && TokensAt(log, j) == Headroom(log, tight, j, rate, burst)
  {
    hide TokensAt, Headroom, Inflow, Replayed, ClockNeverRunsBack, FixedLimits;
    LimitsArePositive(log, j, rate, burst);
    HeadroomOfOneCall(log, j, rate, burst);
    tight := j;
    if j > 0 {
      var k := TokensAreLeastHeadroom(log, j - 1, rate, burst);
      TokensStep(log, j, rate, burst);
      forall i: nat | i < j
        ensures TokensAt(log, j) <= Headroom(log, i, j, rate, burst)
      {
        HeadroomStep(log, i, j, rate, burst);
      }
      HeadroomStep(log, k, j, rate, burst);
      tight := if TokensAt(log, j) == burst as real then j else k;
    }
  }

  /** The token bucket is exactly the greedy limiter that keeps every window within its allowance. */
  lemma {:induction false} AcceptedIffEveryWindowFits(log: seq<Call>, j: nat, rate: real, burst: int)
    requires j < |log| && Replayed(log) && ClockNeverRunsBack(log)
    requires FixedLimits(log, rate, burst)
    ensures log[j].accepted <==> FitsEveryWindow(log, j, rate, burst)
  {
    hide Inflow, Headroom;
    var tight := TokensAreLeastHeadroom(log, j, rate, burst);
  }

  /** A window from one call to another. */
  lemma {:induction false} CallWindowBound(log: seq<Call>, i: nat, j: nat, rate: real, burst: int)
    requires i <= j < |log| && Replayed(log) && ClockNeverRunsBack(log)
    requires FixedLimits(log, rate, burst)
    ensures Accepted(log, i, j + 1) as real <= burst as real + rate * (log[j].at - log[i].at)
  {
    hide TokensAt;
    TokensAreNonNegative(log, j, rate, burst);
    var tight := TokensAreLeastHeadroom(log, j, rate, burst);
    assert TokensAt(log, j) <= Headroom(log, i, j, rate, burst);
  }

  /** How many of the first `n` calls were accepted at instants in [a, b]. */
  ghost function AcceptedWithin(log: seq<Call>, n: nat, a: real, b: real): nat
    requires n <= |log|
  {
    if n == 0 then 0
    else AcceptedWithin(log, n - 1, a, b) + if log[n - 1].accepted && a <= log[n - 1].at <= b then 1 else 0
  }

  lemma {:induction false} AcceptedGrows(log: seq<Call>, lo: nat, mid: nat, hi: nat)
    requires lo <= mid <= hi <= |log|
    ensures Accepted(log, lo, mid) <= Accepted(log, lo, hi)
    decreases hi - mid
  {
    if mid < hi { AcceptedGrows(log, lo, mid, hi - 1); }
  }

  /** The calls of a window lie between its first and its last. */
  lemma {:induction false} CallsOfWindow(log: seq<Call>, n: nat, a: real, b: real) returns (i: nat, j: nat)
    requires n <= |log|
    ensures AcceptedWithin(log, n, a, b) > 0 ==>
      i <= j < n && a <= log[i].at && log[j].at <= b && AcceptedWithin(log, n, a, b) <= Accepted(log, i, j + 1)
  {
    i, j := 0, 0;
    if n > 0 {
      i, j := CallsOfWindow(log, n - 1, a, b);
      if log[n - 1].accepted && a <= log[n - 1].at <= b {
        if AcceptedWithin(log, n - 1, a, b) == 0 {
          i := n - 1;
          assert Accepted(log, n - 1, n - 1) == 0;
        } else {
          AcceptedGrows(log, i, j + 1, n - 1);
        }
        j := n - 1;
      }
    }
  }

  lemma LongerAdmitsMore(rate: real, x: real, y: real, a: real, b: real)
    requires rate > 0.0 && y - x <= b - a
    ensures Inflow(rate, x, y) <= Inflow(rate, a, b)
  {}

  lemma CallWindowInflow(log: seq<Call>, i: nat, j: nat, rate: real, burst: int)
    requires i <= j < |log| && Replayed(log) && ClockNeverRunsBack(log) && FixedLimits(log, rate, burst)
    ensures Accepted(log, i, j + 1) as real <= burst as real + Inflow(rate, log[i].at, log[j].at)
  {
    hide *;
    CallWindowBound(log, i, j, rate, burst);
    InflowIs(rate, log[i].at, log[j].at);
  }

  lemma WindowInflow(log: seq<Call>, a: real, b: real, rate: real, burst: int)
    requires Replayed(log) && ClockNeverRunsBack(log) && FixedLimits(log, rate, burst)
    requires a <= b && rate > 0.0 && burst >= 1
    ensures AcceptedWithin(log, |log|, a, b) as real <= burst as real + Inflow(rate, a, b)
  {
    hide *;
    InflowIsNonNegative(rate, a, b);
    var i, j := CallsOfWindow(log, |log|, a, b);
    if AcceptedWithin(log, |log|, a, b) > 0 {
      CallWindowInflow(log, i, j, rate, burst);
      LongerAdmitsMore(rate, log[i].at, log[j].at, a, b);
    }
  }

  /** Between any two instants no more calls are accepted than the burst plus what the rate admits in that time. */
  lemma WindowBound(log: seq<Call>, a: real, b: real, rate: real, burst: int)
    requires Replayed(log) && ClockNeverRunsBack(log) && FixedLimits(log, rate, burst)
    requires a <= b && rate > 0.0 && burst >= 1
    ensures AcceptedWithin(log, |log|, a, b) as real <= burst as real + rate * (b - a)
  {
    hide *;
    WindowInflow(log, a, b, rate, burst);
    InflowIs(rate, a, b);
  }

  /** A source that waits at least 1/rate between calls is never refused. */
  lemma {:induction false} SpacedCallsAreNeverRefused(log: seq<Call>, j: nat, rate: real, burst: int)
    requires j < |log| && Replayed(log) && FixedLimits(log, rate, burst)
    requires forall k :: 0 < k < |log| ==> log[k].at - log[k - 1].at >= 1.0 / EffectiveRate(log[k].rate)
    ensures log[j].accepted
  {
    SpacedTokens(log, j, rate, burst);
  }

  lemma GapEarnsAToken(rate: real, since: real, until: real)
    requires rate > 0.0 && until - since >= 1.0 / rate
    ensures Inflow(rate, since, until) >= 1.0
  {
    var gap, least := until - since, 1.0 / rate;
    assert least * rate == 1.0;
    assert (gap - least) * rate >= 0.0;
  }

  lemma {:induction false} SpacedTokens(log: seq<Call>, j: nat, rate: real, burst: int)
    requires j < |log| && Replayed(log) && FixedLimits(log, rate, burst)
    requires forall k :: 0 < k < |log| ==> log[k].at - log[k - 1].at >= 1.0 / EffectiveRate(log[k].rate)
    ensures TokensAt(log, j) >= 1.0
  {
    hide Inflow, TokensAt, Replayed;
    LimitsArePositive(log, j, rate, burst);
    if j > 0 {
      SpacedTokens(log, j - 1, rate, burst);
      TokensStep(log, j, rate, burst);
      assert EffectiveRate(log[j].rate) == rate;
      GapEarnsAToken(rate, log[j - 1].at, log[j].at);
    }
  }
}
