/** Downtime accounting for business services (internal/api/business.go).

    Time is counted in whole nanoseconds.  The cursor arithmetic of the code is tied to a measure: the
    number of instants of the window that satisfy a predicate on single instants. */
module Sla {

  const MINUTE := 60_000_000_000
  const OK := 0

  // ---- what happened ----------------------------------------------------------------------------

  /** The payload of a state-change event; `Malformed` is one that does not decode. */
  datatype Change = Malformed | Soft(to: int) | Hard(to: int)
  datatype Event = Event(ts: int, change: Change)

  ghost predicate InOrder(events: seq<Event>) {
    forall i, j :: 0 <= i <= j < |events| ==> events[i].ts <= events[j].ts
  }

  ghost predicate InWindow(events: seq<Event>, since: int, until: int) {
    forall i :: 0 <= i < |events| ==> since <= events[i].ts < until
  }

  /** The state announced by the latest hard event at or before `t`; OK when there is none. */
  ghost function StateAt(events: seq<Event>, t: int): int {
    if events == [] then OK
    else
      var last := events[|events| - 1];
      if last.ts <= t && last.change.Hard? then last.change.to
      else StateAt(events[..|events| - 1], t)
  }

  datatype Spell = Healthy | BadSince(start: int)

  /** The spell an object is in once all of `events` have happened. */
  ghost function SpellAfter(events: seq<Event>): Spell {
    if events == [] then Healthy
    else
      var before, last := SpellAfter(events[..|events| - 1]), events[|events| - 1];
      if !last.change.Hard? then before
      else if last.change.to == OK then Healthy
      else if before.BadSince? then before
      else BadSince(last.ts)
  }

  ghost function SpellAt(events: seq<Event>, t: int): Spell {
    if events != [] && events[|events| - 1].ts > t then SpellAt(events[..|events| - 1], t)
    else SpellAfter(events)
  }

  // ---- scheduled downtimes ----------------------------------------------------------------------

  /** `Recurring` stands for the RRULE evaluation, which this model takes as given. */
  datatype Window =
    | Fixed(start: int, end: int)
    | Flexible(started: bool, startedAt: int, length: int)
    | Recurring(occurs: int -> bool)

  datatype Downtime = Downtime(objectId: string, selector: string, window: Window)

  predicate ActiveAt(d: Downtime, t: int) {
    match d.window
    case Fixed(start, end) => start <= t < end
    case Flexible(started, at, length) => started && at <= t < at + length
    case Recurring(occurs) => occurs(t)
  }

  predicate Covered(mine: seq<Downtime>, t: int) {
    exists i :: 0 <= i < |mine| && ActiveAt(mine[i], t)
  }

  function FloorMinute(t: int): int { t - t % MINUTE }

  function Max(a: int, b: int): int { if a >= b then a else b }

  /** The instant at which the code looks whether `t`, part of a span from `start`, is covered. */
  function Probe(start: int, t: int): int { Max(start, FloorMinute(t)) }

  ghost predicate MinuteAligned(mine: seq<Downtime>) {
    forall t :: Covered(mine, t) == Covered(mine, FloorMinute(t))
  }

  // ---- measures ---------------------------------------------------------------------------------

  /** How many instants of `[lo, hi)` satisfy `f`. */
  ghost function Measure(lo: int, hi: int, f: int -> bool): nat
    decreases hi - lo
  {
    if hi <= lo then 0 else Measure(lo, hi - 1, f) + if f(hi - 1) then 1 else 0
  }

  lemma {:induction false} MeasureSplits(lo: int, mid: int, hi: int, f: int -> bool)
    requires lo <= mid <= hi
    ensures Measure(lo, hi, f) == Measure(lo, mid, f) + Measure(mid, hi, f)
    decreases hi - mid
  {
    if mid < hi { MeasureSplits(lo, mid, hi - 1, f); }
  }

  lemma {:induction false} MeasureAgrees(lo: int, hi: int, f: int -> bool, g: int -> bool)
    requires forall t :: lo <= t < hi ==> f(t) == g(t)
    ensures Measure(lo, hi, f) == Measure(lo, hi, g)
    decreases hi - lo
  {
    if lo < hi { MeasureAgrees(lo, hi - 1, f, g); }
  }

  lemma {:induction false} MeasureComplement(lo: int, hi: int, f: int -> bool, g: int -> bool)
    requires lo <= hi && forall t :: lo <= t < hi ==> f(t) == !g(t)
    ensures Measure(lo, hi, f) + Measure(lo, hi, g) == hi - lo
    decreases hi - lo
  {
    if lo < hi { MeasureComplement(lo, hi - 1, f, g); }
  }

  lemma {:induction false} MeasureOfNothing(lo: int, hi: int, f: int -> bool)
    ensures Measure(lo, hi, f) == 0 <==> forall t :: lo <= t < hi ==> !f(t)
    decreases hi - lo
  {
    if lo < hi { MeasureOfNothing(lo, hi - 1, f); }
  }

  lemma {:induction false} MeasureOfAll(lo: int, hi: int, f: int -> bool)
    requires lo <= hi && forall t :: lo <= t < hi ==> f(t)
    ensures Measure(lo, hi, f) == hi - lo
    decreases hi - lo
  {
    if lo < hi { MeasureOfAll(lo, hi - 1, f); }
  }

  // ---- spells and states ------------------------------------------------------------------------

  /** In a time-ordered history being in a bad spell means the latest hard event is non-OK. */
  lemma {:induction false} SpellIsState(events: seq<Event>, t: int)
    requires InOrder(events)
    ensures SpellAt(events, t).BadSince? <==> StateAt(events, t) != OK
  {
    if events != [] {
      var init, last := events[..|events| - 1], events[|events| - 1];
      SpellIsState(init, t);
      if last.ts <= t {
        assert SpellAt(init, t) == SpellAfter(init) by {
          if init != [] { assert init[|init| - 1].ts <= last.ts; }
        }
      }
    }
  }

  /** Between two neighbouring events nothing changes. */
  lemma {:induction false} SpellBetweenEvents(events: seq<Event>, k: nat, t: int)
    requires InOrder(events) && k <= |events|
    requires k > 0 ==> events[k - 1].ts <= t
    requires k < |events| ==> t < events[k].ts
    ensures SpellAt(events, t) == SpellAfter(events[..k])
    decreases |events| - k
  {
    if k < |events| {
      var init := events[..|events| - 1];
      SpellBetweenEvents(init, k, t);
      assert init[..k] == events[..k];
    } else {
      assert events[..k] == events;
    }
  }

  /** The instants charged as downtime: a bad spell, not excused at the probe instant. */
  ghost predicate Charged(events: seq<Event>, mine: seq<Downtime>, t: int) {
    var s := SpellAt(events, t);
    s.BadSince? && !Covered(mine, Probe(s.start, t))
  }

  // ---- the sampling closure ---------------------------------------------------------------------

  /** One probe at `t` speaks for every instant up to the next minute mark. */
  lemma ProbeWithinMinute(start: int, t: int)
    requires start <= t && (t == start || t == FloorMinute(t))
    ensures t < FloorMinute(t) + MINUTE
    ensures FloorMinute(FloorMinute(t) + MINUTE) == FloorMinute(t) + MINUTE
    ensures forall u :: t <= u < FloorMinute(t) + MINUTE ==> Probe(start, u) == t
  {
    forall u | t <= u < FloorMinute(t) + MINUTE ensures Probe(start, u) == t {
      assert FloorMinute(u) == FloorMinute(t);
    }
  }

  method AnyActive(mine: seq<Downtime>, t: int) returns (covered: bool)
    ensures covered == Covered(mine, t)
  {
    for i := 0 to |mine|
      invariant forall j :: 0 <= j < i ==> !ActiveAt(mine[j], t)
    {
      if ActiveAt(mine[i], t) { return true; }
    }
    return false;
  }

  /** How much of `[start, end)` the downtimes cover, probed once a minute. */
  method InDowntime(mine: seq<Downtime>, start: int, end: int) returns (inside: int)
    requires start <= end
    ensures inside == Measure(start, end, t => Covered(mine, Probe(start, t)))
  {
    hide FloorMinute, Covered, Probe;
    ghost var f := t => Covered(mine, Probe(start, t));
    inside := 0;
    var t := start;
    while t < end
      invariant start <= t <= end
      invariant t == start || t == end || t == FloorMinute(t)
      invariant inside == Measure(start, t, f)
    {
      ProbeWithinMinute(start, t);
      var next := FloorMinute(t) + MINUTE;
      if next > end { next := end; }
      var covered := AnyActive(mine, t);
      MeasureSplits(start, t, next, f);
      if covered {
        MeasureOfAll(t, next, f);
        inside := inside + (next - t);
      } else {
        MeasureOfNothing(t, next, f);
      }
      t := next;
    }
  }

  // ---- one object -------------------------------------------------------------------------------

  /** A finished spell `[start, end)` is charged for exactly its uncovered instants. */
  method ChargeSpell(events: seq<Event>, mine: seq<Downtime>, start: int, end: int) returns (span: int)
    requires start <= end
    requires forall t :: start <= t < end ==> SpellAt(events, t) == BadSince(start)
    ensures span == Measure(start, end, t => Charged(events, mine, t))
  {
    hide Covered, Probe, SpellAt;
    ghost var charged := t => Charged(events, mine, t);
    ghost var excused := t => Covered(mine, Probe(start, t));
    span := end - start;
    if |mine| > 0 {
      var inside := InDowntime(mine, start, end);
      span := span - inside;
      MeasureComplement(start, end, charged, excused);
    } else {
      NothingCovers(mine);
      MeasureOfAll(start, end, charged);
    }
  }

  lemma NothingCovers(mine: seq<Downtime>)
    requires |mine| == 0
    ensures forall t :: !Covered(mine, t)
  {}

  /** The instant up to which the first `k` events have been accounted for. */
  ghost function Accounted(events: seq<Event>, since: int, k: nat): int
    requires k <= |events|
  {
    if k == 0 then since else events[k - 1].ts
  }

  /** Between two events the spell is the one the earlier events left. */
  lemma SpellHolds(events: seq<Event>, since: int, until: int, k: nat)
    requires since <= until && InOrder(events) && InWindow(events, since, until) && k <= |events|
    ensures var end := if k < |events| then events[k].ts else until;
      && since <= Accounted(events, since, k) <= end <= until
      && forall t :: Accounted(events, since, k) <= t < end ==> SpellAt(events, t) == SpellAfter(events[..k])
  {
    var end := if k < |events| then events[k].ts else until;
    forall t | Accounted(events, since, k) <= t < end
      ensures SpellAt(events, t) == SpellAfter(events[..k])
    {
      SpellBetweenEvents(events, k, t);
    }
  }

  lemma NextSpell(events: seq<Event>, k: nat)
    requires k < |events|
    ensures SpellAfter(events[..k + 1]) ==
      var before, e := SpellAfter(events[..k]), events[k];
      if !e.change.Hard? then before
      else if e.change.to == OK then Healthy
      else if before.BadSince? then before
      else BadSince(e.ts)
  {
    assert events[..k + 1][..k] == events[..k];
  }

  method ObjectDowntime(events: seq<Event>, mine: seq<Downtime>, since: int, until: int) returns (down: int)
    requires since <= until && InOrder(events) && InWindow(events, since, until)
    ensures down == Measure(since, until, t => Charged(events, mine, t))
    ensures 0 <= down <= until - since
  {
    hide SpellAt, SpellAfter, Charged, InOrder, InWindow;
    ghost var charged := t => Charged(events, mine, t);
    down := 0;
    var cursor := since;
    var bad := false;
    SpellAtStart(events);
    SpellHolds(events, since, until, 0);
    for k := 0 to |events|
      invariant SpellAfter(events[..k]) == if bad then BadSince(cursor) else Healthy
      invariant since <= Accounted(events, since, k) <= until
      invariant bad ==> since <= cursor <= Accounted(events, since, k)
      invariant bad ==> forall t :: cursor <= t < Accounted(events, since, k) ==> SpellAt(events, t) == BadSince(cursor)
      invariant down == Measure(since, if bad then cursor else Accounted(events, since, k), charged)
    {
      SpellHolds(events, since, until, k);
      NextSpell(events, k);
      var e := events[k];
      if !bad { Quiet(events, mine, since, Accounted(events, since, k), e.ts); }
      if e.change.Hard? {
        var nowBad := e.change.to != OK;
        if bad && !nowBad {
          var span := ChargeSpell(events, mine, cursor, e.ts);
          MeasureSplits(since, cursor, e.ts, charged);
          down := down + span;
        }
        if nowBad && !bad { cursor := e.ts; }
        bad := nowBad;
      }
    }
    SpellHolds(events, since, until, |events|);
    if bad {
      var span := ChargeSpell(events, mine, cursor, until);
      MeasureSplits(since, cursor, until, charged);
      down := down + span;
    } else {
      Quiet(events, mine, since, Accounted(events, since, |events|), until);
    }
    MeasureComplement(since, until, charged, t => !charged(t));
  }

  lemma SpellAtStart(events: seq<Event>)
    ensures SpellAfter(events[..0]) == Healthy
  {}

  /** A healthy stretch adds nothing. */
  lemma Quiet(events: seq<Event>, mine: seq<Downtime>, since: int, lo: int, hi: int)
    requires since <= lo <= hi
    requires forall t :: lo <= t < hi ==> SpellAt(events, t) == Healthy
    ensures var f := t => Charged(events, mine, t); Measure(since, hi, f) == Measure(since, lo, f)
  {
    hide SpellAt;
    var f := t => Charged(events, mine, t);
    MeasureSplits(since, lo, hi, f);
    MeasureOfNothing(lo, hi, f);
  }

  /** The charge is the true one: instants that are non-OK and outside every downtime. */
  ghost predicate ChargeIsExact(events: seq<Event>, mine: seq<Downtime>, since: int, until: int) {
    Measure(since, until, t => Charged(events, mine, t))
    == Measure(since, until, t => StateAt(events, t) != OK && !Covered(mine, t))
  }

  lemma AlignedIsExact(events: seq<Event>, mine: seq<Downtime>, since: int, until: int)
    requires InOrder(events) && MinuteAligned(mine)
    ensures ChargeIsExact(events, mine, since, until)
  {
    hide Covered, StateAt, InOrder;
    forall t ensures Charged(events, mine, t) == (StateAt(events, t) != OK && !Covered(mine, t)) {
      SpellIsState(events, t);
      if SpellAt(events, t).BadSince? {
        SpellStartsEarlier(events, t);
        ProbeIsExact(mine, SpellAt(events, t).start, t);
      }
    }
    MeasureAgrees(since, until, t => Charged(events, mine, t), t => StateAt(events, t) != OK && !Covered(mine, t));
  }

  lemma ProbeIsExact(mine: seq<Downtime>, start: int, t: int)
    requires start <= t && MinuteAligned(mine)
    ensures Covered(mine, Probe(start, t)) == Covered(mine, t)
  {
    assert Covered(mine, t) == Covered(mine, FloorMinute(t));
    assert Covered(mine, start) == Covered(mine, FloorMinute(start));
    if FloorMinute(t) < start { assert FloorMinute(start) == FloorMinute(t); }
  }

  lemma {:induction false} SpellStartsEarlier(events: seq<Event>, t: int)
    requires InOrder(events)
    ensures SpellAt(events, t).BadSince? ==> SpellAt(events, t).start <= t
  {
    if events != [] {
      var init, last := events[..|events| - 1], events[|events| - 1];
      SpellStartsEarlier(init, t);
      if last.ts <= t && init != [] {
        assert init[|init| - 1].ts <= last.ts;
      }
    }
  }

  /** One-off downtimes whose ends are minute marks are aligned. */
  lemma FixedOnMinutesIsAligned(mine: seq<Downtime>)
    requires forall i :: 0 <= i < |mine| ==>
      mine[i].window.Fixed? && FloorMinute(mine[i].window.start) == mine[i].window.start
                            && FloorMinute(mine[i].window.end) == mine[i].window.end
    ensures MinuteAligned(mine)
  {
    forall t, i | 0 <= i < |mine| ensures ActiveAt(mine[i], t) == ActiveAt(mine[i], FloorMinute(t)) {
      MarksDoNotSplitMinutes(mine[i].window.start, t);
      MarksDoNotSplitMinutes(mine[i].window.end, t);
    }
    hide FloorMinute, ActiveAt;
    forall t ensures Covered(mine, t) == Covered(mine, FloorMinute(t)) {
      if Covered(mine, t) {
        var i :| 0 <= i < |mine| && ActiveAt(mine[i], t);
        assert ActiveAt(mine[i], FloorMinute(t));
      }
    }
  }

  lemma MarksDoNotSplitMinutes(mark: int, t: int)
    requires FloorMinute(mark) == mark
    ensures mark <= t <==> mark <= FloorMinute(t)
  {}

  /** The first instant after a minute mark whose cover differs from the mark's. */
  lemma {:induction false} FirstMisaligned(mine: seq<Downtime>, mark: int, t: int) returns (u: int)
    requires mark <= t && Covered(mine, t) != Covered(mine, mark)
    ensures mark < u <= t && Covered(mine, u) != Covered(mine, mark)
    ensures forall v :: mark <= v < u ==> Covered(mine, v) == Covered(mine, mark)
    decreases t - mark
  {
    hide Covered;
    if v :| mark <= v < t && Covered(mine, v) != Covered(mine, mark) {
      u := FirstMisaligned(mine, mark, v);
    } else {
      u := t;
    }
  }

  /** Minute alignment is exactly what the accounting needs: any other set of downtimes is charged
      wrongly for some history. */
  lemma ExactForEveryHistoryIffAligned(mine: seq<Downtime>)
    ensures MinuteAligned(mine) <==>
      forall events, since, until ::
        InOrder(events) && InWindow(events, since, until) ==> ChargeIsExact(events, mine, since, until)
  {
    hide ChargeIsExact, InOrder, InWindow, MinuteAligned;
    if MinuteAligned(mine) {
      forall events, since, until | InOrder(events) && InWindow(events, since, until)
        ensures ChargeIsExact(events, mine, since, until)
      {
        AlignedIsExact(events, mine, since, until);
      }
    } else {
      var events, since, until := Mischarged(mine);
    }
  }

  lemma Mischarged(mine: seq<Downtime>) returns (events: seq<Event>, since: int, until: int)
    requires !MinuteAligned(mine)
    ensures InOrder(events) && InWindow(events, since, until) && !ChargeIsExact(events, mine, since, until)
  {
    hide Covered, ChargeIsExact;
    var t :| Covered(mine, t) != Covered(mine, FloorMinute(t));
    since := FloorMinute(t);
    var u := FirstMisaligned(mine, since, t);
    until := u + 1;
    events := [Event(since, Hard(2))];
    LastInstantIsMischarged(mine, since, u);
  }

  /** One outage from a minute mark to the first instant whose cover differs: that instant is charged wrongly. */
  lemma LastInstantIsMischarged(mine: seq<Downtime>, since: int, u: int)
    requires FloorMinute(since) == since && since < u < since + MINUTE && Covered(mine, u) != Covered(mine, since)
    requires forall v :: since <= v < u ==> Covered(mine, v) == Covered(mine, since)
    ensures !ChargeIsExact([Event(since, Hard(2))], mine, since, u + 1)
  {
    hide Covered, Charged, StateAt, FloorMinute;
    var events := [Event(since, Hard(2))];
    var charged := t => Charged(events, mine, t);
    var exact := t => StateAt(events, t) != OK && !Covered(mine, t);
    forall v | since <= v <= u ensures charged(v) == !Covered(mine, since) && exact(v) == !Covered(mine, v) {
      OneOutage(mine, since, v);
    }
    MeasureAgrees(since, u, charged, exact);
  }

  /** Within the minute that starts with the object going down, the minute mark decides. */
  lemma OneOutage(mine: seq<Downtime>, since: int, v: int)
    requires since <= v < since + MINUTE && FloorMinute(since) == since
    ensures Charged([Event(since, Hard(2))], mine, v) == !Covered(mine, since)
    ensures StateAt([Event(since, Hard(2))], v) != OK
  {
    hide Covered;
    var e := Event(since, Hard(2));
    assert [e][..0] == [];
    assert SpellAfter([e]) == BadSince(since);
    assert FloorMinute(v) == since;
  }

  // ---- which downtimes concern an object --------------------------------------------------------

  /** What the catalog answers: the services of a host, and the objects a selector matches (nothing
      when the selector does not parse). */
  datatype Directory = Directory(children: string -> seq<string>, matches: string -> seq<string>)

  predicate Concerns(d: Downtime, objectId: string, dir: Directory) {
    || d.objectId == objectId
    || (d.objectId != "" && objectId in dir.children(d.objectId))
    || (d.objectId == "" && d.selector != "" && objectId in dir.matches(d.selector))
  }

  /** The downtimes of `dts` that concern the object, each once and in order. */
  ghost function Concerning(dts: seq<Downtime>, objectId: string, dir: Directory): seq<Downtime> {
    if dts == [] then []
    else
      var d := dts[|dts| - 1];
      Concerning(dts[..|dts| - 1], objectId, dir) + if Concerns(d, objectId, dir) then [d] else []
  }

  method Contains(ids: seq<string>, id: string) returns (found: bool)
    ensures found <==> id in ids
  {
    for i := 0 to |ids|
      invariant id !in ids[..i]
    {
      if ids[i] == id { return true; }
    }
    return false;
  }

  method ForObject(dts: seq<Downtime>, objectId: string, dir: Directory) returns (mine: seq<Downtime>)
    ensures mine == Concerning(dts, objectId, dir)
  {
    mine := [];
    for i := 0 to |dts|
      invariant mine == Concerning(dts[..i], objectId, dir)
    {
      var d := dts[i];
      assert dts[..i + 1][..i] == dts[..i];
      if d.objectId == objectId {
        mine := mine + [d];
      } else if d.objectId != "" {
        var found := Contains(dir.children(d.objectId), objectId);
        if found { mine := mine + [d]; }
      } else if d.selector != "" {
        var found := Contains(dir.matches(d.selector), objectId);
        if found { mine := mine + [d]; }
      }
    }
    assert dts[..|dts|] == dts;
  }

  lemma {:induction false} CoverIsAnyConcerningDowntime(dts: seq<Downtime>, objectId: string, dir: Directory, t: int)
    ensures Covered(Concerning(dts, objectId, dir), t)
       <==> exists i :: 0 <= i < |dts| && Concerns(dts[i], objectId, dir) && ActiveAt(dts[i], t)
  {
    if dts != [] {
      var init := dts[..|dts| - 1];
      CoverIsAnyConcerningDowntime(init, objectId, dir, t);
      hide Concerns, ActiveAt;
      var rest := Concerning(init, objectId, dir);
      var all := Concerning(dts, objectId, dir);
      assert forall i :: 0 <= i < |rest| ==> all[i] == rest[i];
      if i :| 0 <= i < |init| && Concerns(init[i], objectId, dir) && ActiveAt(init[i], t) {
        assert dts[i] == init[i];
        var j :| 0 <= j < |rest| && ActiveAt(rest[j], t);
        assert ActiveAt(all[j], t);
      }
      if Concerns(dts[|init|], objectId, dir) { assert all[|rest|] == dts[|init|]; }
    }
  }

  // ---- the whole service ------------------------------------------------------------------------

  /** A leaf object of a service: its history and the downtimes that concern it. */
  datatype Leaf = Leaf(events: seq<Event>, mine: seq<Downtime>)

  ghost predicate LeafDown(l: Leaf, t: int) { Charged(l.events, l.mine, t) }

  ghost predicate AnyDown(leaves: seq<Leaf>, t: int) {
    exists i :: 0 <= i < |leaves| && LeafDown(leaves[i], t)
  }

  /** Instants at which the service is down because at least one leaf is. */
  ghost function UnionDown(leaves: seq<Leaf>, since: int, until: int): nat {
    Measure(since, until, t => AnyDown(leaves, t))
  }

  ghost function SumDown(leaves: seq<Leaf>, since: int, until: int): nat {
    if leaves == [] then 0
    else
      SumDown(leaves[..|leaves| - 1], since, until)
      + Measure(since, until, t => LeafDown(leaves[|leaves| - 1], t))
  }

  ghost predicate NeverTwoDown(leaves: seq<Leaf>, since: int, until: int) {
    forall i, j, t :: 0 <= i < j < |leaves| && since <= t < until ==>
      !(LeafDown(leaves[i], t) && LeafDown(leaves[j], t))
  }

  lemma {:induction false} InclusionExclusion(lo: int, hi: int, either: int -> bool,
                                              f: int -> bool, g: int -> bool, both: int -> bool)
    requires forall t :: either(t) == (f(t) || g(t)) && both(t) == (f(t) && g(t))
    ensures Measure(lo, hi, either) + Measure(lo, hi, both) == Measure(lo, hi, f) + Measure(lo, hi, g)
    decreases hi - lo
  {
    if lo < hi { InclusionExclusion(lo, hi - 1, either, f, g, both); }
  }

  lemma OneMoreLeaf(leaves: seq<Leaf>, t: int)
    requires leaves != []
    ensures AnyDown(leaves, t) == (AnyDown(leaves[..|leaves| - 1], t) || LeafDown(leaves[|leaves| - 1], t))
  {
    hide LeafDown;
    var init := leaves[..|leaves| - 1];
    if i :| 0 <= i < |init| && LeafDown(init[i], t) { assert leaves[i] == init[i]; }
    if i :| 0 <= i < |init| && LeafDown(leaves[i], t) { assert LeafDown(init[i], t); }
  }

  /** The sum of the leaves' downtimes is at least the union's, and equal only without overlap. */
  lemma {:induction false} SumVersusUnion(leaves: seq<Leaf>, since: int, until: int)
    ensures UnionDown(leaves, since, until) <= SumDown(leaves, since, until)
    ensures UnionDown(leaves, since, until) == SumDown(leaves, since, until) <==> NeverTwoDown(leaves, since, until)
  {
    if leaves == [] {
      MeasureOfNothing(since, until, t => AnyDown(leaves, t));
    } else {
      var init, last := leaves[..|leaves| - 1], leaves[|leaves| - 1];
      SumVersusUnion(init, since, until);
      hide LeafDown, AnyDown, NeverTwoDown;
      var either := t => AnyDown(leaves, t);
      var before := t => AnyDown(init, t);
      var mine := t => LeafDown(last, t);
      var both := t => AnyDown(init, t) && LeafDown(last, t);
      forall t ensures either(t) == (before(t) || mine(t)) { OneMoreLeaf(leaves, t); }
      InclusionExclusion(since, until, either, before, mine, both);
      MeasureOfNothing(since, until, both);
      UnionIs(leaves, since, until, either);
      UnionIs(init, since, until, before);
      SumOfOneMore(leaves, since, until, mine);
      hide SumDown, UnionDown;
      OverlapOfOneMore(leaves, since, until);
    }
  }

  lemma UnionIs(leaves: seq<Leaf>, since: int, until: int, f: int -> bool)
    requires forall t :: f(t) == AnyDown(leaves, t)
    ensures UnionDown(leaves, since, until) == Measure(since, until, f)
  {
    MeasureAgrees(since, until, t => AnyDown(leaves, t), f);
  }

  lemma SumOfOneMore(leaves: seq<Leaf>, since: int, until: int, f: int -> bool)
    requires leaves != [] && forall t :: f(t) == LeafDown(leaves[|leaves| - 1], t)
    ensures SumDown(leaves, since, until) == SumDown(leaves[..|leaves| - 1], since, until) + Measure(since, until, f)
  {
    MeasureAgrees(since, until, t => LeafDown(leaves[|leaves| - 1], t), f);
  }

  lemma OverlapOfOneMore(leaves: seq<Leaf>, since: int, until: int)
    requires leaves != []
    ensures var init, last := leaves[..|leaves| - 1], leaves[|leaves| - 1];
      NeverTwoDown(leaves, since, until) <==>
        NeverTwoDown(init, since, until)
        && forall t :: since <= t < until ==> !(AnyDown(init, t) && LeafDown(last, t))
  {
    hide LeafDown;
    var init, last := leaves[..|leaves| - 1], leaves[|leaves| - 1];
    assert forall i :: 0 <= i < |init| ==> leaves[i] == init[i];
    if NeverTwoDown(leaves, since, until) {
      forall t | since <= t < until ensures !(AnyDown(init, t) && LeafDown(last, t)) {
        if AnyDown(init, t) {
          var i :| 0 <= i < |init| && LeafDown(init[i], t);
          assert leaves[i] == init[i];
        }
      }
    }
  }

  function Min(a: int, b: int): int { if a <= b then a else b }

  /** The objects a service stands for: its own, then those its selector matches. */
  function ObjectIds(objectId: string, selected: seq<string>): seq<string> {
    (if objectId != "" then [objectId] else []) + selected
  }

  /** Each object with its history and, when downtimes are excluded, those of the tenant's downtimes that concern it. */
  ghost function LeavesOf(ids: seq<string>, history: string -> seq<Event>, exclude: bool, dts: seq<Downtime>,
                          dir: Directory)
    : seq<Leaf>
  {
    seq(|ids|, i requires 0 <= i < |ids| => Leaf(history(ids[i]), if exclude then Concerning(dts, ids[i], dir) else []))
  }

  /** Availability in percent and the downtime it is computed from; `limit` is the nominal window. */
  method Availability(objectId: string, selected: seq<string>, history: string -> seq<Event>, exclude: bool,
                      dts: seq<Downtime>, dir: Directory, since: int, until: int, limit: nat)
    returns (percent: real, down: int)
    requires since < until && limit <= until - since
    requires forall id :: id in ObjectIds(objectId, selected) ==>
      InOrder(history(id)) && InWindow(history(id), since, until)
    ensures var ids := ObjectIds(objectId, selected);
      && (ids == [] ==> percent == 100.0 && down == 0)
      && down == Min(SumDown(LeavesOf(ids, history, exclude, dts, dir), since, until), limit)
    ensures 0.0 <= percent <= 100.0
    ensures percent * (until - since) as real == 100.0 * (until - since - down) as real
  {
    hide LeafDown, InOrder, InWindow, SumDown, Charged, Concerning;
    var ids := ObjectIds(objectId, selected);
    ghost var leaves := LeavesOf(ids, history, exclude, dts, dir);
    NoLeaves(since, until);
    if |ids| == 0 { return 100.0, 0; }
    down := 0;
    for i := 0 to |ids|
      invariant down == SumDown(leaves[..i], since, until)
    {
      var mine := [];
      if exclude { mine := ForObject(dts, ids[i], dir); }
      assert leaves[i] == Leaf(history(ids[i]), mine);
      var span := ObjectDowntime(history(ids[i]), mine, since, until);
      DownOfOneMore(leaves, i, since, until);
      down := down + span;
    }
    assert leaves[..|ids|] == leaves;
    if down > limit { down := limit; }
    percent := 100.0 * (1.0 - down as real / (until - since) as real);
    Percentage(down, until - since, percent);
  }

  lemma NoLeaves(since: int, until: int)
    ensures SumDown([], since, until) == 0
  {}

  lemma DownOfOneMore(leaves: seq<Leaf>, i: nat, since: int, until: int)
    requires i < |leaves|
    ensures SumDown(leaves[..i + 1], since, until) ==
      SumDown(leaves[..i], since, until) + Measure(since, until, t => Charged(leaves[i].events, leaves[i].mine, t))
  {
    hide LeafDown, Charged;
    LeafMeasure(leaves[i], since, until);
    assert leaves[..i + 1][..i] == leaves[..i];
  }

  lemma LeafMeasure(l: Leaf, since: int, until: int)
    ensures Measure(since, until, t => Charged(l.events, l.mine, t)) == Measure(since, until, t => LeafDown(l, t))
  {
    MeasureAgrees(since, until, t => Charged(l.events, l.mine, t), t => LeafDown(l, t));
  }

  lemma Percentage(down: int, window: int, percent: real)
    requires 0 <= down <= window && window > 0
    requires percent == 100.0 * (1.0 - down as real / window as real)
    ensures percent * window as real == 100.0 * (window - down) as real
    ensures 0.0 <= percent <= 100.0
  {
    var q := down as real / window as real;
    assert q * window as real == down as real;
    assert 0.0 <= q <= 1.0;
  }

  /** The comment above the sum calls it a union.  It is one exactly when no two leaves are ever down
      at the same instant, or the union alone already fills the window. */
  lemma ReportedIsUnionIff(leaves: seq<Leaf>, since: int, until: int, limit: nat)
    ensures Min(SumDown(leaves, since, until), limit) == Min(UnionDown(leaves, since, until), limit)
       <==> NeverTwoDown(leaves, since, until) || UnionDown(leaves, since, until) >= limit
  {
    SumVersusUnion(leaves, since, until);
  }

  /** An object that a service names and also selects is counted twice, so its downtime is reported doubled while the
      window leaves room. */
  lemma NamedAndSelectedCountsTwice(l: Leaf, since: int, until: int, limit: nat)
    ensures SumDown([l, l], since, until) == 2 * UnionDown([l, l], since, until)
    ensures 0 < 2 * UnionDown([l, l], since, until) <= limit ==>
      Min(SumDown([l, l], since, until), limit) != Min(UnionDown([l, l], since, until), limit)
  {
    hide LeafDown;
    var f := t => LeafDown(l, t);
    assert [l, l][..1] == [l] && [l][..0] == [];
    forall t ensures AnyDown([l, l], t) == f(t) {
      if LeafDown(l, t) { assert LeafDown([l, l][0], t); }
    }
    UnionIs([l, l], since, until, f);
    SumOfOneMore([l, l], since, until, f);
    SumOfOneMore([l], since, until, f);
  }

  /** With downtimes that change on minute marks an object's downtime is the time it is not OK while no downtime that
      concerns it is active. */
  lemma ObjectDownIsUnexcused(events: seq<Event>, dts: seq<Downtime>, id: string, dir: Directory, since: int,
                              until: int)
    requires InOrder(events) && MinuteAligned(Concerning(dts, id, dir))
    ensures Measure(since, until, t => Charged(events, Concerning(dts, id, dir), t)) ==
      Measure(since, until, t => StateAt(events, t) != OK && !Excused(dts, id, dir, t))
  {
    hide Covered, StateAt, InOrder, MinuteAligned, Charged, Concerning, Excused;
    var mine := Concerning(dts, id, dir);
    AlignedIsExact(events, mine, since, until);
    forall t ensures Covered(mine, t) == Excused(dts, id, dir, t) { ExcusedIsCovered(dts, id, dir, t); }
    MeasureAgrees(since, until, t => StateAt(events, t) != OK && !Covered(mine, t),
                  t => StateAt(events, t) != OK && !Excused(dts, id, dir, t));
  }

  /** Some downtime that concerns the object is active. */
  ghost predicate Excused(dts: seq<Downtime>, id: string, dir: Directory, t: int) {
    exists i :: 0 <= i < |dts| && Concerns(dts[i], id, dir) && ActiveAt(dts[i], t)
  }

  lemma ExcusedIsCovered(dts: seq<Downtime>, id: string, dir: Directory, t: int)
    ensures Covered(Concerning(dts, id, dir), t) == Excused(dts, id, dir, t)
  {
    CoverIsAnyConcerningDowntime(dts, id, dir, t);
  }
}
