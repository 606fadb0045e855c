/** Downtimes and histories in plain instants (internal/api/business.go, internal/model/maintenance.go): when a
    scheduled downtime is active and whom it concerns, what state an object is in, and where an outage begins. */
module SlaMeaning {
  import opened Sla

  /** A one-off downtime is active at its start and then for its whole length, its end excluded; a flexible one for its
      length from when it was triggered, and never if it was not. */
  lemma {:induction false} ActiveFor(d: Downtime, start: int, length: int, lo: int, hi: int)
    requires lo <= start && 0 <= length && start + length <= hi
    requires d.window == Fixed(start, start + length) || d.window == Flexible(true, start, length)
    ensures Measure(lo, hi, t => ActiveAt(d, t)) == length
    ensures length > 0 ==> ActiveAt(d, start) && ActiveAt(d, start + length - 1)
    ensures !ActiveAt(d, start - 1) && !ActiveAt(d, start + length)
  {
    var f := t => ActiveAt(d, t);
    MeasureSplits(lo, start, hi, f);
    MeasureSplits(start, start + length, hi, f);
    MeasureOfNothing(lo, start, f);
    MeasureOfAll(start, start + length, f);
    MeasureOfNothing(start + length, hi, f);
  }

  lemma UntriggeredIsNever(d: Downtime, at: int, length: int, t: int)
    requires d.window == Flexible(false, at, length)
    ensures !ActiveAt(d, t)
  {}

  /** Whom a downtime concerns: an object's own concerns it and, if it is a host, its services, whatever the selector
      says; one without an object concerns what its selector matches; one with neither no object at all. */
  lemma ConcernsMeans(d: Downtime, id: string, dir: Directory)
    requires id != ""
    ensures d.objectId == id ==> Concerns(d, id, dir)
    ensures d.objectId != "" && d.objectId != id ==> (Concerns(d, id, dir) <==> id in dir.children(d.objectId))
    ensures d.objectId == "" && d.selector != "" ==> (Concerns(d, id, dir) <==> id in dir.matches(d.selector))
    ensures d.objectId == "" && d.selector == "" ==> !Concerns(d, id, dir)
  {}

  /** Probes are at minute marks, 60,000,000,000 nanoseconds apart: the last at or before the instant. */
  lemma MarksAre(t: int)
    ensures FloorMinute(t) % 60_000_000_000 == 0 && FloorMinute(t) <= t < FloorMinute(t) + 60_000_000_000
  {}

  // ---- histories --------------------------------------------------------------------------------

  /** Event `i` is the latest hard one at or before `t`. */
  ghost predicate LatestHard(events: seq<Event>, t: int, i: int) {
    && 0 <= i < |events| && events[i].change.Hard? && events[i].ts <= t
    && forall j :: i < j < |events| && events[j].change.Hard? ==> events[j].ts > t
  }

  /** An object is in the state that the latest hard event up to the instant announced, and OK (0) before the first;
      soft changes and events that do not decode say nothing. */
  lemma {:induction false} StateMeans(events: seq<Event>, t: int)
    ensures forall i :: LatestHard(events, t, i) ==> StateAt(events, t) == events[i].change.to
    ensures (forall i :: 0 <= i < |events| && events[i].change.Hard? ==> events[i].ts > t) ==> StateAt(events, t) == 0
  {
    if events != [] {
      var n := |events| - 1;
      var init, last := events[..n], events[n];
      StateMeans(init, t);
      forall i | LatestHard(events, t, i) ensures StateAt(events, t) == events[i].change.to {
        if i < n {
          assert LatestHard(init, t, i) by {
            forall j | i < j < n && init[j].change.Hard? ensures init[j].ts > t { assert events[j] == init[j]; }
          }
        }
      }
      if forall i :: 0 <= i < |events| && events[i].change.Hard? ==> events[i].ts > t {
        forall i | 0 <= i < n && init[i].change.Hard? ensures init[i].ts > t { assert events[i] == init[i]; }
      }
    }
  }

  /** The last hard change, if there is one, is to OK (0). */
  ghost predicate EndsOk(events: seq<Event>) {
    forall i :: 0 <= i < |events| && LastHard(events, i) ==> events[i].change.to == 0
  }

  ghost predicate LastHard(events: seq<Event>, i: int) {
    0 <= i < |events| && events[i].change.Hard? && forall j :: i < j < |events| ==> !events[j].change.Hard?
  }

  lemma {:induction false} HealthyIff(events: seq<Event>)
    ensures SpellAfter(events) == Healthy <==> EndsOk(events)
  {
    if events != [] {
      var n := |events| - 1;
      var init := events[..n];
      HealthyIff(init);
      assert forall i :: 0 <= i < n ==> events[i] == init[i];
      assert LastHard(events, n) <==> events[n].change.Hard?;
      assert !events[n].change.Hard? ==> forall i :: 0 <= i < n ==> (LastHard(events, i) <==> LastHard(init, i));
      assert events[n].change.Hard? ==> forall i :: 0 <= i < n ==> !LastHard(events, i);
    }
  }

  /** The outage an object is in began with event `i`: a hard change away from OK with only such changes since, while
      all was well before it. */
  ghost predicate BeganWith(events: seq<Event>, i: int) {
    && 0 <= i < |events| && events[i].change.Hard? && events[i].change.to != 0
    && (forall j :: i < j < |events| && events[j].change.Hard? ==> events[j].change.to != 0)
    && EndsOk(events[..i])
  }

  lemma BeganOneMore(events: seq<Event>, i: int)
    requires events != []
    ensures var init, last := events[..|events| - 1], events[|events| - 1];
      BeganWith(events, i) <==>
        if i == |init| then last.change.Hard? && last.change.to != 0 && EndsOk(init)
        else BeganWith(init, i) && (last.change.Hard? ==> last.change.to != 0)
  {
    hide EndsOk;
    var n := |events| - 1;
    assert forall j :: 0 <= j < n ==> events[j] == events[..n][j];
    if 0 <= i < n { assert events[..n][..i] == events[..i]; }
  }

  /** After its events an object is in an outage exactly if one began and has not ended, and the outage is counted from
      the event it began with, however many other states followed. */
  lemma {:induction false} SpellMeans(events: seq<Event>)
    ensures SpellAfter(events).BadSince? ==> exists i :: BeganWith(events, i)
    ensures forall i :: BeganWith(events, i) ==> SpellAfter(events) == BadSince(events[i].ts)
  {
    hide BeganWith, EndsOk;
    if events == [] {
      NothingBegan();
    } else {
      var n := |events| - 1;
      SpellMeans(events[..n]);
      HealthyIff(events[..n]);
      forall i { BeganOneMore(events, i); }
      BeganIsInside(events[..n]);
      if SpellAfter(events).BadSince? {
        if SpellAfter(events[..n]).BadSince? {
          var i :| BeganWith(events[..n], i);
          assert BeganWith(events, i);
        } else {
          assert BeganWith(events, n);
        }
      }
    }
  }

  lemma NothingBegan()
    ensures forall i :: !BeganWith([], i)
  {}

  lemma BeganIsInside(events: seq<Event>)
    ensures forall i :: BeganWith(events, i) ==> 0 <= i < |events|
  {}
}
