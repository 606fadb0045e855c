/** What the engine and others do to an alert that is there (internal/alerting/engine.go, internal/storage/alerts.go):
    what ends it, what changes its status and its content, and that nothing else does. */
module AlertingLives {
  import opened Basics
  import opened AlertingModel
  import opened AlertingSteps
  import opened AlertingRuns

  // ---- one step ---------------------------------------------------------------------------------

  /** The alert after an opening: refreshed if it holds the key, otherwise the same. */
  lemma OpeningKeepsAlert(s: State, b: Birth, id: nat)
    requires OneEach(s.alerts, s.nextId) && id in s.alerts
    ensures var t := Opened(s, b);
      && id in t.alerts && t.alerts[id].status == s.alerts[id].status
      && t.alerts[id].draft == s.alerts[id].draft.(content := t.alerts[id].draft.content)
      && t.alerts[id].draft.content ==
         if b.world.storeOk && Holds(s.alerts, KeyOf(b.draft), id) then b.draft.content
         else s.alerts[id].draft.content
  {
    if Holds(s.alerts, KeyOf(b.draft), id) { assert HasActive(s.alerts, KeyOf(b.draft)); }
    if Opens(s, b) {
      hide HasActive, Refreshed;
      EscalatingKeepsLogs(Born(s, b), s.nextId, b.rule, b.draft.tenant, b.world);
    }
  }

  /** The content a step writes into an alert, if it writes one: that of the match, heartbeat or due entry it merges. */
  ghost function Merges(s: State, input: Input, id: nat): Maybe<string>
    requires id in s.alerts
  {
    var key := AlertingModel.KeyOf(s.alerts[id].draft);
    if !Holds(s.alerts, key, id) then Unset
    else match input
      case Event(r, _, draft, clear, _, w) =>
        if KeyOf(draft) == key && !clear && r.pendingFor <= 0 && w.storeOk then Set(draft.content) else Unset
      case Silent(_, draft, w) => if KeyOf(draft) == key && w.storeOk then Set(draft.content) else Unset
      case Fire(now, worlds) =>
        if IsDue(s.pending, key, now) && worlds(key).storeOk then Set(s.pending[key].draft.content) else Unset
      case _ => Unset
  }

  /** The status a step leaves. */
  ghost function StatusAfter(s: State, input: Input, id: nat): Status
    requires id in s.alerts
  {
    var a := s.alerts[id];
    match input
    case Event(_, _, draft, clear, updateOk, _) =>
      if clear && updateOk && Active(a) && KeyOf(a.draft) == KeyOf(draft) && draft.dedup != "" then Resolved
      else a.status
    case Changed(x, status) => if x == id && Active(a) then status else a.status
    case _ => a.status
  }

  ghost predicate AlertIs(s: State, t: State, id: nat, status: Status, content: Maybe<string>)
    requires id in s.alerts
  {
    id in t.alerts &&
    t.alerts[id] == Alert(if content.Set? then s.alerts[id].draft.(content := content.value) else s.alerts[id].draft,
                          status)
  }

  lemma {:induction false} OpeningInTurnKeepsAlert(s: State, due: map<Key, Pending>, order: seq<Key>,
                                                   worlds: Key -> World, id: nat)
    requires Ok(s) && Ripe(s.logs, due, worlds) && Apart(order) && forall key :: key in order ==> key in due
    requires id in s.alerts
    ensures var key := KeyOf(s.alerts[id].draft);
      AlertIs(s, OpenedInTurn(s, due, order, worlds), id, s.alerts[id].status,
              if key in order && worlds(key).storeOk && Holds(s.alerts, key, id) then Set(due[key].draft.content)
              else Unset)
  {
    hide BirthOk, LogAt, Opened, Ripe, LastOf, PendingMatches, AllBorn, Accounted, Recorded;
    if order != [] {
      var n := |order| - 1;
      OpeningInTurnKeepsAlert(s, due, order[..n], worlds, id);
      OpeningInTurnKeepsOk(s, due, order[..n], worlds);
      var t := OpenedInTurn(s, due, order[..n], worlds);
      assert order == order[..n] + [order[n]] && order[n] !in order[..n];
      RipeDraft(s.logs, due, worlds, order[n]);
      OpeningKeepsAlert(t, BirthOf(due[order[n]], LogAt(t.logs, order[n]), worlds(order[n])), id);
    }
  }

  lemma RipeDraft(logs: map<Key, seq<Occurrence>>, due: map<Key, Pending>, worlds: Key -> World, key: Key)
    requires Ripe(logs, due, worlds) && key in due
    ensures KeyOf(due[key].draft) == key
  {}

  lemma FiringKeepsAlert(s: State, now: int, worlds: Key -> World, s': State, id: nat)
    requires Ok(s) && Fires(s, now, worlds, s') && id in s.alerts
    ensures AlertIs(s, s', id, StatusAfter(s, Fire(now, worlds), id), Merges(s, Fire(now, worlds), id))
  {
    hide Ok, NotDue, FiredLogs, OpenedInTurn, LogAt, Ripe, Holds;
    TakingKeepsOk(s, now);
    DueAreBorn(s, now, worlds);
    var due, t := DueNow(s.pending, now, {}), Taken(s, now, {});
    var order :| Lists(order, due.Keys) && s' == OpenedInTurn(t, due, order, worlds);
    OpeningInTurnKeepsAlert(t, due, order, worlds, id);
  }

  /** What any step does to an alert: only removing it takes it away; only a clear of its key or a change from outside
      changes its status, and only of an active alert; only a merged match, heartbeat or due entry changes its content;
      nothing changes the rest. */
  lemma StepOnAlert(s: State, input: Input, s': State, id: nat)
    requires Ok(s) && Step(s, input, s') && id in s.alerts
    ensures if input == Removed(id) then id !in s'.alerts
            else AlertIs(s, s', id, StatusAfter(s, input, id), Merges(s, input, id))
  {
    hide PendingMatches, AllBorn, Accounted, Recorded, Opened, Fires, HasActive, Logged, Extended;
    match input {
      case Event(r, ts, draft, clear, updateOk, w) =>
        if !clear && r.pendingFor <= 0 { OpeningKeepsAlert(s, Birth(r, draft, AtOnce, w), id); }
      case Silent(r, draft, w) => OpeningKeepsAlert(s, Birth(r, draft, Silence, w), id);
      case Fire(now, worlds) => FiringKeepsAlert(s, now, worlds, s', id);
      case _ =>
    }
  }

  /** A clear that the store accepts leaves no active alert of its key, takes none away, and resolves only the one that
      held the key; what opens next under the key is a new alert. */
  lemma ClearEnds(s: State, input: Input, s': State, key: Key)
    requires Ok(s) && Step(s, input, s') && Clears(input, key) && input.updateOk
    ensures !HasActive(s'.alerts, key) && s'.alerts.Keys == s.alerts.Keys
    ensures forall id :: id in s.alerts ==>
      s'.alerts[id] == if Holds(s.alerts, key, id) then s.alerts[id].(status := Resolved) else s.alerts[id]
  {
    hide PendingMatches, AllBorn, Accounted, Recorded, Logged, OneEach;
    forall id: nat ensures !Holds(s'.alerts, key, id) {}
  }

  // ---- whole runs -------------------------------------------------------------------------------

  /** The input ends the alert `id` that holds `key`: it removes it, closes it from outside, or clears its key. */
  predicate Ends(input: Input, id: nat, key: Key) {
    || input == Removed(id)
    || (input.Changed? && input.id == id && (input.status == Resolved || input.status == Expired))
    || (Clears(input, key) && input.updateOk && key.dedup != "")
  }

  ghost predicate Alive(s: State, id: nat) { id in s.alerts && Active(s.alerts[id]) }

  lemma StepOnLife(s: State, input: Input, s': State, id: nat)
    requires Ok(s) && Step(s, input, s') && (id in s.alerts || id in s.births)
    ensures Alive(s', id) <==> Alive(s, id) && !Ends(input, id, KeyOf(s.alerts[id].draft))
    ensures id in s.births ==> id in s'.births
    ensures Alive(s', id) ==> KeyOf(s'.alerts[id].draft) == KeyOf(s.alerts[id].draft)
  {
    hide Step, PendingMatches, AllBorn, Accounted, OneEach;
    StepOpensExactly(s, input, s');
    if id in s.alerts {
      StepOnAlert(s, input, s', id);
    } else {
      StaysGone(s, input, s', id);
    }
  }

  /** An alert that is gone does not come back: ids are handed out once. */
  lemma StaysGone(s: State, input: Input, s': State, id: nat)
    requires Ok(s) && Step(s, input, s') && id in s.births && id !in s.alerts
    ensures id !in s'.alerts
  {
    hide PendingMatches, AllBorn, Accounted, OneEach, Fires, HasActive, Refreshed, Escalated, Logged, Extended;
    match input {
      case Event(r, ts, draft, clear, updateOk, w) =>
        if !clear && r.pendingFor <= 0 { OpeningAddsOnlyNew(s, Birth(r, draft, AtOnce, w), id); }
      case Silent(r, draft, w) => OpeningAddsOnlyNew(s, Birth(r, draft, Silence, w), id);
      case Fire(now, worlds) => FiringAddsOnlyNew(s, now, worlds, s', id);
      case _ =>
    }
  }

  lemma OpeningAddsOnlyNew(s: State, b: Birth, id: nat)
    requires Recorded(s.alerts, s.births, s.nextId) && id in s.births && id !in s.alerts
    ensures id !in Opened(s, b).alerts && id in Opened(s, b).births
  {
    hide HasActive, Escalated;
    EscalatingKeepsLogs(Born(s, b), s.nextId, b.rule, b.draft.tenant, b.world);
  }

  lemma {:induction false} OpeningInTurnAddsOnlyNew(s: State, due: map<Key, Pending>, order: seq<Key>,
                                                    worlds: Key -> World, id: nat)
    requires Ok(s) && Ripe(s.logs, due, worlds) && forall key :: key in order ==> key in due
    requires id in s.births && id !in s.alerts
    ensures var t := OpenedInTurn(s, due, order, worlds); id in t.births && id !in t.alerts
  {
    hide BirthOk, LogAt, Opened, Ripe, LastOf, PendingMatches, AllBorn, Accounted, Recorded, OneEach;
    if order != [] {
      var n := |order| - 1;
      OpeningInTurnAddsOnlyNew(s, due, order[..n], worlds, id);
      OpeningInTurnKeepsOk(s, due, order[..n], worlds);
      var t := OpenedInTurn(s, due, order[..n], worlds);
      OpeningAddsOnlyNew(t, BirthOf(due[order[n]], LogAt(t.logs, order[n]), worlds(order[n])), id);
    }
  }

  lemma FiringAddsOnlyNew(s: State, now: int, worlds: Key -> World, s': State, id: nat)
    requires Ok(s) && Fires(s, now, worlds, s') && id in s.births && id !in s.alerts
    ensures id !in s'.alerts
  {
    hide Ok, DueNow, NotDue, FiredLogs, OpenedInTurn, LogAt, Ripe;
    TakingKeepsOk(s, now);
    DueAreBorn(s, now, worlds);
    var due, t := DueNow(s.pending, now, {}), Taken(s, now, {});
    var order :| Lists(order, due.Keys) && s' == OpenedInTurn(t, due, order, worlds);
    OpeningInTurnAddsOnlyNew(t, due, order, worlds, id);
  }

  /** An alert that is open or acknowledged stays so in every run exactly until an input ends it: its removal, its being
      closed from outside, or a clear of its key. */
  lemma {:induction false} AliveUntilEnded(states: seq<State>, inputs: seq<Input>, m: nat, n: nat, id: nat)
    requires IsRun(states, inputs) && Ok(states[0]) && m <= n <= |inputs| && Alive(states[m], id)
    ensures id in states[n].births
    ensures var key := KeyOf(states[m].alerts[id].draft);
      && (Alive(states[n], id) <==> forall j :: m <= j < n ==> !Ends(inputs[j], id, key))
      && (Alive(states[n], id) ==> KeyOf(states[n].alerts[id].draft) == key)
  {
    hide Step, PendingMatches, AllBorn, Accounted, OneEach, Ends;
    RunKeepsOk(states, inputs, m);
    if m < n {
      AliveUntilEnded(states, inputs, m, n - 1, id);
      RunKeepsOk(states, inputs, n - 1);
      StepOnLife(states[n - 1], inputs[n - 1], states[n], id);
    }
  }
}
