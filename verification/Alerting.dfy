/** The alerting engine (internal/alerting/engine.go): its maps, updated in place, against the steps and runs. */
module Alerting {
  import opened Basics
  import opened AlertingModel
  import opened AlertingSteps
  import opened AlertingRuns

  class Engine {
    var alerts: map<nat, Alert>
    var nextId: nat
    var pending: map<Key, Pending>
    var suppressedOpen: map<nat, Held>
    ghost var logs: map<Key, seq<Occurrence>>
    ghost var books: Books
    ghost var births: map<nat, Birth>

    constructor ()
      ensures Valid() && Now() == EMPTY
    {
      alerts, nextId, pending, suppressedOpen, logs := map[], 0, map[], map[], map[];
      births := map[];
      books := Books(multiset{}, {}, {});
      new;
      EmptyIsOk();
    }

    ghost function Now(): State
      reads this
    {
      State(alerts, nextId, pending, suppressedOpen, logs, books, births)
    }

    ghost predicate Valid()
      reads this
    {
      Ok(Now())
    }

    /** No page is lost: an alert opened under an escalating rule, still stored or not, has had its chain started once,
        or is held, or was found closed or gone, or could not start when it opened.  Which of them is settled by what
        the world answered at its opening, unless it was suppressed then. */
    lemma NoPageIsLost(id: nat)
      requires Valid() && id in births && births[id].rule.policy != ""
      ensures var n, w := books.started[Chain(id, births[id].rule.policy)], births[id].world;
        && (!w.suppressed && w.startOk ==> n == 1 && id !in suppressedOpen && id !in books.seenClosed)
        && (id in books.failedAtOpening <==> !w.suppressed && !w.startOk)
        && (id in books.failedAtOpening ==> n == 0 && id !in suppressedOpen && id !in books.seenClosed)
        && (w.suppressed ==> n == 1 || id in suppressedOpen || id in books.seenClosed)
        && (id in suppressedOpen || id in books.seenClosed ==> n == 0)
        && !(id in suppressedOpen && id in books.seenClosed) && n <= 1
    {
      assert OneFate(books, suppressedOpen, id, births[id]);
    }

    /** An alert opened by an entry that had to wait fired after a run of matches that began at least the hold time
        before, with no clear of its key in between, and was opened with the draft of the newest match.  Under a rule
        with a hold time no match opens an alert otherwise. */
    lemma WaitingAlertsWereHeld(id: nat)
      requires Valid() && id in births && !births[id].origin.Silence? && births[id].rule.pendingFor > 0
      ensures var b, log := births[id], LogAt(logs, KeyOf(births[id].draft));
        b.origin.Waited? && b.origin.place < |log| && log[b.origin.place].Fired? &&
        HeldThrough(log, b.origin.place, log[b.origin.place].now, b.rule, b.draft)
    {
      hide PendingMatches, OneEach, Recorded, Accounted, LogAt, HeldThrough;
      assert BirthOk(LogAt(logs, KeyOf(births[id].draft)), births[id]);
    }

    // ---- the store ------------------------------------------------------------------------------

    method FindActive(key: Key) returns (found: bool, id: nat)
      ensures found <==> HasActive(alerts, key)
      ensures found ==> Holds(alerts, key, id)
    {
      found, id := false, 0;
      var todo := alerts.Keys;
      while todo != {}
        invariant todo <= alerts.Keys
        invariant forall x :: x in alerts && x !in todo ==> !Holds(alerts, key, x)
      {
        var x :| x in todo;
        if Holds(alerts, key, x) { return true, x; }
        todo := todo - {x};
      }
    }

    /** Opens an alert, or refreshes the active one with the same key. */
    method UpsertAlert(draft: Draft, storeOk: bool) returns (created: bool, id: nat)
      requires OneEach(alerts, nextId)
      modifies this`alerts, this`nextId
      ensures created <==> storeOk && !HasActive(old(alerts), KeyOf(draft))
      ensures created ==> id == old(nextId) && nextId == id + 1 && alerts == old(alerts)[id := Alert(draft, Open)]
      ensures !created ==> nextId == old(nextId)
      ensures !created ==> alerts == if storeOk then Refreshed(old(alerts), draft) else old(alerts)
      ensures storeOk && !created ==> Holds(old(alerts), KeyOf(draft), id)
    {
      if !storeOk { return false, 0; }
      var found, x := FindActive(KeyOf(draft));
      if found {
        alerts := alerts[x := alerts[x].(draft := alerts[x].draft.(content := draft.content))];
        assert forall y :: y in alerts ==> (Holds(old(alerts), KeyOf(draft), y) <==> y == x);
        return false, x;
      }
      id := nextId;
      alerts := alerts[id := Alert(draft, Open)];
      nextId := nextId + 1;
      return true, id;
    }

    // ---- opening --------------------------------------------------------------------------------

    /** Opens an alert under a rule.  A fresh alert of an escalating rule starts its chain now, or is held
        while it is suppressed. */
    method OpenAlert(r: Rule, draft: Draft, w: World, ghost origin: Origin)
      requires Valid()
      modifies this
      ensures Now() == Opened(old(Now()), Birth(r, draft, origin, w))
    {
      hide PendingMatches, Recorded, AllBorn, Accounted, HasActive, Refreshed;
      var created, id := UpsertAlert(draft, w.storeOk);
      if !created { return; }
      births := births[id := Birth(r, draft, origin, w)];
      if w.suppressed {
        if r.policy != "" { suppressedOpen := suppressedOpen[id := Held(draft.tenant, r.policy)]; }
        return;
      }
      if r.policy != "" {
        if w.startOk {
          books := books.(started := books.started + multiset{Chain(id, r.policy)});
        } else {
          books := books.(failedAtOpening := books.failedAtOpening + {id});
        }
      }
    }

    // ---- matching events ------------------------------------------------------------------------

    ghost method Record(key: Key, o: Occurrence)
      modifies this`logs
      ensures logs == Logged(old(logs), key, o)
    {
      logs := Logged(logs, key, o);
    }

    /** An event that matched a rule.  A clear resolves; a rule with a hold time waits; others open at once. */
    method MatchedEvent(r: Rule, ts: int, draft: Draft, clear: bool, updateOk: bool, w: World)
      requires Valid()
      modifies this
      ensures Valid() && Step(old(Now()), Event(r, ts, draft, clear, updateOk, w), Now())
    {
      hide Ok, HasActive, Logged, Resolving, Opened;
      StepKeepsOkAlways(Now(), Event(r, ts, draft, clear, updateOk, w));
      var key := KeyOf(draft);
      if clear {
        var stopped := ResolveByDedup(key, updateOk);
        return;
      }
      if r.pendingFor > 0 {
        if key in pending {
          pending := pending[key := pending[key].(lastAt := ts, draft := draft)];
        } else {
          pending := pending[key := Pending(r, ts, ts, draft)];
        }
        Record(key, Matched(r, ts, draft));
        return;
      }
      OpenAlert(r, draft, w, AtOnce);
    }

    /** A heartbeat source fell silent: opens at once, whatever the rule's hold time. */
    method HeartbeatMissed(r: Rule, draft: Draft, w: World)
      requires Valid()
      modifies this
      ensures Valid() && Step(old(Now()), Silent(r, draft, w), Now())
    {
      hide Ok, HasActive, Opened;
      StepKeepsOkAlways(Now(), Silent(r, draft, w));
      OpenAlert(r, draft, w, Silence);
    }

    /** Forgets what was pending and resolves the active alert; its chain is stopped by the escalator. */
    method ResolveByDedup(key: Key, updateOk: bool) returns (stopped: seq<nat>)
      requires Valid()
      modifies this`pending, this`logs, this`alerts
      ensures Now() == Clearing(old(Now()), key, updateOk)
      ensures forall id :: id in stopped <==> updateOk && Holds(old(alerts), key, id)
    {
      hide PendingMatches, Recorded, AllBorn, Accounted, HasActive, Logged;
      pending := pending - {key};
      Record(key, Cleared);
      stopped := [];
      var found, id := FindActive(key);
      NobodyHolds(alerts, key);
      if !found || !updateOk {
        assert alerts == Resolving(alerts, key, updateOk);
        return;
      }
      alerts := alerts[id := alerts[id].(status := Resolved)];
      assert forall y :: y in alerts ==> (Holds(old(alerts), key, y) <==> y == id);
      stopped := [id];
    }

    // ---- conditions that held long enough -------------------------------------------------------

    /** Opens what has been pending for its rule's hold time; `worlds` is what each opening meets. */
    method FirePending(now: int, worlds: Key -> World)
      requires Valid()
      modifies this
      ensures Valid() && Step(old(Now()), Fire(now, worlds), Now())
    {
      hide Ok, DueNow, NotDue, FiredLogs, OpenedInTurn, Ripe;
      ghost var before := Now();
      StepKeepsOkAlways(before, Fire(now, worlds));
      TakingKeepsOk(before, now);
      DueAreBorn(before, now, worlds);
      var due := TakeDue(now);
      ghost var order := OpenAll(due, worlds);
    }

    method TakeDue(now: int) returns (due: map<Key, Pending>)
      modifies this`pending, this`logs
      ensures due == DueNow(old(pending), now, {}) && Now() == Taken(old(Now()), now, {})
    {
      due := map[];
      var todo := pending.Keys;
      ghost var before := Now();
      hide *;
      NowIs();
      NothingTakenYet(before, now);
      while todo != {}
        invariant todo <= before.pending.Keys
        invariant Now() == Taken(before, now, todo) && due == DueNow(before.pending, now, todo)
      {
        var key :| key in todo;
        TakeOne(before, now, todo, key);
        NowIs();
        var p := pending[key];
        if Overdue(p, now) {
          due := due[key := p];
          pending := pending - {key};
          Record(key, Fired(now));
        }
        NowIs();
        todo := todo - {key};
      }
    }

    lemma NowIs()
      ensures Now() == State(alerts, nextId, pending, suppressedOpen, logs, books, births)
    {}

    method OpenAll(due: map<Key, Pending>, worlds: Key -> World) returns (ghost order: seq<Key>)
      requires Valid() && Ripe(logs, due, worlds)
      modifies this
      ensures Lists(order, due.Keys) && Now() == OpenedInTurn(old(Now()), due, order, worlds)
    {
      hide Ok, Opened, Ripe, LogAt;
      var todo := due.Keys;
      order := [];
      while todo != {}
        invariant todo <= due.Keys && Lists(order, due.Keys - todo)
        invariant Valid() && Now() == OpenedInTurn(old(Now()), due, order, worlds)
      {
        var key :| key in todo;
        ghost var more := order + [key];
        assert more[..|order|] == order;
        OpeningInTurnKeepsOk(old(Now()), due, order, worlds);
        OpeningInTurnKeepsOk(old(Now()), due, more, worlds);
        OpenAlert(due[key].rule, due[key].draft, worlds(key), Waited(LastOf(LogAt(logs, key))));
        todo := todo - {key};
        order := more;
      }
    }

    // ---- alerts that opened while suppressed ----------------------------------------------------

    method ForgetSuppressed(id: nat)
      modifies this`suppressedOpen
      ensures suppressedOpen == old(suppressedOpen) - {id}
    {
      suppressedOpen := suppressedOpen - {id};
    }

    /** One held alert: start its chain, forget it because it is no longer open, or look again next time. */
    method ReEvaluateOne(id: nat, sight: Sight)
      requires id in suppressedOpen
      modifies this`suppressedOpen, this`books
      ensures Now() == LookedOne(old(Now()), id, sight)
    {
      if !sight.readOk { return; }
      if id !in alerts || alerts[id].status != Open {
        ForgetSuppressed(id);
        books := books.(seenClosed := books.seenClosed + {id});
        return;
      }
      if sight.suppressed { return; }
      if !sight.startOk { return; }
      books := books.(started := books.started + multiset{Chain(id, suppressedOpen[id].policy)});
      ForgetSuppressed(id);
    }

    /** Looks at every alert held when the tick begins. */
    method ReEvaluateSuppressed(sights: nat -> Sight)
      requires Valid()
      modifies this`suppressedOpen, this`books
      ensures Valid() && Step(old(Now()), Look(sights), Now())
    {
      hide Ok, Looked, LookedOne;
      ghost var before := Now();
      StepKeepsOkAlways(before, Look(sights));
      var todo := suppressedOpen.Keys;
      NothingLookedAtYet(before, sights);
      while todo != {}
        invariant todo <= before.held.Keys && todo <= suppressedOpen.Keys
        invariant Now() == Looked(before, sights, todo)
      {
        var id :| id in todo;
        LookAtOneMore(before, sights, todo, id);
        ReEvaluateOne(id, sights(id));
        todo := todo - {id};
        LaterAreHeld(before, sights, todo);
      }
    }

    // ---- what others do to alerts ---------------------------------------------------------------

    /** Acknowledging, resolving, expiring or waking an active alert from elsewhere. */
    method SetStatus(id: nat, status: Status)
      requires id in alerts && Active(alerts[id])
      modifies this`alerts
      ensures alerts == old(alerts)[id := old(alerts)[id].(status := status)]
    {
      alerts := alerts[id := alerts[id].(status := status)];
    }

    method Delete(id: nat)
      modifies this`alerts
      ensures alerts == old(alerts) - {id}
    {
      alerts := alerts - {id};
    }

    // ---- runs -----------------------------------------------------------------------------------

    /** One input of any kind. */
    method Handle(input: Input)
      requires Valid()
      modifies this
      ensures Valid() && Step(old(Now()), input, Now())
    {
      hide Ok, Opened, Fires, Looked, Waits, Clearing;
      StepKeepsOkAlways(Now(), input);
      match input {
        case Event(r, ts, draft, clear, updateOk, w) => MatchedEvent(r, ts, draft, clear, updateOk, w);
        case Silent(r, draft, w) => HeartbeatMissed(r, draft, w);
        case Fire(now, worlds) => FirePending(now, worlds);
        case Look(sights) => ReEvaluateSuppressed(sights);
        case Changed(id, status) =>
          if id in alerts && Active(alerts[id]) { SetStatus(id, status); }
        case Removed(id) => Delete(id);
      }
    }

    /** Any sequence of inputs is a run.  From a fresh engine on, the logs are those of the inputs and every alert was
        called for by the inputs up to the one that opened it. */
    method Run(inputs: seq<Input>) returns (ghost states: seq<State>)
      requires Valid()
      modifies this
      ensures Valid() && IsRun(states, inputs) && states[0] == old(Now()) && states[|inputs|] == Now()
      ensures old(Now()) == EMPTY ==> forall key :: LogAt(logs, key) == LogAfter(inputs, key)
      ensures old(Now()) == EMPTY ==>
        forall id :: id in births ==> exists i: nat :: i < |inputs| && OpenedBy(states, inputs, i, id, births[id])
    {
      hide Ok, Step, LogAt, OpenedBy;
      states := [Now()];
      for i := 0 to |inputs|
        invariant Valid() && |states| == i + 1 && states[0] == old(Now()) && states[i] == Now()
        invariant IsRun(states, inputs[..i])
      {
        Handle(inputs[i]);
        OneMoreState(states, inputs[..i], inputs[i], Now());
        assert inputs[..i + 1] == inputs[..i] + [inputs[i]];
        states := states + [Now()];
      }
      assert inputs[..|inputs|] == inputs;
      if old(Now()) == EMPTY { FreshRunIs(states, inputs); }
    }
  }
}
