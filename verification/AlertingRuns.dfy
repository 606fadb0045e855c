/** Whole runs of the alerting engine (internal/alerting/engine.go): which inputs make it open alerts, and what becomes
    of the page each alert of an escalating rule owes. */
module AlertingRuns {
  import opened Basics
  import opened AlertingModel
  import opened AlertingSteps

  /** The states an engine goes through: input `i` leads from state `i` to the next. */
  ghost predicate IsRun(states: seq<State>, inputs: seq<Input>) {
    |states| == |inputs| + 1 && forall i :: 0 <= i < |inputs| ==> Step(states[i], inputs[i], states[i + 1])
  }

  /** A run of an engine that starts with nothing. */
  ghost predicate Fresh(states: seq<State>, inputs: seq<Input>) { IsRun(states, inputs) && states[0] == EMPTY }

  lemma OneMoreState(states: seq<State>, inputs: seq<Input>, input: Input, s: State)
    requires IsRun(states, inputs) && Step(states[|inputs|], input, s)
    ensures IsRun(states + [s], inputs + [input])
  {
    hide Step;
  }

  lemma {:induction false} RunKeepsOk(states: seq<State>, inputs: seq<Input>, n: nat)
    requires IsRun(states, inputs) && n <= |inputs| && Ok(states[0])
    ensures Ok(states[n])
  {
    hide Ok, Step;
    if n > 0 {
      RunKeepsOk(states, inputs, n - 1);
      StepKeepsOk(states[n - 1], inputs[n - 1], states[n]);
    }
  }

  lemma FreshRunIsOk(states: seq<State>, inputs: seq<Input>, n: nat)
    requires Fresh(states, inputs) && n <= |inputs|
    ensures Ok(states[n])
  {
    EmptyIsOk();
    hide Ok, Step;
    RunKeepsOk(states, inputs, n);
  }

  lemma {:induction false} BirthsGrow(states: seq<State>, inputs: seq<Input>, m: nat, n: nat)
    requires IsRun(states, inputs) && m <= n <= |inputs| && Ok(states[0])
    ensures BirthsKept(states[m].births, states[n].births)
  {
    hide Ok, Step, Opener;
    if m < n {
      BirthsGrow(states, inputs, m, n - 1);
      RunKeepsOk(states, inputs, n - 1);
      StepOpensExactly(states[n - 1], inputs[n - 1], states[n]);
    }
  }

  // ---- what opens alerts ------------------------------------------------------------------------

  /** The logs, and with them what is pending, are those of the inputs. */
  lemma {:induction false} LogsAreOfInputs(states: seq<State>, inputs: seq<Input>, n: nat, key: Key)
    requires Fresh(states, inputs) && n <= |inputs|
    ensures LogAt(states[n].logs, key) == LogAfter(inputs[..n], key)
  {
    hide Ok, Step, LogAt, Occurs;
    if n == 0 {
      NothingLoggedYet(key);
    } else {
      LogsAreOfInputs(states, inputs, n - 1, key);
      FreshRunIsOk(states, inputs, n - 1);
      StepLogs(states[n - 1], inputs[n - 1], states[n], key);
      assert inputs[..n] == inputs[..n - 1] + [inputs[n - 1]];
      LogOfOneMore(inputs[..n - 1], inputs[n - 1], key);
    }
  }

  lemma NothingLoggedYet(key: Key)
    ensures LogAt(EMPTY.logs, key) == []
  {}

  /** The last input opens an alert of this key, rule and draft, which meets this world: a match of a rule without hold
      time; a heartbeat source that fell silent; or a tick, when the key has been matched, first by the rule at least
      its hold time ago and last with the draft, and neither cleared nor found due in between. */
  ghost predicate CallsFor(before: seq<Input>, input: Input, rule: Rule, draft: Draft, w: World) {
    match input
    case Event(r, ts, d, clear, updateOk, world) =>
      !clear && r.pendingFor <= 0 && rule == r && draft == d && w == world
    case Silent(r, d, world) => rule == r && draft == d && w == world
    case Fire(now, worlds) =>
      w == worlds(KeyOf(draft)) && exists a: nat, z: nat :: HeldSince(before, a, z, now, rule, draft)
    case _ => false
  }

  ghost predicate HeldSince(inputs: seq<Input>, a: nat, z: nat, now: int, rule: Rule, draft: Draft) {
    && WaitsSince(inputs, KeyOf(draft), a, z)
    && inputs[a].rule == rule && inputs[z].draft == draft && now - inputs[a].ts >= rule.pendingFor
  }

  ghost predicate OpensNow(s: State, t: State, rule: Rule, draft: Draft, w: World) {
    exists id :: NewWith(s, t, id, rule, draft, w)
  }

  ghost predicate NewWith(s: State, t: State, id: nat, rule: Rule, draft: Draft, w: World) {
    IsNew(s, t, id) && t.births[id].rule == rule && t.births[id].draft == draft && t.births[id].world == w
  }

  /** Input `i` opens an alert if and only if the inputs up to it call for one, the store accepts it and no active alert
      has its key.  Both directions: no alert opens without its condition, and no condition is missed. */
  lemma OpensIff(states: seq<State>, inputs: seq<Input>, i: nat, rule: Rule, draft: Draft, w: World)
    requires Fresh(states, inputs) && i < |inputs|
    ensures OpensNow(states[i], states[i + 1], rule, draft, w) <==>
      CallsFor(inputs[..i], inputs[i], rule, draft, w) && w.storeOk && !HasActive(states[i].alerts, KeyOf(draft))
  {
    hide Ok, Step, HasActive, LogAt, Opener, WaitsSince, WaitingAfter;
    var s, input, s' := states[i], inputs[i], states[i + 1];
    FreshRunIsOk(states, inputs, i);
    StepOpensExactly(s, input, s');
    forall b: Birth | b.rule == rule && b.draft == draft && b.world == w && Opener(s, input, b)
      ensures CallsFor(inputs[..i], input, rule, draft, w) && w.storeOk && !HasActive(s.alerts, KeyOf(draft))
    {
      OpenerIsCalledFor(states, inputs, i, b);
    }
    if CallsFor(inputs[..i], input, rule, draft, w) && w.storeOk && !HasActive(s.alerts, KeyOf(draft)) {
      var b := CalledForOpens(states, inputs, i, rule, draft, w);
      var id :| IsNew(s, s', id) && s'.births[id] == b;
      assert NewWith(s, s', id, rule, draft, w);
    }
  }

  /** What is pending in a run is what its inputs say. */
  lemma PendingIsOfInputs(states: seq<State>, inputs: seq<Input>, i: nat, key: Key)
    requires Fresh(states, inputs) && i <= |inputs|
    ensures key in states[i].pending <==> exists a, z :: WaitsSince(inputs[..i], key, a, z)
    ensures forall a: nat, z: nat :: WaitsSince(inputs[..i], key, a, z) ==>
      key in states[i].pending && states[i].pending[key] == EntryOf(inputs[a], inputs[z])
  {
    FreshRunIsOk(states, inputs, i);
    hide Step, LogAt, LogAfter, WaitingAfter, WaitsSince, OneEach, Recorded, AllBorn, Accounted;
    LogsAreOfInputs(states, inputs, i, key);
    WaitingIsOfInputs(inputs[..i], key);
    forall a: nat, z: nat | WaitsSince(inputs[..i], key, a, z)
      ensures inputs[..i][a] == inputs[a] && inputs[..i][z] == inputs[z]
    {
      SpanIsThere(inputs[..i], key, a, z);
    }
  }

  lemma OpenerIsCalledFor(states: seq<State>, inputs: seq<Input>, i: nat, b: Birth)
    requires Fresh(states, inputs) && i < |inputs| && Opener(states[i], inputs[i], b)
    ensures CallsFor(inputs[..i], inputs[i], b.rule, b.draft, b.world)
    ensures b.world.storeOk && !HasActive(states[i].alerts, KeyOf(b.draft))
  {
    hide Step, LogAt, HasActive, WaitsSince, LastOf;
    var key := KeyOf(b.draft);
    if inputs[i].Fire? {
      PendingIsOfInputs(states, inputs, i, key);
      var a: nat, z: nat :| WaitsSince(inputs[..i], key, a, z);
      SpanIsThere(inputs[..i], key, a, z);
      assert HeldSince(inputs[..i], a, z, inputs[i].now, b.rule, b.draft);
    }
  }

  lemma CalledForOpens(states: seq<State>, inputs: seq<Input>, i: nat, rule: Rule, draft: Draft, w: World)
    returns (b: Birth)
    requires Fresh(states, inputs) && i < |inputs| && CallsFor(inputs[..i], inputs[i], rule, draft, w)
    requires w.storeOk && !HasActive(states[i].alerts, KeyOf(draft))
    ensures Opener(states[i], inputs[i], b) && b.rule == rule && b.draft == draft && b.world == w
  {
    hide Step, LogAt, HasActive, WaitsSince, LastOf;
    var key := KeyOf(draft);
    match inputs[i] {
      case Event(_, _, _, _, _, _) => b := Birth(rule, draft, AtOnce, w);
      case Silent(_, _, _) => b := Birth(rule, draft, Silence, w);
      case Fire(now, worlds) =>
        PendingIsOfInputs(states, inputs, i, key);
        var a: nat, z: nat :| HeldSince(inputs[..i], a, z, now, rule, draft);
        SpanIsThere(inputs[..i], key, a, z);
        b := BirthOf(states[i].pending[key], LogAt(states[i].logs, key) + [Fired(now)], w);
    }
  }

  ghost predicate OpenedBy(states: seq<State>, inputs: seq<Input>, i: nat, id: nat, b: Birth)
    requires IsRun(states, inputs) && i < |inputs|
  {
    && IsNew(states[i], states[i + 1], id) && CallsFor(inputs[..i], inputs[i], b.rule, b.draft, b.world)
    && b.world.storeOk && !HasActive(states[i].alerts, KeyOf(b.draft))
  }

  /** Every alert of a run was called for by the inputs up to the one that opened it. */
  lemma {:induction false} EveryAlertWasCalledFor(states: seq<State>, inputs: seq<Input>, n: nat, id: nat)
    requires Fresh(states, inputs) && n <= |inputs| && id in states[n].births
    ensures exists i: nat :: i < n && OpenedBy(states, inputs, i, id, states[n].births[id])
  {
    hide Step, Opener, CallsFor, Ok, HasActive;
    if n > 0 {
      var s, s' := states[n - 1], states[n];
      FreshRunIsOk(states, inputs, n - 1);
      StepOpensExactly(s, inputs[n - 1], s');
      if id in s.births {
        EveryAlertWasCalledFor(states, inputs, n - 1, id);
        var i: nat :| i < n - 1 && OpenedBy(states, inputs, i, id, s.births[id]);
        assert OpenedBy(states, inputs, i, id, s'.births[id]);
      } else {
        assert IsNew(s, s', id);
        OpenerIsCalledFor(states, inputs, n - 1, s'.births[id]);
        assert OpenedBy(states, inputs, n - 1, id, s'.births[id]);
      }
    }
  }

  lemma FreshRunIs(states: seq<State>, inputs: seq<Input>)
    requires Fresh(states, inputs)
    ensures var s := states[|inputs|];
      && (forall key :: LogAt(s.logs, key) == LogAfter(inputs, key))
      && (forall id :: id in s.births ==>
            exists i: nat :: i < |inputs| && OpenedBy(states, inputs, i, id, s.births[id]))
  {
    hide Step, OpenedBy, LogAt, LogAfter;
    var n := |inputs|;
    assert inputs[..n] == inputs;
    forall key: Key ensures LogAt(states[n].logs, key) == LogAfter(inputs, key) {
      LogsAreOfInputs(states, inputs, n, key);
    }
    forall id | id in states[n].births
      ensures exists i: nat :: i < n && OpenedBy(states, inputs, i, id, states[n].births[id])
    {
      EveryAlertWasCalledFor(states, inputs, n, id);
    }
  }

  // ---- what becomes of pages --------------------------------------------------------------------

  /** Input `i` is a look that starts the held alert's chain: it reads the alert, which is open and not suppressed, and
      the escalator accepts it. */
  ghost predicate StartedAt(states: seq<State>, inputs: seq<Input>, i: nat, id: nat)
    requires IsRun(states, inputs) && i < |inputs|
  {
    inputs[i].Look? && id in states[i].held && id in states[i].alerts &&
    var sight := inputs[i].sights(id);
    sight.readOk && states[i].alerts[id].status == Open && !sight.suppressed && sight.startOk
  }

  /** Input `i` is a look that finds the held alert gone or no longer open. */
  ghost predicate ClosedAt(states: seq<State>, inputs: seq<Input>, i: nat, id: nat)
    requires IsRun(states, inputs) && i < |inputs|
  {
    inputs[i].Look? && id in states[i].held && inputs[i].sights(id).readOk &&
    (id !in states[i].alerts || states[i].alerts[id].status != Open)
  }

  ghost predicate StartedBefore(states: seq<State>, inputs: seq<Input>, n: nat, id: nat)
    requires IsRun(states, inputs) && n <= |inputs|
  {
    exists i: nat :: i < n && StartedAt(states, inputs, i, id)
  }

  ghost predicate ClosedBefore(states: seq<State>, inputs: seq<Input>, n: nat, id: nat)
    requires IsRun(states, inputs) && n <= |inputs|
  {
    exists i: nat :: i < n && ClosedAt(states, inputs, i, id)
  }

  /** The page owed by an alert of an escalating rule, exactly: its chain is started once, at the opening when the alert
      was not suppressed and the escalator accepted, otherwise at the first look that finds it open, unsuppressed and
      accepted.  It is given up only when its start failed at the opening, or when a look finds the alert no longer
      open; until then it is held. */
  lemma PageFate(states: seq<State>, inputs: seq<Input>, n: nat, id: nat)
    requires Fresh(states, inputs) && n <= |inputs| && Owes(states[n].births, id)
    ensures var s, b := states[n], states[n].births[id];
      && s.books.started[Chain(id, b.rule.policy)] ==
         (if (!b.world.suppressed && b.world.startOk) || (b.world.suppressed && StartedBefore(states, inputs, n, id))
          then 1 else 0)
      && (forall c :: c in s.books.started && c.id == id ==> c.policy == b.rule.policy)
      && (id in s.books.failedAtOpening <==> !b.world.suppressed && !b.world.startOk)
      && (id in s.books.seenClosed <==> ClosedBefore(states, inputs, n, id))
      && (id in s.held <==>
            b.world.suppressed && !StartedBefore(states, inputs, n, id) && !ClosedBefore(states, inputs, n, id))
  {
    hide Step, StartedBefore, ClosedBefore;
    FreshRunIsOk(states, inputs, n);
    FateIsOfLooks(states, inputs, n, id);
    assert OneFate(states[n].books, states[n].held, id, states[n].births[id]);
  }

  /** What the looks so far have done to one page. */
  ghost predicate LookedThrough(s: State, id: nat, started: bool, closed: bool) {
    && (id in s.books.seenClosed <==> closed)
    && (id !in s.births ==> !started)
    && (Owes(s.births, id) && s.births[id].world.suppressed ==>
          (s.books.started[Chain(id, s.births[id].rule.policy)] == 1 <==> started))
  }

  lemma {:induction false} FateIsOfLooks(states: seq<State>, inputs: seq<Input>, n: nat, id: nat)
    requires Fresh(states, inputs) && n <= |inputs|
    ensures LookedThrough(states[n], id, StartedBefore(states, inputs, n, id), ClosedBefore(states, inputs, n, id))
  {
    hide Step, Ok, LookedThrough, StartedAt, ClosedAt, StartedBefore, ClosedBefore;
    if n == 0 {
      NothingLookedThrough(states, inputs, id);
    } else {
      var m := n - 1;
      FateIsOfLooks(states, inputs, m, id);
      FreshRunIsOk(states, inputs, m);
      FreshRunIsOk(states, inputs, n);
      BeforeOneMore(states, inputs, m, id);
      LookedThroughOneMore(states, inputs, m, id,
        StartedBefore(states, inputs, m, id), ClosedBefore(states, inputs, m, id));
    }
  }

  lemma NothingLookedThrough(states: seq<State>, inputs: seq<Input>, id: nat)
    requires Fresh(states, inputs)
    ensures LookedThrough(states[0], id, StartedBefore(states, inputs, 0, id), ClosedBefore(states, inputs, 0, id))
  {
    hide Step;
  }

  lemma BeforeOneMore(states: seq<State>, inputs: seq<Input>, n: nat, id: nat)
    requires IsRun(states, inputs) && n < |inputs|
    ensures StartedBefore(states, inputs, n + 1, id) <==>
      StartedBefore(states, inputs, n, id) || StartedAt(states, inputs, n, id)
    ensures ClosedBefore(states, inputs, n + 1, id) <==>
      ClosedBefore(states, inputs, n, id) || ClosedAt(states, inputs, n, id)
  {
    hide Step, StartedAt, ClosedAt;
  }

  lemma LookedThroughOneMore(states: seq<State>, inputs: seq<Input>, m: nat, id: nat, started: bool, closed: bool)
    requires IsRun(states, inputs) && m < |inputs| && Ok(states[m]) && Ok(states[m + 1])
    requires LookedThrough(states[m], id, started, closed)
    ensures LookedThrough(states[m + 1], id,
      started || StartedAt(states, inputs, m, id), closed || ClosedAt(states, inputs, m, id))
  {
    if inputs[m].Look? {
      LookAtOne(states[m], inputs[m].sights, id, started, closed);
    } else {
      hide Step;
      StepKeepsFates(states[m], inputs[m], states[m + 1]);
      StepOpensExactly(states[m], inputs[m], states[m + 1]);
      UnlookedStays(states[m], states[m + 1], id, started, closed);
    }
  }

  lemma LookAtOne(s: State, sights: nat -> Sight, id: nat, started: bool, closed: bool)
    requires Ok(s) && LookedThrough(s, id, started, closed)
    ensures LookedThrough(Looked(s, sights, {}), id,
      started || (id in s.held && Starts(s.alerts, id, sights(id))),
      closed || (id in s.held && FoundClosed(s.alerts, id, sights(id))))
  {
    hide PendingMatches, OneEach, Recorded, AllBorn, Starts, FoundClosed, Looked;
    LookedIs(s, sights, {});
    if Owes(s.births, id) {
      assert OneFate(s.books, s.held, id, s.births[id]);
      var c := Chain(id, s.births[id].rule.policy);
      assert Looked(s, sights, {}).books.started[c] ==
        s.books.started[c] + if StartsNow(s, c, sights(id)) then 1 else 0;
    }
  }

  lemma UnlookedStays(s: State, t: State, id: nat, started: bool, closed: bool)
    requires Ok(s) && Ok(t) && FatesKept(s, t) && BirthsKept(s.births, t.births)
    requires LookedThrough(s, id, started, closed)
    ensures LookedThrough(t, id, started, closed)
  {
    hide PendingMatches, OneEach, Recorded, AllBorn;
    if id in s.births {
      assert SameFate(s.books, s.held, t.books, t.held, id);
      var c := Chain(id, s.births[id].rule.policy);
      assert t.books.started[c] == s.books.started[c];
    } else if Owes(t.births, id) {
      assert IsNew(s, t, id) && OneFate(t.books, t.held, id, t.births[id]);
      FreshNotClosed(s, t, id);
    }
  }

  lemma FreshNotClosed(s: State, t: State, id: nat)
    requires Ok(s) && id !in s.births
    ensures id !in s.books.seenClosed
  {}

  // ---- matches that are merged ------------------------------------------------------------------

  /** Whether the active alert a match is merged into has its chain running, exactly: it was opened under an escalating
      rule, its start did not fail, it is not held, and no look found it closed before it was opened again. */
  lemma MergedIntoRunningChainIff(s: State, b: Birth, id: nat)
    requires Ok(s) && Holds(s.alerts, KeyOf(b.draft), id)
    ensures var t := Opened(s, b); t.births == s.births && t.books == s.books && t.held == s.held
    ensures id in s.births && (s.books.started[Chain(id, s.births[id].rule.policy)] > 0 <==>
      s.births[id].rule.policy != "" && id !in s.books.failedAtOpening && id !in s.held && id !in s.books.seenClosed)
  {
    hide Opened, PendingMatches, OneEach, AllBorn;
    MergingKeepsPages(s, b, id);
    if Owes(s.births, id) { assert OneFate(s.books, s.held, id, s.births[id]); }
  }

  lemma MergingKeepsPages(s: State, b: Birth, id: nat)
    requires Holds(s.alerts, KeyOf(b.draft), id)
    ensures var t := Opened(s, b); t.births == s.births && t.books == s.books && t.held == s.held
  {
    hide Refreshed, Escalated;
  }

  /** As long as an alert of a rule without policy holds the key, no alert of the key opens and the alert's own chain
      never starts, however many matches of escalating rules arrive: they are merged, and nobody is paged. */
  lemma {:induction false} UnescalatedAlertSwallowsPages(states: seq<State>, inputs: seq<Input>, key: Key, id: nat)
    requires IsRun(states, inputs) && Ok(states[0])
    requires forall s :: s in states ==> Holds(s.alerts, key, id)
    requires id in states[0].births && states[0].births[id].rule.policy == ""
    ensures var t := states[|inputs|];
      && (forall x :: x in t.births && KeyOf(t.births[x].draft) == key ==> x in states[0].births)
      && (forall c :: c in t.books.started ==> c.id != id)
  {
    hide Ok, Step, Holds;
    var n := |inputs|;
    if n == 0 {
      assert states[0] in states;
    } else {
      UnescalatedAlertSwallowsPages(states[..n], inputs[..n - 1], key, id);
      RunKeepsOk(states, inputs, n - 1);
      StepOpensExactly(states[n - 1], inputs[n - 1], states[n]);
      assert states[n - 1] in states;
      NothingOpensUnderHolder(states[n - 1], inputs[n - 1], states[n], key, id);
    }
    RunKeepsOk(states, inputs, n);
    BirthsGrow(states, inputs, 0, n);
    UnescalatedNeverStarts(states[n], id);
  }

  lemma NothingOpensUnderHolder(s: State, input: Input, s': State, key: Key, id: nat)
    requires OpensExactly(s, input, s') && Holds(s.alerts, key, id)
    ensures forall x :: x in s'.births && KeyOf(s'.births[x].draft) == key ==>
      x in s.births && s'.births[x] == s.births[x]
  {
    assert HasActive(s.alerts, key);
    forall x | IsNew(s, s', x) ensures KeyOf(s'.births[x].draft) != key {
      assert Opener(s, input, s'.births[x]);
    }
  }

  lemma UnescalatedNeverStarts(s: State, id: nat)
    requires Ok(s) && id in s.births && s.births[id].rule.policy == ""
    ensures forall c :: c in s.books.started ==> c.id != id
  {
    hide PendingMatches, OneEach, AllBorn, Recorded, OneFate;
  }
}
