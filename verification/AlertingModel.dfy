/** What alerts wait for (internal/alerting/engine.go): conditions that must hold for a while before they alert, as a
    log for every deduplication key. */
module AlertingModel {
  import opened Basics

  datatype Status = Open | Acked | Resolved | Expired

  /** An empty policy means the rule does not escalate. */
  datatype Rule = Rule(id: string, pendingFor: int, policy: string)

  datatype Draft = Draft(tenant: string, ruleId: string, dedup: string, content: string)

  datatype Alert = Alert(draft: Draft, status: Status)

  datatype Key = Key(tenant: string, dedup: string)

  datatype Pending = Pending(rule: Rule, firstAt: int, lastAt: int, draft: Draft)

  /** What to start once the suppression lifts. */
  datatype Held = Held(tenant: string, policy: string)

  /** What the store, the suppression checks and the escalator answer while an alert is opened. */
  datatype World = World(storeOk: bool, suppressed: bool, startOk: bool)

  /** What re-evaluation sees of a held alert. */
  datatype Sight = Sight(readOk: bool, suppressed: bool, startOk: bool)

  /** What the engine meets: matched events, silent heartbeat sources, the two halves of a tick with the answers the
      world gives then, and changes by others.  Automatic closing is a change between the halves. */
  datatype Input =
    | Event(rule: Rule, ts: int, draft: Draft, clear: bool, updateOk: bool, world: World)
    | Silent(rule: Rule, draft: Draft, world: World)
    | Fire(now: int, worlds: Key -> World)
    | Look(sights: nat -> Sight)
    | Changed(id: nat, status: Status)
    | Removed(id: nat)

  function KeyOf(d: Draft): Key { Key(d.tenant, d.dedup) }

  /** Alerts of different tenants never share a key, and tenants without slashes keep the joined text apart as well. */
  lemma KeysMean(a: Draft, b: Draft)
    ensures KeyOf(a) == KeyOf(b) <==> a.tenant == b.tenant && a.dedup == b.dedup
    ensures SlashFree(a.tenant) && SlashFree(b.tenant) ==>
      (a.tenant + "/" + a.dedup == b.tenant + "/" + b.dedup <==> KeyOf(a) == KeyOf(b))
  {
    hide SlashFree;
    if SlashFree(a.tenant) && SlashFree(b.tenant) && a.tenant + "/" + a.dedup == b.tenant + "/" + b.dedup {
      FirstSlashSplits(a.tenant, a.dedup, b.tenant, b.dedup);
    }
  }

  predicate Active(a: Alert) { a.status == Open || a.status == Acked }

  /** `id` is the active alert that holds a deduplication key; the empty key is held by none. */
  predicate Holds(alerts: map<nat, Alert>, key: Key, id: nat) {
    key.dedup != "" && id in alerts && Active(alerts[id]) && KeyOf(alerts[id].draft) == key
  }

  ghost predicate HasActive(alerts: map<nat, Alert>, key: Key) {
    exists id: nat :: Holds(alerts, key, id)
  }

  // ---- the log of a key -------------------------------------------------------------------------

  datatype Occurrence = Matched(rule: Rule, ts: int, draft: Draft) | Cleared | Fired(now: int)

  datatype Waiting = Nothing | Waiting(p: Pending)

  /** What is pending after a log. */
  ghost function WaitingAfter(log: seq<Occurrence>): Waiting {
    if log == [] then Nothing
    else
      var before := WaitingAfter(log[..|log| - 1]);
      match log[|log| - 1]
      case Matched(rule, ts, draft) =>
        if before.Waiting? then Waiting(before.p.(lastAt := ts, draft := draft))
        else Waiting(Pending(rule, ts, ts, draft))
      case _ => Nothing
  }

  lemma WaitingOfOneMore(log: seq<Occurrence>, o: Occurrence)
    ensures WaitingAfter(log + [o]) ==
      match o
      case Matched(rule, ts, draft) =>
        if WaitingAfter(log).Waiting? then Waiting(WaitingAfter(log).p.(lastAt := ts, draft := draft))
        else Waiting(Pending(rule, ts, ts, draft))
      case _ => Nothing
  {
    assert (log + [o])[..|log|] == log;
  }

  /** Nothing but matches from `i` up to `f`, and `i` is the first of them. */
  ghost predicate RunOfMatches(log: seq<Occurrence>, i: nat, f: nat) {
    i < f <= |log| && (forall j :: i <= j < f ==> log[j].Matched?) && (i == 0 || !log[i - 1].Matched?)
  }

  /** The log ends in an unbroken run of matches that starts at `i`. */
  ghost predicate MatchedSince(log: seq<Occurrence>, i: nat) { RunOfMatches(log, i, |log|) }

  /** A pending entry stands for the whole run of matches since the last clear or firing: its time and rule
      are those of the first of them, its draft that of the newest. */
  lemma {:induction false} WaitingIsRunOfMatches(log: seq<Occurrence>)
    ensures WaitingAfter(log).Waiting? <==> exists i :: MatchedSince(log, i)
    ensures forall i: nat :: MatchedSince(log, i) ==>
      var p := WaitingAfter(log).p;
      && p.rule == log[i].rule && p.firstAt == log[i].ts
      && p.draft == log[|log| - 1].draft && p.lastAt == log[|log| - 1].ts
  {
    if log != [] {
      var n := |log| - 1;
      var init := log[..n];
      WaitingIsRunOfMatches(init);
      if log[n].Matched? {
        if WaitingAfter(init).Waiting? {
          var i: nat :| MatchedSince(init, i);
          assert MatchedSince(log, i);
        } else {
          assert MatchedSince(log, n) by {
            if n > 0 && log[n - 1].Matched? { RunExists(init); }
          }
        }
        forall i: nat | MatchedSince(log, i) ensures i == n || MatchedSince(init, i) {}
      }
    }
  }

  lemma {:induction false} RunExists(log: seq<Occurrence>)
    requires log != [] && log[|log| - 1].Matched?
    ensures exists i :: MatchedSince(log, i)
  {
    var n := |log| - 1;
    if n > 0 && log[n - 1].Matched? {
      RunExists(log[..n]);
      var i: nat :| MatchedSince(log[..n], i);
      assert MatchedSince(log, i);
    } else {
      assert MatchedSince(log, n);
    }
  }

  /** The alert that comes out names the rule it waited for exactly when the newest match is that rule's;
      two rules that render the same key mix. */
  lemma DraftRuleAgreesIff(log: seq<Occurrence>, i: nat)
    requires MatchedSince(log, i)
    requires forall j :: 0 <= j < |log| && log[j].Matched? ==> log[j].draft.ruleId == log[j].rule.id
    ensures var p := WaitingAfter(log).p;
      p.draft.ruleId == p.rule.id <==> log[|log| - 1].rule.id == log[i].rule.id
  {
    WaitingIsRunOfMatches(log);
  }

  /** Two rules with one key: the alert waits for the first rule and comes out under the second. */
  lemma TwoRulesMix(r: Rule, r': Rule, ts: int, ts': int, d: Draft, d': Draft)
    requires d.ruleId == r.id && d'.ruleId == r'.id && r.id != r'.id
    ensures var p := WaitingAfter([Matched(r, ts, d), Matched(r', ts', d')]).p;
      p.rule == r && p.firstAt == ts && p.draft == d' && p.draft.ruleId != p.rule.id
  {
    var log := [Matched(r, ts, d), Matched(r', ts', d')];
    assert log[..1] == [Matched(r, ts, d)] && log[..1][..0] == [];
    assert MatchedSince(log, 0);
    WaitingIsRunOfMatches(log);
  }

  /** Up to `f` the log ends in a run of matches, unbroken since the last clear or firing, whose first match is the
      rule's and at `now` at least its hold time old, and whose newest match has the draft. */
  ghost predicate HeldThrough(log: seq<Occurrence>, f: nat, now: int, rule: Rule, draft: Draft) {
    exists i: nat ::
      RunOfMatches(log, i, f) && log[i].rule == rule && now - log[i].ts >= rule.pendingFor && log[f - 1].draft == draft
  }

  lemma HeldThroughStays(log: seq<Occurrence>, more: seq<Occurrence>, f: nat, now: int, rule: Rule, draft: Draft)
    requires HeldThrough(log, f, now, rule, draft) && log <= more
    ensures HeldThrough(more, f, now, rule, draft)
  {
    var i: nat :|
      RunOfMatches(log, i, f) && log[i].rule == rule && now - log[i].ts >= rule.pendingFor && log[f - 1].draft == draft;
    assert RunOfMatches(more, i, f);
  }

  predicate Overdue(p: Pending, now: int) { now - p.firstAt >= p.rule.pendingFor }

  /** An entry that is due has been held through. */
  lemma DueEntryHeldLongEnough(log: seq<Occurrence>, now: int)
    requires WaitingAfter(log).Waiting? && Overdue(WaitingAfter(log).p, now)
    ensures var p := WaitingAfter(log).p; HeldThrough(log, |log|, now, p.rule, p.draft)
  {
    WaitingIsRunOfMatches(log);
    var i: nat :| MatchedSince(log, i);
    assert RunOfMatches(log, i, |log|);
    assert now - log[i].ts >= log[i].rule.pendingFor;
  }

  // ---- what inputs write into the log of a key --------------------------------------------------

  predicate Matches(input: Input, key: Key) {
    input.Event? && KeyOf(input.draft) == key && !input.clear && input.rule.pendingFor > 0
  }

  predicate Clears(input: Input, key: Key) { input.Event? && KeyOf(input.draft) == key && input.clear }

  ghost function Occurs(input: Input, key: Key, w: Waiting): seq<Occurrence> {
    if Matches(input, key) then [Matched(input.rule, input.ts, input.draft)]
    else if Clears(input, key) then [Cleared]
    else if input.Fire? && w.Waiting? && Overdue(w.p, input.now) then [Fired(input.now)]
    else []
  }

  /** The log of a key after a sequence of inputs: nothing else the engine meets has a say in it. */
  ghost function LogAfter(inputs: seq<Input>, key: Key): seq<Occurrence> {
    if inputs == [] then []
    else
      var log := LogAfter(inputs[..|inputs| - 1], key);
      log + Occurs(inputs[|inputs| - 1], key, WaitingAfter(log))
  }

  lemma LogOfOneMore(inputs: seq<Input>, input: Input, key: Key)
    ensures LogAfter(inputs + [input], key) ==
      LogAfter(inputs, key) + Occurs(input, key, WaitingAfter(LogAfter(inputs, key)))
  {
    assert (inputs + [input])[..|inputs|] == inputs;
  }

  /** The key was matched first by input `a` and last by input `z`, and in between it was neither cleared nor taken out
      by a tick: every tick since came before the hold time of the first match's rule was over. */
  ghost predicate WaitsSince(inputs: seq<Input>, key: Key, a: nat, z: nat) {
    && a <= z < |inputs| && Matches(inputs[a], key) && Matches(inputs[z], key)
    && WaitingAfter(LogAfter(inputs[..a], key)) == Nothing
    && (forall j :: a < j < |inputs| ==> !Clears(inputs[j], key))
    && (forall j :: a < j < |inputs| && inputs[j].Fire? ==> inputs[j].now - inputs[a].ts < inputs[a].rule.pendingFor)
    && (forall j :: z < j < |inputs| ==> !Matches(inputs[j], key))
  }

  ghost function EntryOf(first: Input, newest: Input): Pending
    requires first.Event? && newest.Event?
  {
    Pending(first.rule, first.ts, newest.ts, newest.draft)
  }

  /** What is pending after a sequence of inputs is what the inputs say: an entry waits for a key exactly when the key
      was matched and since then neither cleared nor found due. */
  lemma {:induction false} WaitingIsOfInputs(inputs: seq<Input>, key: Key)
    ensures WaitingAfter(LogAfter(inputs, key)).Waiting? <==> exists a, z :: WaitsSince(inputs, key, a, z)
    ensures forall a: nat, z: nat :: WaitsSince(inputs, key, a, z) ==>
      WaitingAfter(LogAfter(inputs, key)) == Waiting(EntryOf(inputs[a], inputs[z]))
  {
    hide *;
    if inputs == [] {
      NothingWaitsYet(key);
    } else {
      var n := |inputs| - 1;
      var init, input := inputs[..n], inputs[n];
      WaitingIsOfInputs(init, key);
      assert inputs == init + [input];
      SomeoneWaits(init, input, key);
      EntriesOfOneMore(init, input, key);
    }
  }

  lemma NothingWaitsYet(key: Key)
    ensures WaitingAfter(LogAfter([], key)) == Nothing && forall a: nat, z: nat :: !WaitsSince([], key, a, z)
  {}

  /** Whether anything waits after one more input. */
  lemma SomeoneWaits(init: seq<Input>, input: Input, key: Key)
    requires WaitingAfter(LogAfter(init, key)).Waiting? <==> exists a, z :: WaitsSince(init, key, a, z)
    requires forall a: nat, z: nat :: WaitsSince(init, key, a, z) ==>
      WaitingAfter(LogAfter(init, key)) == Waiting(EntryOf(init[a], init[z]))
    ensures WaitingAfter(LogAfter(init + [input], key)).Waiting? <==>
      exists a, z :: WaitsSince(init + [input], key, a, z)
  {
    hide LogAfter, WaitingAfter, Occurs, WaitsSince;
    LogOfOneMore(init, input, key);
    WaitingOfOneInput(LogAfter(init, key), input, key);
    WaitsOneMore(init, input, key);
    forall a: nat, z: nat | WaitsSince(init, key, a, z)
      ensures a < |init| && Matches(init[a], key)
    {
      SpanIsThere(init, key, a, z);
    }
    if WaitingAfter(LogAfter(init, key)).Waiting? {
      var a: nat, z: nat :| WaitsSince(init, key, a, z);
      SpanIsThere(init, key, a, z);
      var z' := if Matches(input, key) then |init| else z;
      assert WaitsSince(init + [input], key, a, z') <==> StillWaits(init, input, key, a, z');
    } else {
      assert WaitsSince(init + [input], key, |init|, |init|) <==> StillWaits(init, input, key, |init|, |init|);
    }
  }

  lemma SpanIsThere(inputs: seq<Input>, key: Key, a: nat, z: nat)
    requires WaitsSince(inputs, key, a, z)
    ensures a <= z < |inputs| && Matches(inputs[a], key) && Matches(inputs[z], key)
  {}

  /** What waits after one more input. */
  lemma EntryOfOneMore(init: seq<Input>, input: Input, key: Key, a: nat, z: nat)
    requires forall a: nat, z: nat :: WaitsSince(init, key, a, z) ==>
      WaitingAfter(LogAfter(init, key)) == Waiting(EntryOf(init[a], init[z]))
    requires WaitsSince(init + [input], key, a, z)
    ensures var inputs := init + [input];
      WaitingAfter(LogAfter(inputs, key)) == Waiting(EntryOf(inputs[a], inputs[z]))
  {
    hide LogAfter, WaitingAfter, Occurs, WaitsSince;
    LogOfOneMore(init, input, key);
    WaitingOfOneInput(LogAfter(init, key), input, key);
    SpanOneMore(init, input, key, a, z);
    SpanIsThere(init + [input], key, a, z);
    if a < |init| {
      var y: nat :| WaitsSince(init, key, a, y) && (Matches(input, key) || y == z);
      SpanIsThere(init, key, a, y);
    }
  }

  lemma EntriesOfOneMore(init: seq<Input>, input: Input, key: Key)
    requires forall a: nat, z: nat :: WaitsSince(init, key, a, z) ==>
      WaitingAfter(LogAfter(init, key)) == Waiting(EntryOf(init[a], init[z]))
    ensures forall a: nat, z: nat :: WaitsSince(init + [input], key, a, z) ==>
      WaitingAfter(LogAfter(init + [input], key)) == Waiting(EntryOf((init + [input])[a], (init + [input])[z]))
  {
    hide LogAfter, WaitingAfter, Occurs;
    forall a: nat, z: nat | WaitsSince(init + [input], key, a, z)
      ensures WaitingAfter(LogAfter(init + [input], key)) ==
              Waiting(EntryOf((init + [input])[a], (init + [input])[z]))
    {
      EntryOfOneMore(init, input, key, a, z);
    }
  }

  lemma WaitingOfOneInput(log: seq<Occurrence>, input: Input, key: Key)
    ensures WaitingAfter(log + Occurs(input, key, WaitingAfter(log))) ==
      var w := WaitingAfter(log);
      if Matches(input, key) then
        if w.Waiting? then Waiting(w.p.(lastAt := input.ts, draft := input.draft))
        else Waiting(EntryOf(input, input))
      else if Clears(input, key) || (input.Fire? && w.Waiting? && Overdue(w.p, input.now)) then Nothing
      else w
  {
    hide WaitingAfter;
    var o := Occurs(input, key, WaitingAfter(log));
    if o == [] { assert log + o == log; } else { WaitingOfOneMore(log, o[0]); }
  }

  /** How the waiting span changes with one more input. */
  lemma WaitsOneMore(init: seq<Input>, input: Input, key: Key)
    ensures forall a: nat, z: nat :: WaitsSince(init + [input], key, a, z) <==> StillWaits(init, input, key, a, z)
  {
    forall a: nat, z: nat
      ensures WaitsSince(init + [input], key, a, z) <==> StillWaits(init, input, key, a, z)
    {
      SpanOneMore(init, input, key, a, z);
    }
  }

  ghost predicate StillWaits(init: seq<Input>, input: Input, key: Key, a: nat, z: nat) {
    if a >= |init| then
      a == z == |init| && Matches(input, key) && WaitingAfter(LogAfter(init, key)) == Nothing
    else
      && !Clears(input, key)
      && (input.Fire? && Matches(init[a], key) ==> input.now - init[a].ts < init[a].rule.pendingFor)
      && if Matches(input, key) then z == |init| && exists y :: WaitsSince(init, key, a, y)
         else WaitsSince(init, key, a, z)
  }

  lemma SpanOneMore(init: seq<Input>, input: Input, key: Key, a: nat, z: nat)
    ensures WaitsSince(init + [input], key, a, z) <==> StillWaits(init, input, key, a, z)
  {
    hide LogAfter, WaitingAfter, Clears;
    var n, inputs := |init|, init + [input];
    assert inputs[..n] == init && inputs[n] == input;
    assert forall j :: 0 <= j < n ==> inputs[j] == init[j];
    if a < n {
      assert inputs[..a] == init[..a];
      if WaitsSince(inputs, key, a, z) && Matches(input, key) { LastMatch(init, key, a); }
    }
  }

  /** The last match since a first one. */
  lemma {:induction false} LastMatch(inputs: seq<Input>, key: Key, a: nat)
    requires a < |inputs| && Matches(inputs[a], key) && WaitingAfter(LogAfter(inputs[..a], key)) == Nothing
    requires forall j :: a < j < |inputs| ==> !Clears(inputs[j], key)
    requires forall j ::
      a < j < |inputs| && inputs[j].Fire? ==> inputs[j].now - inputs[a].ts < inputs[a].rule.pendingFor
    ensures exists z :: WaitsSince(inputs, key, a, z)
  {
    hide LogAfter, WaitingAfter, Matches, Clears;
    var z := |inputs| - 1;
    while !Matches(inputs[z], key)
      invariant a <= z < |inputs| && forall j :: z < j < |inputs| ==> !Matches(inputs[j], key)
      decreases z
    {
      z := z - 1;
    }
    assert WaitsSince(inputs, key, a, z);
  }
}
