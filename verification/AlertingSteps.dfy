/** The alerting engine's steps as relations between its states (internal/alerting/engine.go), what every step keeps,
    and what it does: which alerts it opens, what becomes of the pages owed, and what it writes into the logs. */
module AlertingSteps {
  import opened Basics
  import opened AlertingModel

  /** How an alert came to be opened: by a match, by an entry that fired at this place of its key's log, or by the
      silence of a heartbeat source. */
  datatype Origin = AtOnce | Waited(place: nat) | Silence

  /** The rule and draft an alert was opened with, and what the world answered then. */
  datatype Birth = Birth(rule: Rule, draft: Draft, origin: Origin, world: World)

  /** A successful start of an alert's escalation chain. */
  datatype Chain = Chain(id: nat, policy: string)

  /** Ghost books: what happened to the pages owed. */
  datatype Books = Books(started: multiset<Chain>, failedAtOpening: set<nat>, seenClosed: set<nat>)

  /** `held` are the alerts that opened while suppressed; logs, books and births are records of what happened. */
  datatype State = State(alerts: map<nat, Alert>, nextId: nat, pending: map<Key, Pending>, held: map<nat, Held>,
                         logs: map<Key, seq<Occurrence>>, books: Books, births: map<nat, Birth>)

  const EMPTY := State(map[], 0, map[], map[], map[], Books(multiset{}, {}, {}), map[])

  ghost function LogAt(logs: map<Key, seq<Occurrence>>, key: Key): seq<Occurrence> {
    if key in logs then logs[key] else []
  }

  ghost function Logged(logs: map<Key, seq<Occurrence>>, key: Key, o: Occurrence): map<Key, seq<Occurrence>> {
    logs[key := LogAt(logs, key) + [o]]
  }

  // ---- the steps --------------------------------------------------------------------------------

  function Extended(pending: map<Key, Pending>, r: Rule, ts: int, draft: Draft): map<Key, Pending> {
    var key := KeyOf(draft);
    pending[key := if key in pending then pending[key].(lastAt := ts, draft := draft) else Pending(r, ts, ts, draft)]
  }

  /** The active alert that holds the key resolved. */
  ghost function Resolving(alerts: map<nat, Alert>, key: Key, updateOk: bool): map<nat, Alert> {
    map id | id in alerts ::
      if updateOk && Holds(alerts, key, id) then alerts[id].(status := Resolved) else alerts[id]
  }

  /** The active alert that holds the draft's key, with the draft's content. */
  ghost function Refreshed(alerts: map<nat, Alert>, draft: Draft): map<nat, Alert> {
    map id | id in alerts ::
      if Holds(alerts, KeyOf(draft), id) then alerts[id].(draft := alerts[id].draft.(content := draft.content))
      else alerts[id]
  }

  /** A fresh alert starts its chain, or is held while it is suppressed. */
  function Escalated(s: State, id: nat, r: Rule, tenant: string, w: World): State {
    if r.policy == "" then s
    else if w.suppressed then s.(held := s.held[id := Held(tenant, r.policy)])
    else if w.startOk then
      s.(books := s.books.(started := s.books.started + multiset{Chain(id, r.policy)}))
    else s.(books := s.books.(failedAtOpening := s.books.failedAtOpening + {id}))
  }

  function Born(s: State, b: Birth): State {
    s.(alerts := s.alerts[s.nextId := Alert(b.draft, Open)], nextId := s.nextId + 1,
       births := s.births[s.nextId := b])
  }

  /** Whether opening makes a new alert. */
  ghost predicate Opens(s: State, b: Birth) { b.world.storeOk && !HasActive(s.alerts, KeyOf(b.draft)) }

  ghost function Opened(s: State, b: Birth): State {
    if !b.world.storeOk then s
    else if HasActive(s.alerts, KeyOf(b.draft)) then s.(alerts := Refreshed(s.alerts, b.draft))
    else Escalated(Born(s, b), s.nextId, b.rule, b.draft.tenant, b.world)
  }

  ghost function Clearing(s: State, key: Key, updateOk: bool): State {
    s.(pending := s.pending - {key}, logs := Logged(s.logs, key, Cleared),
       alerts := Resolving(s.alerts, key, updateOk))
  }

  ghost function Waits(s: State, r: Rule, ts: int, draft: Draft): State {
    s.(pending := Extended(s.pending, r, ts, draft), logs := Logged(s.logs, KeyOf(draft), Matched(r, ts, draft)))
  }

  predicate IsDue(pending: map<Key, Pending>, key: Key, now: int) { key in pending && Overdue(pending[key], now) }

  /** The due entries except those in `later`, and what remains when they are taken out. */
  function DueNow(pending: map<Key, Pending>, now: int, later: set<Key>): map<Key, Pending> {
    map key | key in pending && key !in later && IsDue(pending, key, now) :: pending[key]
  }

  function NotDue(pending: map<Key, Pending>, now: int, later: set<Key>): map<Key, Pending> {
    map key | key in pending && (key in later || !IsDue(pending, key, now)) :: pending[key]
  }

  ghost function Firings(s: State, now: int, later: set<Key>): map<Key, seq<Occurrence>> {
    map key | key in s.pending && key !in later && IsDue(s.pending, key, now) :: LogAt(s.logs, key) + [Fired(now)]
  }

  ghost function FiredLogs(s: State, now: int, later: set<Key>): map<Key, seq<Occurrence>> {
    s.logs + Firings(s, now, later)
  }

  /** The due entries have fired. */
  ghost function Taken(s: State, now: int, later: set<Key>): State {
    s.(pending := NotDue(s.pending, now, later), logs := FiredLogs(s, now, later))
  }

  ghost function LastOf(log: seq<Occurrence>): nat { if log == [] then 0 else |log| - 1 }

  /** An entry that has just fired, as the birth of an alert. */
  ghost function BirthOf(p: Pending, log: seq<Occurrence>, w: World): Birth {
    Birth(p.rule, p.draft, Waited(LastOf(log)), w)
  }

  /** The due entries are opened one after the other. */
  ghost function OpenedInTurn(s: State, due: map<Key, Pending>, order: seq<Key>, worlds: Key -> World): State
    requires forall key :: key in order ==> key in due
  {
    if order == [] then s
    else
      var n := |order| - 1;
      var t := OpenedInTurn(s, due, order[..n], worlds);
      Opened(t, BirthOf(due[order[n]], LogAt(t.logs, order[n]), worlds(order[n])))
  }

  ghost predicate Lists<T(!new)>(order: seq<T>, s: set<T>) {
    && (forall x :: x in order <==> x in s)
    && forall i, j :: 0 <= i < j < |order| ==> order[i] != order[j]
  }

  /** The order in which due entries are opened is not determined. */
  ghost predicate Fires(s: State, now: int, worlds: Key -> World, s': State) {
    var due := DueNow(s.pending, now, {});
    exists order :: Lists(order, due.Keys) && s' == OpenedInTurn(Taken(s, now, {}), due, order, worlds)
  }

  /** The alert is open, not suppressed, and the escalator accepts it. */
  predicate Starts(alerts: map<nat, Alert>, id: nat, sight: Sight) {
    sight.readOk && id in alerts && alerts[id].status == Open && !sight.suppressed && sight.startOk
  }

  predicate FoundClosed(alerts: map<nat, Alert>, id: nat, sight: Sight) {
    sight.readOk && (id !in alerts || alerts[id].status != Open)
  }

  ghost function StartingOf(s: State, sights: nat -> Sight, later: set<nat>): set<nat> {
    set id | id in s.held && id !in later && Starts(s.alerts, id, sights(id)) :: id
  }

  ghost function ClosedOf(s: State, sights: nat -> Sight, later: set<nat>): set<nat> {
    set id | id in s.held && id !in later && FoundClosed(s.alerts, id, sights(id)) :: id
  }

  /** Every held alert that is not in `later` has been looked at. */
  ghost function Looked(s: State, sights: nat -> Sight, later: set<nat>): State {
    AfterLook(s, StartingOf(s, sights, later), ClosedOf(s, sights, later))
  }

  ghost function AfterLook(s: State, starting: set<nat>, closed: set<nat>): State
    requires starting <= s.held.Keys
  {
    s.(held := s.held - starting - closed,
       books := s.books.(started := s.books.started + multiset(ChainsOf(s.held, starting)),
                         seenClosed := s.books.seenClosed + closed))
  }

  ghost function ChainsOf(held: map<nat, Held>, ids: set<nat>): (chains: set<Chain>)
    requires ids <= held.Keys
    ensures forall c: Chain :: c in chains <==> c.id in ids && c.policy == held[c.id].policy
  {
    set id | id in ids :: Chain(id, held[id].policy)
  }

  /** One held alert has been looked at. */
  function LookedOne(s: State, id: nat, sight: Sight): State
    requires id in s.held
  {
    if Starts(s.alerts, id, sight) then
      s.(held := s.held - {id},
         books := s.books.(started := s.books.started + multiset{Chain(id, s.held[id].policy)}))
    else if FoundClosed(s.alerts, id, sight) then
      s.(held := s.held - {id}, books := s.books.(seenClosed := s.books.seenClosed + {id}))
    else s
  }

  ghost predicate Step(s: State, input: Input, s': State) {
    match input
    case Event(r, ts, draft, clear, updateOk, w) =>
      s' == if clear then Clearing(s, KeyOf(draft), updateOk)
            else if r.pendingFor > 0 then Waits(s, r, ts, draft)
            else Opened(s, Birth(r, draft, AtOnce, w))
    case Silent(r, draft, w) => s' == Opened(s, Birth(r, draft, Silence, w))
    case Fire(now, worlds) => Fires(s, now, worlds, s')
    case Look(sights) => s' == Looked(s, sights, {})
    case Changed(id, status) =>
      s' == if id in s.alerts && Active(s.alerts[id])
            then s.(alerts := s.alerts[id := s.alerts[id].(status := status)]) else s
    case Removed(id) => s' == s.(alerts := s.alerts - {id})
  }

  // ---- what every step keeps --------------------------------------------------------------------

  /** The pending map is what the logs say, and drafts carry their key. */
  ghost predicate PendingMatches(pending: map<Key, Pending>, logs: map<Key, seq<Occurrence>>) {
    forall key: Key ::
      && WaitingAfter(LogAt(logs, key)) == (if key in pending then Waiting(pending[key]) else Nothing)
      && (key in pending ==> KeyOf(pending[key].draft) == key)
  }

  /** Ids are handed out once, and at most one active alert holds a key. */
  ghost predicate OneEach(alerts: map<nat, Alert>, nextId: nat) {
    && (forall id :: id in alerts ==> id < nextId)
    && forall a, b, key :: Holds(alerts, key, a) && Holds(alerts, key, b) ==> a == b
  }

  /** An alert that did not wait is of a rule without hold time or of a heartbeat; one that did was held through when it
      fired. */
  ghost predicate BirthOk(log: seq<Occurrence>, b: Birth) {
    match b.origin
    case AtOnce => b.rule.pendingFor <= 0
    case Waited(f) => f < |log| && log[f].Fired? && HeldThrough(log, f, log[f].now, b.rule, b.draft)
    case Silence => true
  }

  ghost predicate AllBorn(births: map<nat, Birth>, logs: map<Key, seq<Occurrence>>) {
    forall id :: id in births ==> BirthOk(LogAt(logs, KeyOf(births[id].draft)), births[id])
  }

  /** Every alert is one that was opened, and has kept all of its draft but the content. */
  ghost predicate Recorded(alerts: map<nat, Alert>, births: map<nat, Birth>, nextId: nat) {
    && (forall id :: id in births ==> id < nextId)
    && forall id :: id in alerts ==> id in births && SameButContent(alerts[id].draft, births[id].draft)
  }

  predicate SameButContent(d: Draft, e: Draft) { d.(content := "") == e.(content := "") }

  /** The alert was opened under an escalating rule. */
  predicate Owes(births: map<nat, Birth>, id: nat) { id in births && births[id].rule.policy != "" }

  /** Exactly one fate for an alert that owes a page, settled at its opening unless it was suppressed then. */
  ghost predicate OneFate(b: Books, held: map<nat, Held>, id: nat, birth: Birth) {
    var n := b.started[Chain(id, birth.rule.policy)];
    if !birth.world.suppressed then
      && id !in held && id !in b.seenClosed
      && if birth.world.startOk then n == 1 && id !in b.failedAtOpening else n == 0 && id in b.failedAtOpening
    else
      && id !in b.failedAtOpening
      && ((n == 1 && id !in held && id !in b.seenClosed)
          || (n == 0 && id in held && id !in b.seenClosed)
          || (n == 0 && id !in held && id in b.seenClosed))
  }

  /** Every page owed has one fate; nothing else is held or started, and no chain under another policy. */
  ghost predicate Accounted(b: Books, held: map<nat, Held>, births: map<nat, Birth>) {
    && (forall id :: Owes(births, id) ==> OneFate(b, held, id, births[id]))
    && (forall id :: id in b.seenClosed || id in b.failedAtOpening ==> Owes(births, id))
    && (forall id :: id in held ==>
          Owes(births, id) && held[id] == Held(births[id].draft.tenant, births[id].rule.policy))
    && (forall c :: c in b.started ==> Owes(births, c.id) && c.policy == births[c.id].rule.policy)
  }

  ghost predicate Ok(s: State) {
    && PendingMatches(s.pending, s.logs)
    && OneEach(s.alerts, s.nextId)
    && Recorded(s.alerts, s.births, s.nextId)
    && AllBorn(s.births, s.logs)
    && Accounted(s.books, s.held, s.births)
  }

  lemma EmptyIsOk()
    ensures Ok(EMPTY)
  {}

  ghost predicate LogsGrow(logs: map<Key, seq<Occurrence>>, logs': map<Key, seq<Occurrence>>) {
    forall key: Key :: LogAt(logs, key) <= LogAt(logs', key)
  }

  lemma BirthsStay(births: map<nat, Birth>, logs: map<Key, seq<Occurrence>>, logs': map<Key, seq<Occurrence>>)
    requires AllBorn(births, logs) && LogsGrow(logs, logs')
    ensures AllBorn(births, logs')
  {
    hide LogAt, HeldThrough;
    forall id | id in births ensures BirthOk(LogAt(logs', KeyOf(births[id].draft)), births[id]) {
      var b := births[id];
      var log, more := LogAt(logs, KeyOf(b.draft)), LogAt(logs', KeyOf(b.draft));
      assert log <= more;
      if b.origin.Waited? { HeldThroughStays(log, more, b.origin.place, log[b.origin.place].now, b.rule, b.draft); }
    }
  }

  lemma LoggedIs(logs: map<Key, seq<Occurrence>>, key: Key, o: Occurrence)
    ensures forall k :: LogAt(Logged(logs, key, o), k) == LogAt(logs, k) + if k == key then [o] else []
    ensures LogsGrow(logs, Logged(logs, key, o))
  {}

  lemma PendingAfterMatch(pending: map<Key, Pending>, logs: map<Key, seq<Occurrence>>, r: Rule, ts: int, draft: Draft)
    requires PendingMatches(pending, logs)
    ensures PendingMatches(Extended(pending, r, ts, draft), Logged(logs, KeyOf(draft), Matched(r, ts, draft)))
  {
    hide WaitingAfter, LogAt, Logged;
    WaitingOfOneMore(LogAt(logs, KeyOf(draft)), Matched(r, ts, draft));
    LoggedIs(logs, KeyOf(draft), Matched(r, ts, draft));
    assert forall key :: LogAt(logs, key) + [] == LogAt(logs, key);
  }

  lemma PendingAfterEnd(pending: map<Key, Pending>, logs: map<Key, seq<Occurrence>>, key: Key, o: Occurrence)
    requires PendingMatches(pending, logs) && !o.Matched?
    ensures PendingMatches(pending - {key}, Logged(logs, key, o))
  {
    hide WaitingAfter, LogAt, Logged;
    WaitingOfOneMore(LogAt(logs, key), o);
    LoggedIs(logs, key, o);
    assert forall k :: LogAt(logs, k) + [] == LogAt(logs, k);
  }

  lemma WaitingKeepsOk(s: State, r: Rule, ts: int, draft: Draft)
    requires Ok(s)
    ensures Ok(Waits(s, r, ts, draft))
  {
    hide WaitingAfter, LogAt, Logged, AllBorn, Accounted, OneEach, Recorded, PendingMatches, Extended, LogsGrow;
    PendingAfterMatch(s.pending, s.logs, r, ts, draft);
    LoggedIs(s.logs, KeyOf(draft), Matched(r, ts, draft));
    BirthsStay(s.births, s.logs, Logged(s.logs, KeyOf(draft), Matched(r, ts, draft)));
  }

  lemma ClearingKeepsOk(s: State, key: Key, updateOk: bool)
    requires Ok(s)
    ensures Ok(Clearing(s, key, updateOk))
  {
    hide WaitingAfter, LogAt, Logged, AllBorn, Accounted, OneEach, Recorded, PendingMatches, Resolving, LogsGrow;
    PendingAfterEnd(s.pending, s.logs, key, Cleared);
    LoggedIs(s.logs, key, Cleared);
    BirthsStay(s.births, s.logs, Logged(s.logs, key, Cleared));
    ResolvingKeeps(s, key, updateOk);
  }

  lemma ResolvingKeeps(s: State, key: Key, updateOk: bool)
    requires OneEach(s.alerts, s.nextId) && Recorded(s.alerts, s.births, s.nextId)
    ensures var alerts := Resolving(s.alerts, key, updateOk);
      OneEach(alerts, s.nextId) && Recorded(alerts, s.births, s.nextId)
  {
    var alerts := Resolving(s.alerts, key, updateOk);
    forall k, x | Holds(alerts, k, x) ensures Holds(s.alerts, k, x) {}
  }

  lemma RefreshedIs(alerts: map<nat, Alert>, draft: Draft)
    ensures forall k, x :: Holds(Refreshed(alerts, draft), k, x) <==> Holds(alerts, k, x)
    ensures forall k :: HasActive(Refreshed(alerts, draft), k) <==> HasActive(alerts, k)
  {
    var after := Refreshed(alerts, draft);
    forall k: Key ensures HasActive(after, k) <==> HasActive(alerts, k) {
      if x: nat :| Holds(alerts, k, x) { assert Holds(after, k, x); }
      if x: nat :| Holds(after, k, x) { assert Holds(alerts, k, x); }
    }
  }

  lemma RefreshingKeeps(s: State, draft: Draft)
    requires OneEach(s.alerts, s.nextId) && Recorded(s.alerts, s.births, s.nextId)
    ensures var alerts := Refreshed(s.alerts, draft);
      OneEach(alerts, s.nextId) && Recorded(alerts, s.births, s.nextId)
  {
    hide HasActive;
    RefreshedIs(s.alerts, draft);
  }

  lemma BirthKeeps(s: State, b: Birth)
    requires OneEach(s.alerts, s.nextId) && Recorded(s.alerts, s.births, s.nextId) && AllBorn(s.births, s.logs)
    requires Opens(s, b) && BirthOk(LogAt(s.logs, KeyOf(b.draft)), b)
    ensures var t := Born(s, b);
      OneEach(t.alerts, t.nextId) && Recorded(t.alerts, t.births, t.nextId) && AllBorn(t.births, t.logs)
  {
    hide BirthOk, LogAt;
    var t := Born(s, b);
    forall x, y, key | Holds(t.alerts, key, x) && Holds(t.alerts, key, y) ensures x == y {
      if x != s.nextId { assert Holds(s.alerts, key, x); }
      if y != s.nextId { assert Holds(s.alerts, key, y); }
    }
  }

  /** Nothing is said of the alert yet. */
  ghost predicate Unknown(b: Books, held: map<nat, Held>, id: nat) {
    id !in held && id !in b.seenClosed && id !in b.failedAtOpening && forall c :: c in b.started ==> c.id != id
  }

  /** Nothing changed for the alert. */
  ghost predicate SameFate(b: Books, held: map<nat, Held>, b': Books, held': map<nat, Held>, id: nat) {
    && (id in held' <==> id in held) && (id in held ==> held'[id] == held[id])
    && (id in b'.seenClosed <==> id in b.seenClosed) && (id in b'.failedAtOpening <==> id in b.failedAtOpening)
    && forall c: Chain :: c.id == id ==> b'.started[c] == b.started[c]
  }

  lemma OneMoreAccount(b: Books, held: map<nat, Held>, births: map<nat, Birth>, b': Books, held': map<nat, Held>,
                       id: nat, birth: Birth)
    requires Accounted(b, held, births) && id !in births
    requires forall x: nat :: x != id ==> SameFate(b, held, b', held', x)
    requires birth.rule.policy == "" ==> Unknown(b', held', id)
    requires birth.rule.policy != "" ==> OneFate(b', held', id, birth)
    requires id in held' ==> held'[id] == Held(birth.draft.tenant, birth.rule.policy)
    requires forall c :: c in b'.started && c.id == id ==> c.policy == birth.rule.policy
    ensures Accounted(b', held', births[id := birth])
  {
    hide OneFate;
    var births' := births[id := birth];
    forall x: nat | Owes(births', x) ensures OneFate(b', held', x, births'[x]) {
      if x != id { FateKept(b, held, b', held', x, births[x]); }
    }
    forall x: nat | x in b'.seenClosed || x in b'.failedAtOpening || x in held' ensures Owes(births', x) {
      if x != id { assert SameFate(b, held, b', held', x); }
    }
    forall x: nat | x in held' ensures held'[x] == Held(births'[x].draft.tenant, births'[x].rule.policy) {
      if x != id { assert SameFate(b, held, b', held', x); }
    }
    forall c | c in b'.started ensures Owes(births', c.id) && c.policy == births'[c.id].rule.policy {
      if c.id != id {
        assert SameFate(b, held, b', held', c.id);
        assert b'.started[c] == b.started[c];
      }
    }
  }

  lemma FateKept(b: Books, held: map<nat, Held>, b': Books, held': map<nat, Held>, id: nat, birth: Birth)
    requires SameFate(b, held, b', held', id) && OneFate(b, held, id, birth)
    ensures OneFate(b', held', id, birth)
  {
    var c := Chain(id, birth.rule.policy);
    assert b'.started[c] == b.started[c];
  }

  lemma EscalatingKeeps(s: State, b: Birth)
    requires Recorded(s.alerts, s.births, s.nextId) && Accounted(s.books, s.held, s.births)
    ensures var t := Escalated(Born(s, b), s.nextId, b.rule, b.draft.tenant, b.world);
      Accounted(t.books, t.held, t.births)
  {
    var id := s.nextId;
    var t := Escalated(Born(s, b), id, b.rule, b.draft.tenant, b.world);
    NothingKnown(s);
    EscalatedFate(s, b);
    hide Accounted, OneFate, Unknown, SameFate, Recorded;
    OneMoreAccount(s.books, s.held, s.births, t.books, t.held, id, b);
  }

  lemma NothingKnown(s: State)
    requires Recorded(s.alerts, s.births, s.nextId) && Accounted(s.books, s.held, s.births)
    ensures s.nextId !in s.births && Unknown(s.books, s.held, s.nextId)
  {
    hide OneFate;
  }

  lemma EscalatedFate(s: State, b: Birth)
    requires Unknown(s.books, s.held, s.nextId)
    ensures var id, t := s.nextId, Escalated(Born(s, b), s.nextId, b.rule, b.draft.tenant, b.world);
      && (forall x: nat :: x != id ==> SameFate(s.books, s.held, t.books, t.held, x))
      && (if b.rule.policy == "" then Unknown(t.books, t.held, id) else OneFate(t.books, t.held, id, b))
      && (id in t.held ==> t.held[id] == Held(b.draft.tenant, b.rule.policy))
      && (forall c :: c in t.books.started && c.id == id ==> c.policy == b.rule.policy)
      && t.births == s.births[id := b]
  {
    assert Chain(s.nextId, b.rule.policy) !in s.books.started;
  }

  lemma OpeningKeepsOk(s: State, b: Birth)
    requires Ok(s) && BirthOk(LogAt(s.logs, KeyOf(b.draft)), b)
    ensures Ok(Opened(s, b))
  {
    hide PendingMatches, OneEach, Recorded, AllBorn, Accounted, BirthOk, LogAt, HasActive, Refreshed;
    if b.world.storeOk {
      if HasActive(s.alerts, KeyOf(b.draft)) {
        RefreshingKeeps(s, b.draft);
      } else {
        BirthKeeps(s, b);
        EscalatingKeeps(s, b);
      }
    }
  }

  // ---- firing -----------------------------------------------------------------------------------

  lemma FiredLogsAre(s: State, now: int, later: set<Key>)
    ensures forall key ::
      LogAt(FiredLogs(s, now, later), key) ==
      LogAt(s.logs, key) + if key !in later && IsDue(s.pending, key, now) then [Fired(now)] else []
    ensures LogsGrow(s.logs, FiredLogs(s, now, later))
  {
    assert forall key :: LogAt(s.logs, key) + [] == LogAt(s.logs, key);
  }

  lemma TakingKeepsOk(s: State, now: int)
    requires Ok(s)
    ensures Ok(Taken(s, now, {}))
  {
    hide LogAt, AllBorn, Accounted, OneEach, Recorded, WaitingAfter, FiredLogs, IsDue, LogsGrow;
    FiredLogsAre(s, now, {});
    BirthsStay(s.births, s.logs, FiredLogs(s, now, {}));
    forall key: Key
      ensures WaitingAfter(LogAt(FiredLogs(s, now, {}), key)) ==
              if IsDue(s.pending, key, now) then Nothing else WaitingAfter(LogAt(s.logs, key))
    {
      WaitingOfOneMore(LogAt(s.logs, key), Fired(now));
      assert LogAt(s.logs, key) + [] == LogAt(s.logs, key);
    }
    DueSplits(s.pending, now);
  }

  lemma DueSplits(pending: map<Key, Pending>, now: int)
    ensures forall key :: key in NotDue(pending, now, {}) <==> key in pending && !IsDue(pending, key, now)
    ensures forall key :: key in DueNow(pending, now, {}) <==> IsDue(pending, key, now)
  {}

  /** The entries to open have fired last in their logs, held through. */
  ghost predicate Ripe(logs: map<Key, seq<Occurrence>>, due: map<Key, Pending>, worlds: Key -> World) {
    forall key :: key in due ==>
      KeyOf(due[key].draft) == key && BirthOk(LogAt(logs, key), BirthOf(due[key], LogAt(logs, key), worlds(key)))
  }

  /** What fires has been held through. */
  lemma DueAreBorn(s: State, now: int, worlds: Key -> World)
    requires Ok(s)
    ensures Ripe(FiredLogs(s, now, {}), DueNow(s.pending, now, {}), worlds)
  {
    hide LogAt, AllBorn, Accounted, OneEach, Recorded, WaitingAfter, FiredLogs, HeldThrough;
    FiredLogsAre(s, now, {});
    var due, logs := DueNow(s.pending, now, {}), FiredLogs(s, now, {});
    forall key | key in due
      ensures BirthOk(LogAt(logs, key), BirthOf(due[key], LogAt(logs, key), worlds(key)))
    {
      var p, log, more := due[key], LogAt(s.logs, key), LogAt(logs, key);
      assert more == log + [Fired(now)];
      DueEntryHeldLongEnough(log, now);
      HeldThroughStays(log, more, |log|, now, p.rule, p.draft);
    }
  }

  lemma {:induction false} OpeningInTurnKeepsOk(s: State, due: map<Key, Pending>, order: seq<Key>,
                                                worlds: Key -> World)
    requires Ok(s) && Ripe(s.logs, due, worlds) && forall key :: key in order ==> key in due
    ensures var t := OpenedInTurn(s, due, order, worlds); Ok(t) && t.logs == s.logs && t.pending == s.pending
  {
    hide Ok, BirthOk, LogAt, HasActive, Refreshed, Escalated, LastOf;
    if order != [] {
      var n := |order| - 1;
      OpeningInTurnKeepsOk(s, due, order[..n], worlds);
      var t := OpenedInTurn(s, due, order[..n], worlds);
      var b := BirthOf(due[order[n]], LogAt(t.logs, order[n]), worlds(order[n]));
      OpeningKeepsOk(t, b);
      OpeningKeepsLogs(t, b);
    }
  }

  lemma OpeningKeepsLogs(s: State, b: Birth)
    ensures var t := Opened(s, b);
      && t.logs == s.logs && t.pending == s.pending && t.books.seenClosed == s.books.seenClosed
      && t.births == if Opens(s, b) then s.births[s.nextId := b] else s.births
  {
    hide HasActive, Refreshed, Escalated;
    EscalatingKeepsLogs(Born(s, b), s.nextId, b.rule, b.draft.tenant, b.world);
  }

  lemma EscalatingKeepsLogs(s: State, id: nat, r: Rule, tenant: string, w: World)
    ensures var t := Escalated(s, id, r, tenant, w);
      && t.alerts == s.alerts && t.nextId == s.nextId && t.births == s.births
      && t.logs == s.logs && t.pending == s.pending && t.books.seenClosed == s.books.seenClosed
  {}

  lemma FiringKeepsOk(s: State, now: int, worlds: Key -> World, s': State)
    requires Ok(s) && Fires(s, now, worlds, s')
    ensures Ok(s')
  {
    hide Ok, DueNow, NotDue, FiredLogs, OpenedInTurn, BirthOk, LogAt;
    TakingKeepsOk(s, now);
    DueAreBorn(s, now, worlds);
    var due := DueNow(s.pending, now, {});
    var order :| Lists(order, due.Keys) && s' == OpenedInTurn(Taken(s, now, {}), due, order, worlds);
    OpeningInTurnKeepsOk(Taken(s, now, {}), due, order, worlds);
  }

  // ---- looking again ----------------------------------------------------------------------------

  /** What one look does to each page owed: it starts, or is found closed, or is looked at again next time. */
  ghost predicate LookedAt(s: State, t: State, sights: nat -> Sight, later: set<nat>) {
    && (forall id: nat :: id in t.held <==>
          id in s.held &&
          (id in later || (!Starts(s.alerts, id, sights(id)) && !FoundClosed(s.alerts, id, sights(id)))))
    && (forall id: nat :: id in t.held ==> t.held[id] == s.held[id])
    && (forall id: nat :: id in t.books.seenClosed <==>
          id in s.books.seenClosed || (id in s.held && id !in later && FoundClosed(s.alerts, id, sights(id))))
    && (forall c: Chain ::
          t.books.started[c] ==
          s.books.started[c] + if c.id !in later && StartsNow(s, c, sights(c.id)) then 1 else 0)
    && t == s.(held := t.held, books := s.books.(started := t.books.started, seenClosed := t.books.seenClosed))
  }

  predicate StartsNow(s: State, c: Chain, sight: Sight) {
    c.id in s.held && c.policy == s.held[c.id].policy && Starts(s.alerts, c.id, sight)
  }

  lemma LookedIs(s: State, sights: nat -> Sight, later: set<nat>)
    ensures LookedAt(s, Looked(s, sights, later), sights, later)
  {
    hide Starts, FoundClosed, ChainsOf;
  }

  lemma OpenIsNotClosed(alerts: map<nat, Alert>, sights: nat -> Sight)
    ensures forall id :: Starts(alerts, id, sights(id)) ==> !FoundClosed(alerts, id, sights(id))
  {}

  lemma LookingKeepsOk(s: State, sights: nat -> Sight, later: set<nat>)
    requires Ok(s)
    ensures Ok(Looked(s, sights, later))
  {
    hide PendingMatches, OneEach, Recorded, AllBorn, Accounted, Looked, Starts, FoundClosed;
    LookedIs(s, sights, later);
    FatesAfterLook(s, Looked(s, sights, later), sights, later);
  }

  lemma FatesAfterLook(s: State, t: State, sights: nat -> Sight, later: set<nat>)
    requires Accounted(s.books, s.held, s.births) && LookedAt(s, t, sights, later)
    ensures Accounted(t.books, t.held, t.births)
  {
    hide Starts, FoundClosed, OneFate;
    forall id: nat | Owes(s.births, id) ensures OneFate(t.books, t.held, id, s.births[id]) {
      FateAfterLook(s, t, sights, later, id);
    }
    forall c | c in t.books.started ensures Owes(s.births, c.id) && c.policy == s.births[c.id].rule.policy {
      assert c in s.books.started || StartsNow(s, c, sights(c.id));
    }
  }

  lemma FateAfterLook(s: State, t: State, sights: nat -> Sight, later: set<nat>, id: nat)
    requires Accounted(s.books, s.held, s.births) && Owes(s.births, id) && LookedAt(s, t, sights, later)
    ensures OneFate(t.books, t.held, id, s.births[id])
  {
    hide Starts, FoundClosed;
    OpenIsNotClosed(s.alerts, sights);
    assert OneFate(s.books, s.held, id, s.births[id]);
    var c := Chain(id, s.births[id].rule.policy);
    assert t.books.started[c] ==
      s.books.started[c] + if c.id !in later && StartsNow(s, c, sights(c.id)) then 1 else 0;
  }

  lemma ChangingKeepsOk(s: State, id: nat, status: Status)
    requires OneEach(s.alerts, s.nextId) && Recorded(s.alerts, s.births, s.nextId)
    requires id in s.alerts && Active(s.alerts[id])
    ensures var alerts := s.alerts[id := s.alerts[id].(status := status)];
      OneEach(alerts, s.nextId) && Recorded(alerts, s.births, s.nextId)
  {
    var alerts := s.alerts[id := s.alerts[id].(status := status)];
    forall k, x | Holds(alerts, k, x) ensures Holds(s.alerts, k, x) {}
  }

  lemma RemovingKeepsOk(s: State, id: nat)
    requires OneEach(s.alerts, s.nextId) && Recorded(s.alerts, s.births, s.nextId)
    ensures OneEach(s.alerts - {id}, s.nextId) && Recorded(s.alerts - {id}, s.births, s.nextId)
  {
    forall k, x | Holds(s.alerts - {id}, k, x) ensures Holds(s.alerts, k, x) {}
  }

  lemma AtOnceIsOk(logs: map<Key, seq<Occurrence>>, r: Rule, draft: Draft, w: World)
    requires r.pendingFor <= 0
    ensures BirthOk(LogAt(logs, KeyOf(draft)), Birth(r, draft, AtOnce, w))
  {}

  lemma SilenceIsOk(logs: map<Key, seq<Occurrence>>, r: Rule, draft: Draft, w: World)
    ensures BirthOk(LogAt(logs, KeyOf(draft)), Birth(r, draft, Silence, w))
  {}

  /** Every step the engine or anyone else takes keeps the invariant. */
  lemma StepKeepsOk(s: State, input: Input, s': State)
    requires Ok(s) && Step(s, input, s')
    ensures Ok(s')
  {
    hide PendingMatches, OneEach, Recorded, AllBorn, Accounted, Fires, Looked, Opened, Waits, Clearing, BirthOk;
    match input {
      case Event(r, ts, draft, clear, updateOk, w) =>
        if clear {
          ClearingKeepsOk(s, KeyOf(draft), updateOk);
        } else if r.pendingFor > 0 {
          WaitingKeepsOk(s, r, ts, draft);
        } else {
          AtOnceIsOk(s.logs, r, draft, w);
          OpeningKeepsOk(s, Birth(r, draft, AtOnce, w));
        }
      case Silent(r, draft, w) =>
        SilenceIsOk(s.logs, r, draft, w);
        OpeningKeepsOk(s, Birth(r, draft, Silence, w));
      case Fire(now, worlds) => FiringKeepsOk(s, now, worlds, s');
      case Look(sights) => LookingKeepsOk(s, sights, {});
      case Changed(id, status) =>
        if id in s.alerts && Active(s.alerts[id]) { ChangingKeepsOk(s, id, status); }
      case Removed(id) => RemovingKeepsOk(s, id);
    }
  }

  // ---- what one step opens, and what it does to pages owed --------------------------------------

  ghost predicate BirthsKept(births: map<nat, Birth>, births': map<nat, Birth>) {
    forall id :: id in births ==> id in births' && births'[id] == births[id]
  }

  ghost predicate IsNew(s: State, t: State, id: nat) { id in t.births && id !in s.births }

  /** Nothing changed for the pages owed before, and a page owed since is settled or held. */
  ghost predicate FatesKept(s: State, t: State) {
    && (forall id :: id in s.births ==> SameFate(s.books, s.held, t.books, t.held, id))
    && (forall id :: IsNew(s, t, id) && Owes(t.births, id) && t.births[id].world.suppressed ==> id in t.held)
  }

  /** New alerts are those of the entries in `order` that could open, one for each. */
  ghost predicate OpensThose(s: State, t: State, due: map<Key, Pending>, order: seq<Key>, worlds: Key -> World)
    requires forall key :: key in order ==> key in due
  {
    && (forall id :: IsNew(s, t, id) ==> OpenedOneOf(s, t.births[id], due, order, worlds))
    && (forall key :: key in order && Opens(s, BirthOf(due[key], LogAt(s.logs, key), worlds(key))) ==>
          OpensOne(s, t, key))
    && OnePerKey(s, t)
  }

  ghost predicate OnePerKey(s: State, t: State) {
    forall x, y :: IsNew(s, t, x) && IsNew(s, t, y) ==>
      KeyOf(t.births[x].draft) == KeyOf(t.births[y].draft) ==> x == y
  }

  ghost predicate OpenedOneOf(s: State, b: Birth, due: map<Key, Pending>, order: seq<Key>, worlds: Key -> World)
    requires forall key :: key in order ==> key in due
  {
    var key := KeyOf(b.draft);
    key in order && b == BirthOf(due[key], LogAt(s.logs, key), worlds(key)) && Opens(s, b)
  }

  ghost predicate OpensOne(s: State, t: State, key: Key) {
    exists id :: IsNew(s, t, id) && KeyOf(t.births[id].draft) == key
  }

  lemma OpeningElsewhere(s: State, b: Birth, key: Key)
    requires key != KeyOf(b.draft) && s.nextId !in s.alerts
    ensures HasActive(Opened(s, b).alerts, key) <==> HasActive(s.alerts, key)
  {
    if Opens(s, b) {
      hide Refreshed;
      EscalatingKeepsLogs(Born(s, b), s.nextId, b.rule, b.draft.tenant, b.world);
      BornElsewhere(s, b, key);
    } else {
      RefreshedIs(s.alerts, b.draft);
    }
  }

  lemma BornElsewhere(s: State, b: Birth, key: Key)
    requires key != KeyOf(b.draft) && s.nextId !in s.alerts
    ensures HasActive(Born(s, b).alerts, key) <==> HasActive(s.alerts, key)
  {
    if x: nat :| Holds(s.alerts, key, x) { assert Holds(Born(s, b).alerts, key, x); }
    if x: nat :| Holds(Born(s, b).alerts, key, x) { assert Holds(s.alerts, key, x); }
  }

  /** One opening: a new alert exactly if the key has no active one, and no other page is touched. */
  lemma OpeningFates(s: State, b: Birth)
    requires Recorded(s.alerts, s.births, s.nextId) && Accounted(s.books, s.held, s.births)
    ensures FatesKept(s, Opened(s, b)) && BirthsKept(s.births, Opened(s, b).births)
  {
    hide Accounted, HasActive, Refreshed;
    NothingKnown(s);
    if Opens(s, b) {
      EscalatedFate(s, b);
      HeldIfSuppressed(Born(s, b), s.nextId, b.rule, b.draft.tenant, b.world);
      hide Escalated;
    }
  }

  lemma HeldIfSuppressed(s: State, id: nat, r: Rule, tenant: string, w: World)
    ensures r.policy != "" && w.suppressed ==> id in Escalated(s, id, r, tenant, w).held
  {}

  lemma FatesKeptOn(s: State, t: State, u: State)
    requires FatesKept(s, t) && FatesKept(t, u) && BirthsKept(s.births, t.births) && BirthsKept(t.births, u.births)
    ensures FatesKept(s, u) && BirthsKept(s.births, u.births)
  {
    forall id | id in s.births ensures SameFate(s.books, s.held, u.books, u.held, id) {
      assert SameFate(s.books, s.held, t.books, t.held, id) && SameFate(t.books, t.held, u.books, u.held, id);
    }
    forall id | IsNew(s, u, id) && Owes(u.births, id) && u.births[id].world.suppressed ensures id in u.held {
      if id in t.births { assert SameFate(t.books, t.held, u.books, u.held, id); }
    }
  }

  ghost predicate ActiveKeptOutside(s: State, t: State, order: seq<Key>) {
    forall key :: key !in order ==> (HasActive(t.alerts, key) <==> HasActive(s.alerts, key))
  }

  /** What opening the entries of `order` has done. */
  ghost predicate OpenedThose(s: State, t: State, due: map<Key, Pending>, order: seq<Key>, worlds: Key -> World)
    requires forall key :: key in order ==> key in due
  {
    && BirthsKept(s.births, t.births) && OpensThose(s, t, due, order, worlds) && FatesKept(s, t)
    && ActiveKeptOutside(s, t, order)
  }

  ghost predicate Apart(order: seq<Key>) { forall i, j :: 0 <= i < j < |order| ==> order[i] != order[j] }

  /** Whatever the order, the entries that could open have opened, one alert each, and nothing else has happened. */
  lemma {:induction false} OpeningInTurn(s: State, due: map<Key, Pending>, order: seq<Key>, worlds: Key -> World)
    requires Ok(s) && Ripe(s.logs, due, worlds) && Apart(order) && forall key :: key in order ==> key in due
    ensures OpenedThose(s, OpenedInTurn(s, due, order, worlds), due, order, worlds)
  {
    hide Ok, LogAt, Opened, BirthOf, OpenedThose, Ripe;
    if order == [] {
      NothingOpens(s, due, worlds);
    } else {
      var n := |order| - 1;
      OpeningInTurn(s, due, order[..n], worlds);
      OpeningInTurnKeepsOk(s, due, order[..n], worlds);
      assert order[n] !in order[..n] && order == order[..n] + [order[n]];
      OpenOneMore(s, OpenedInTurn(s, due, order[..n], worlds), due, order[..n], order[n], worlds);
    }
  }

  lemma OpenOneMore(s: State, t: State, due: map<Key, Pending>, order: seq<Key>, key: Key, worlds: Key -> World)
    requires key in due && key !in order && forall k :: k in order ==> k in due
    requires Ok(t) && Ripe(s.logs, due, worlds) && OpenedThose(s, t, due, order, worlds) && t.logs == s.logs
    ensures var u := Opened(t, BirthOf(due[key], LogAt(t.logs, key), worlds(key)));
      OpenedThose(s, u, due, order + [key], worlds)
  {
    hide Ok, BirthOk, LogAt, HasActive, Opened, LastOf, FatesKept, OpensThose, BirthsKept;
    var b := BirthOf(due[key], LogAt(t.logs, key), worlds(key));
    var u := Opened(t, b);
    OpensOneMore(s, t, due, order, key, worlds);
    FatesOneMore(s, t, b);
    FreshId(t);
    forall k: Key | k != key ensures HasActive(u.alerts, k) <==> HasActive(t.alerts, k) {
      OpeningElsewhere(t, b, k);
    }
  }

  lemma NothingOpens(s: State, due: map<Key, Pending>, worlds: Key -> World)
    ensures OpenedThose(s, s, due, [], worlds)
  {}

  lemma FreshId(s: State)
    requires Ok(s)
    ensures s.nextId !in s.alerts && s.nextId !in s.births
  {}

  lemma FatesOneMore(s: State, t: State, b: Birth)
    requires Ok(t) && FatesKept(s, t) && BirthsKept(s.births, t.births)
    ensures FatesKept(s, Opened(t, b)) && BirthsKept(s.births, Opened(t, b).births)
  {
    hide FatesKept, Opened, BirthsKept, Recorded, Accounted, PendingMatches, AllBorn, OneEach;
    OpeningFates(t, b);
    FatesKeptOn(s, t, Opened(t, b));
  }

  lemma OpensOneMore(s: State, t: State, due: map<Key, Pending>, order: seq<Key>, key: Key, worlds: Key -> World)
    requires key in due && key !in order && forall k :: k in order ==> k in due
    requires Ok(t) && Ripe(s.logs, due, worlds) && OpensThose(s, t, due, order, worlds) && t.logs == s.logs
    requires BirthsKept(s.births, t.births)
    requires HasActive(t.alerts, key) <==> HasActive(s.alerts, key)
    ensures var u := Opened(t, BirthOf(due[key], LogAt(t.logs, key), worlds(key)));
      OpensThose(s, u, due, order + [key], worlds)
  {
    hide Ok, BirthOk, LogAt, HasActive, Opened, LastOf, BirthOf;
    var b := BirthOf(due[key], LogAt(t.logs, key), worlds(key));
    var u := Opened(t, b);
    OpeningKeepsLogs(t, b);
    FreshId(t);
    BirthOfIs(due[key], LogAt(t.logs, key), worlds(key));
    assert Opens(t, b) == Opens(s, b);
    forall id | IsNew(s, u, id) ensures OpenedOneOf(s, u.births[id], due, order + [key], worlds) {
      if IsNew(s, t, id) { assert OpenedOneOf(s, t.births[id], due, order, worlds); }
    }
    if Opens(s, b) { assert IsNew(s, u, t.nextId) && u.births[t.nextId] == b; }
    forall id | IsNew(s, t, id) ensures KeyOf(t.births[id].draft) != key {
      assert OpenedOneOf(s, t.births[id], due, order, worlds);
    }
    OnePerKeyOneMore(s, t, u, t.nextId);
    forall k | k in order && OpensOne(s, t, k) ensures OpensOne(s, u, k) {
      var id :| IsNew(s, t, id) && KeyOf(t.births[id].draft) == k;
      assert IsNew(s, u, id) && KeyOf(u.births[id].draft) == k;
    }
  }

  lemma OnePerKeyOneMore(s: State, t: State, u: State, id: nat)
    requires OnePerKey(s, t) && BirthsKept(t.births, u.births)
    requires forall x :: x in u.births ==> x in t.births || x == id
    requires id in u.births && id !in t.births ==>
      forall x :: IsNew(s, t, x) ==> KeyOf(t.births[x].draft) != KeyOf(u.births[id].draft)
    ensures OnePerKey(s, u)
  {}

  lemma BirthOfIs(p: Pending, log: seq<Occurrence>, w: World)
    ensures BirthOf(p, log, w).draft == p.draft && BirthOf(p, log, w).world == w
  {}

  // ---- one step of any kind ---------------------------------------------------------------------

  /** The input makes an alert with this birth: the key has no active alert, and the input is a match of a rule
      without hold time, a silent heartbeat, or a tick that finds the key's entry due. */
  ghost predicate Opener(s: State, input: Input, b: Birth) {
    && Opens(s, b)
    && match input
       case Event(r, ts, draft, clear, updateOk, w) =>
         !clear && r.pendingFor <= 0 && b == Birth(r, draft, AtOnce, w)
       case Silent(r, draft, w) => b == Birth(r, draft, Silence, w)
       case Fire(now, worlds) =>
         var key := KeyOf(b.draft);
         IsDue(s.pending, key, now) && b == BirthOf(s.pending[key], LogAt(s.logs, key) + [Fired(now)], worlds(key))
       case _ => false
  }

  ghost predicate OpensExactly(s: State, input: Input, s': State) {
    && BirthsKept(s.births, s'.births)
    && (forall id :: IsNew(s, s', id) ==> Opener(s, input, s'.births[id]))
    && (forall b :: Opener(s, input, b) ==> exists id :: IsNew(s, s', id) && s'.births[id] == b)
    && OnePerKey(s, s')
  }

  /** What fires does not depend on the order of the due entries: one alert for each that has no active one. */
  lemma FiringOpens(s: State, now: int, worlds: Key -> World, s': State)
    requires Ok(s) && Fires(s, now, worlds, s')
    ensures OpensExactly(s, Fire(now, worlds), s') && FatesKept(s, s')
  {
    hide Ok, DueNow, NotDue, FiredLogs, OpenedInTurn, LogAt, FatesKept, HasActive, Ripe, OpenedThose;
    TakingKeepsOk(s, now);
    DueAreBorn(s, now, worlds);
    var due, t := DueNow(s.pending, now, {}), Taken(s, now, {});
    var order :| Lists(order, due.Keys) && s' == OpenedInTurn(t, due, order, worlds);
    OpeningInTurn(t, due, order, worlds);
    OpenedAfterTaking(s, now, worlds, order, s');
  }

  lemma OpenedAfterTaking(s: State, now: int, worlds: Key -> World, order: seq<Key>, s': State)
    requires Ok(s) && Lists(order, DueNow(s.pending, now, {}).Keys)
    requires OpenedThose(Taken(s, now, {}), s', DueNow(s.pending, now, {}), order, worlds)
    ensures OpensExactly(s, Fire(now, worlds), s') && FatesKept(s, s')
  {
    hide Ok, Opener, OpenedOneOf, BirthsKept, FatesKept, Opens, SameFate;
    var due, t := DueNow(s.pending, now, {}), Taken(s, now, {});
    TakingIs(s, now);
    assert forall id :: IsNew(s, s', id) <==> IsNew(t, s', id);
    forall id | IsNew(s, s', id) ensures Opener(s, Fire(now, worlds), s'.births[id]) {
      OneOfThemIsOpener(s, now, worlds, order, s'.births[id]);
    }
    forall b | Opener(s, Fire(now, worlds), b) ensures exists id :: IsNew(s, s', id) && s'.births[id] == b {
      OneOfThemIsOpener(s, now, worlds, order, b);
      var key := KeyOf(b.draft);
      assert OpensOne(t, s', key);
      var id :| IsNew(t, s', id) && KeyOf(s'.births[id].draft) == key;
      assert OpenedOneOf(t, s'.births[id], due, order, worlds);
      SameKeySameBirth(t, b, s'.births[id], due, order, worlds);
    }
  }

  lemma TakingIs(s: State, now: int)
    ensures var t := Taken(s, now, {});
      && t.births == s.births && t.alerts == s.alerts
      && forall u: State :: (BirthsKept(t.births, u.births) ==> BirthsKept(s.births, u.births)) &&
                            (FatesKept(t, u) ==> FatesKept(s, u)) && (OnePerKey(t, u) ==> OnePerKey(s, u))
  {
    hide FiredLogs, NotDue, SameFate;
    var t := Taken(s, now, {});
    assert forall u: State, id :: IsNew(s, u, id) <==> IsNew(t, u, id);
  }

  lemma SameKeySameBirth(s: State, b: Birth, b': Birth, due: map<Key, Pending>, order: seq<Key>, worlds: Key -> World)
    requires forall key :: key in order ==> key in due
    requires OpenedOneOf(s, b, due, order, worlds) && OpenedOneOf(s, b', due, order, worlds)
    requires KeyOf(b.draft) == KeyOf(b'.draft)
    ensures b == b'
  {}

  lemma OneOfThemIsOpener(s: State, now: int, worlds: Key -> World, order: seq<Key>, b: Birth)
    requires Lists(order, DueNow(s.pending, now, {}).Keys)
    ensures OpenedOneOf(Taken(s, now, {}), b, DueNow(s.pending, now, {}), order, worlds) <==>
      Opener(s, Fire(now, worlds), b)
    ensures Opener(s, Fire(now, worlds), b) ==>
      var key := KeyOf(b.draft);
      && key in order
      && Opens(Taken(s, now, {}), BirthOf(DueNow(s.pending, now, {})[key], LogAt(Taken(s, now, {}).logs, key),
                                          worlds(key)))
  {
    hide HasActive, FiredLogs, LogAt, LastOf, NotDue, Overdue;
    FiredLogsAre(s, now, {});
  }

  lemma OpeningOpens(s: State, b: Birth)
    requires Ok(s)
    ensures var t := Opened(s, b);
      && FatesKept(s, t) && BirthsKept(s.births, t.births)
      && (forall id :: IsNew(s, t, id) <==> id == s.nextId && Opens(s, b))
      && (Opens(s, b) ==> s.nextId in t.births && t.births[s.nextId] == b)
  {
    hide PendingMatches, OneEach, AllBorn, Accounted, HasActive, FatesKept, Opened;
    OpeningFates(s, b);
    OpeningKeepsLogs(s, b);
  }

  /** What each input opens. */
  lemma StepOpensExactly(s: State, input: Input, s': State)
    requires Ok(s) && Step(s, input, s')
    ensures OpensExactly(s, input, s')
  {
    hide Ok, Opened, Fires, HasActive, FatesKept, LogAt;
    match input {
      case Event(r, ts, draft, clear, updateOk, w) =>
        if !clear && r.pendingFor <= 0 {
          var b := Birth(r, draft, AtOnce, w);
          OpeningOpens(s, b);
          if Opens(s, b) { assert IsNew(s, s', s.nextId); }
        }
      case Silent(r, draft, w) =>
        var b := Birth(r, draft, Silence, w);
        OpeningOpens(s, b);
        if Opens(s, b) { assert IsNew(s, s', s.nextId); }
      case Fire(now, worlds) => FiringOpens(s, now, worlds, s');
      case _ =>
    }
  }

  /** Only looking again changes what became of an earlier page, and a page is held from its opening. */
  lemma StepKeepsFates(s: State, input: Input, s': State)
    requires Ok(s) && Step(s, input, s') && !input.Look?
    ensures FatesKept(s, s')
  {
    hide Ok, Opened, Fires, HasActive, LogAt;
    match input {
      case Event(r, ts, draft, clear, updateOk, w) =>
        if !clear && r.pendingFor <= 0 { OpeningOpens(s, Birth(r, draft, AtOnce, w)); }
      case Silent(r, draft, w) => OpeningOpens(s, Birth(r, draft, Silence, w));
      case Fire(now, worlds) => FiringOpens(s, now, worlds, s');
      case _ =>
    }
  }

  /** What an input writes into the log of a key. */
  lemma StepLogs(s: State, input: Input, s': State, key: Key)
    requires Ok(s) && Step(s, input, s')
    ensures LogAt(s'.logs, key) == LogAt(s.logs, key) + Occurs(input, key, WaitingAfter(LogAt(s.logs, key)))
  {
    hide OneEach, Recorded, AllBorn, Accounted, WaitingAfter, LogAt, Logged, Opened, Fires, FiredLogs, Overdue;
    assert LogAt(s.logs, key) + [] == LogAt(s.logs, key);
    match input {
      case Event(r, ts, draft, clear, updateOk, w) =>
        if clear {
          LoggedIs(s.logs, KeyOf(draft), Cleared);
        } else if r.pendingFor > 0 {
          LoggedIs(s.logs, KeyOf(draft), Matched(r, ts, draft));
        } else {
          OpeningKeepsLogs(s, Birth(r, draft, AtOnce, w));
        }
      case Silent(r, draft, w) => OpeningKeepsLogs(s, Birth(r, draft, Silence, w));
      case Fire(now, worlds) =>
        FiredLogsAre(s, now, {});
        FiringKeepsLogs(s, now, worlds, s');
      case _ =>
    }
  }

  lemma FiringKeepsLogs(s: State, now: int, worlds: Key -> World, s': State)
    requires Ok(s) && Fires(s, now, worlds, s')
    ensures s'.logs == FiredLogs(s, now, {}) && s'.pending == NotDue(s.pending, now, {})
  {
    hide Ok, DueNow, NotDue, FiredLogs, OpenedInTurn, LogAt, Ripe;
    TakingKeepsOk(s, now);
    DueAreBorn(s, now, worlds);
    var due, t := DueNow(s.pending, now, {}), Taken(s, now, {});
    var order :| Lists(order, due.Keys) && s' == OpenedInTurn(t, due, order, worlds);
    OpeningInTurnKeepsOk(t, due, order, worlds);
  }

  // ---- steps as loops ---------------------------------------------------------------------------

  lemma StepKeepsOkAlways(s: State, input: Input)
    requires Ok(s)
    ensures forall s' :: Step(s, input, s') ==> Ok(s')
  {
    hide Ok, Step;
    forall s' | Step(s, input, s') ensures Ok(s') { StepKeepsOk(s, input, s'); }
  }

  lemma NobodyHolds(alerts: map<nat, Alert>, key: Key)
    ensures !HasActive(alerts, key) ==> forall id :: !Holds(alerts, key, id)
  {}

  lemma NothingTakenYet(s: State, now: int)
    ensures DueNow(s.pending, now, s.pending.Keys) == map[] && Taken(s, now, s.pending.Keys) == s
  {}

  /** Taking out one more due entry. */
  lemma TakeOne(s: State, now: int, todo: set<Key>, key: Key)
    requires key in todo && todo <= s.pending.Keys
    ensures var t, p, left := Taken(s, now, todo), s.pending[key], todo - {key};
      && key in t.pending && t.pending[key] == p
      && DueNow(s.pending, now, left) ==
         (if Overdue(p, now) then DueNow(s.pending, now, todo)[key := p] else DueNow(s.pending, now, todo))
      && Taken(s, now, left) ==
         if Overdue(p, now) then t.(pending := t.pending - {key}, logs := Logged(t.logs, key, Fired(now))) else t
  {
    hide Overdue, LogAt, FiredLogs, DueNow, NotDue, Logged;
    DueOneMore(s.pending, now, todo, key);
    FiredOneMore(s, now, todo, key);
  }

  lemma DueOneMore(pending: map<Key, Pending>, now: int, todo: set<Key>, key: Key)
    requires key in todo && todo <= pending.Keys
    ensures var p := pending[key];
      && key in NotDue(pending, now, todo) && NotDue(pending, now, todo)[key] == p
      && DueNow(pending, now, todo - {key}) ==
         (if Overdue(p, now) then DueNow(pending, now, todo)[key := p] else DueNow(pending, now, todo))
      && NotDue(pending, now, todo - {key}) ==
         (if Overdue(p, now) then NotDue(pending, now, todo) - {key} else NotDue(pending, now, todo))
  {
    hide Overdue;
  }

  lemma FiredOneMore(s: State, now: int, todo: set<Key>, key: Key)
    requires key in todo && todo <= s.pending.Keys
    ensures var logs := FiredLogs(s, now, todo);
      FiredLogs(s, now, todo - {key}) == if Overdue(s.pending[key], now) then Logged(logs, key, Fired(now)) else logs
  {
    hide Firings, Overdue;
    FiringsOneMore(s, now, todo, key);
  }

  lemma FiringsOneMore(s: State, now: int, todo: set<Key>, key: Key)
    requires key in todo && todo <= s.pending.Keys
    ensures key !in Firings(s, now, todo)
    ensures Firings(s, now, todo - {key}) ==
      if Overdue(s.pending[key], now) then Firings(s, now, todo)[key := LogAt(s.logs, key) + [Fired(now)]]
      else Firings(s, now, todo)
  {
    hide Overdue, LogAt;
  }

  lemma NothingLookedAtYet(s: State, sights: nat -> Sight)
    ensures Looked(s, sights, s.held.Keys) == s
  {
    hide ChainsOf;
    assert ChainsOf(s.held, {}) == {};
  }

  lemma LaterAreHeld(s: State, sights: nat -> Sight, later: set<nat>)
    requires later <= s.held.Keys
    ensures later <= Looked(s, sights, later).held.Keys
  {
    hide ChainsOf, Starts, FoundClosed;
  }

  /** Looking at one more held alert. */
  lemma LookAtOneMore(s: State, sights: nat -> Sight, todo: set<nat>, id: nat)
    requires id in todo && todo <= s.held.Keys
    ensures var t := Looked(s, sights, todo);
      id in t.held && Looked(s, sights, todo - {id}) == LookedOne(t, id, sights(id))
  {
    hide ChainsOf, Starts, FoundClosed, StartingOf, ClosedOf, AfterLook;
    var starting, closed := StartingOf(s, sights, todo), ClosedOf(s, sights, todo);
    OpenIsNotClosed(s.alerts, sights);
    LookedOneMore(s, sights, todo, id);
    AfterOneStarts(s, starting, closed, id);
    AfterOneIsClosed(s, starting, closed, id);
    assert starting + {} == starting && closed + {} == closed;
  }

  lemma AfterOneStarts(s: State, starting: set<nat>, closed: set<nat>, id: nat)
    requires starting <= s.held.Keys && id in s.held && id !in starting && id !in closed
    ensures var t := AfterLook(s, starting, closed);
      && id in t.held && t.held[id] == s.held[id] && t.alerts == s.alerts
      && AfterLook(s, starting + {id}, closed) ==
         t.(held := t.held - {id},
            books := t.books.(started := t.books.started + multiset{Chain(id, s.held[id].policy)}))
  {
    hide ChainsOf;
    ChainsOfOneMore(s.held, starting, id);
    assert s.held - (starting + {id}) - closed == s.held - starting - closed - {id};
  }

  lemma AfterOneIsClosed(s: State, starting: set<nat>, closed: set<nat>, id: nat)
    requires starting <= s.held.Keys && id in s.held && id !in starting && id !in closed
    ensures var t := AfterLook(s, starting, closed);
      AfterLook(s, starting, closed + {id}) ==
      t.(held := t.held - {id}, books := t.books.(seenClosed := t.books.seenClosed + {id}))
  {
    hide ChainsOf;
    assert s.held - starting - (closed + {id}) == s.held - starting - closed - {id};
    assert s.books.seenClosed + (closed + {id}) == s.books.seenClosed + closed + {id};
  }

  lemma LookedOneMore(s: State, sights: nat -> Sight, todo: set<nat>, id: nat)
    requires id in todo && todo <= s.held.Keys
    ensures StartingOf(s, sights, todo) <= s.held.Keys
    ensures id !in StartingOf(s, sights, todo) && id !in ClosedOf(s, sights, todo)
    ensures StartingOf(s, sights, todo - {id}) ==
      StartingOf(s, sights, todo) + if Starts(s.alerts, id, sights(id)) then {id} else {}
    ensures ClosedOf(s, sights, todo - {id}) ==
      ClosedOf(s, sights, todo) + if FoundClosed(s.alerts, id, sights(id)) then {id} else {}
  {
    hide Starts, FoundClosed;
  }

  lemma ChainsOfOneMore(held: map<nat, Held>, ids: set<nat>, id: nat)
    requires ids <= held.Keys && id in held && id !in ids
    ensures multiset(ChainsOf(held, ids + {id})) == multiset(ChainsOf(held, ids)) + multiset{Chain(id, held[id].policy)}
  {
    hide ChainsOf;
    assert ChainsOf(held, ids + {id}) == ChainsOf(held, ids) + {Chain(id, held[id].policy)};
  }
}
