/** The escalation engine over its durable timers (internal/escalation/escalation.go, and the timer table of
    internal/storage/queue.go).  Every operation is tied to moves of `EscalationMachine` on the alert it
    concerns, and leaves the timers of all other alerts alone. */
module Escalation {
  import opened EscalationMachine

  datatype Key = Key(alertId: string, step: nat)
  datatype Time = Unset | At(t: int)

  /** One row of the timer table. */
  datatype Timer = Timer(policy: string, repeatsDone: nat, nextAt: Time, done: bool)

  datatype Alert = Alert(status: Status, openedAt: int)

  /** A notification the engine enqueued. */
  datatype Sent = Sent(alertId: string, page: Page)

  function RowOf(t: Timer): Row {
    Row(t.repeatsDone, if t.nextAt.At? then t.nextAt.t else 0, t.done)
  }

  /** The rows of one alert. */
  ghost function RowsOf(timers: map<Key, Timer>, alertId: string): map<nat, Row> {
    map key | key in timers && key.alertId == alertId :: key.step := RowOf(timers[key])
  }

  ghost function PagesOf(sent: seq<Sent>, alertId: string): seq<Page> {
    if sent == [] then []
    else
      var last := sent[|sent| - 1];
      PagesOf(sent[..|sent| - 1], alertId) + if last.alertId == alertId then [last.page] else []
  }

  /** Insert, or overwrite everything but the policy name of an existing row. */
  function Upserted(timers: map<Key, Timer>, key: Key, t: Timer): map<Key, Timer> {
    timers[key := if key in timers then t.(policy := timers[key].policy) else t]
  }

  lemma RowsAfterUpsert(timers: map<Key, Timer>, key: Key, t: Timer)
    ensures RowsOf(Upserted(timers, key, t), key.alertId) == RowsOf(timers, key.alertId)[key.step := RowOf(t)]
    ensures forall a :: a != key.alertId ==> RowsOf(Upserted(timers, key, t), a) == RowsOf(timers, a)
  {
    hide RowsOf, RowOf;
    var after := Upserted(timers, key, t);
    RowsAreTimers(timers, key.alertId);
    RowsAreTimers(after, key.alertId);
    RowIs(timers, key, t);
    forall a | a != key.alertId ensures RowsOf(after, a) == RowsOf(timers, a) {
      RowsAreTimers(timers, a);
      RowsAreTimers(after, a);
    }
  }

  lemma RowIs(timers: map<Key, Timer>, key: Key, t: Timer)
    ensures RowOf(Upserted(timers, key, t)[key]) == RowOf(t)
  {}

  lemma RowsAreTimers(timers: map<Key, Timer>, alertId: string)
    ensures forall n: nat :: n in RowsOf(timers, alertId) <==> Key(alertId, n) in timers
    ensures forall n: nat :: n in RowsOf(timers, alertId) ==>
      RowsOf(timers, alertId)[n] == RowOf(timers[Key(alertId, n)])
  {
    forall n: nat | Key(alertId, n) in timers ensures n in RowsOf(timers, alertId) {
      assert Key(alertId, n).step == n;
    }
  }

  /** A timer as the poll read it. */
  datatype Polled = Polled(key: Key, timer: Timer)

  /** The clock readings during one fire. */
  datatype Clock = Clock(t0: int, t1: int, t2: int, t3: int)

  const LIMIT: nat := 200

  predicate IsDue(t: Timer, now: int) { !t.done && t.nextAt.At? && t.nextAt.t <= now }

  /** Due timers as they are in the table, each once. */
  ghost predicate IsPoll(timers: map<Key, Timer>, due: seq<Polled>, now: int) {
    && (forall d :: d in due ==> d.key in timers && timers[d.key] == d.timer && IsDue(d.timer, now))
    && forall i, j :: 0 <= i < j < |due| ==> due[i].key != due[j].key
  }

  ghost predicate OnePolicy(due: seq<Polled>, alertId: string, policy: string) {
    forall d :: d in due && d.key.alertId == alertId ==> d.timer.policy == policy
  }

  function ShotOf(d: Polled): Shot { Shot(d.key.step, d.timer.repeatsDone) }

  /** One alert's part of a batch. */
  function ShotsOf(due: seq<Polled>, alertId: string): seq<Shot> {
    if due == [] then []
    else (if due[0].key.alertId == alertId then [ShotOf(due[0])] else []) + ShotsOf(due[1..], alertId)
  }

  /** Time does not run backwards over a batch. */
  ghost predicate Advances(now: int, clocks: nat -> Clock) {
    forall i: nat :: Reached(now, clocks, i) <= clocks(i).t0 <= clocks(i).t1 <= clocks(i).t2 <= clocks(i).t3
  }

  function Reached(now: int, clocks: nat -> Clock, i: nat): int { if i == 0 then now else clocks(i - 1).t3 }

  /** The moves of one alert's machine for a poll and the first `i` fires of the batch. */
  function BatchMoves(cfg: Config, status: Status, due: seq<Polled>, i: nat, clocks: nat -> Clock,
                      alertId: string): seq<Move>
    requires i <= |due|
  {
    if i == 0 then [Poll(ShotsOf(due, alertId))]
    else
      var d, c := due[i - 1], clocks(i - 1);
      BatchMoves(cfg, status, due, i - 1, clocks, alertId) +
      if d.key.alertId == alertId then FireMoves(cfg, status, ShotOf(d), c.t0, c.t1, c.t2, c.t3) else []
  }

  /** The moves are possible and lead to a worker between fires, with these rows and pages and this much still to do. */
  ghost predicate Midway(cfg: Config, s: Machine, moves: seq<Move>, batch: seq<Shot>, rows: map<nat, Row>,
                         pages: seq<Page>, latest: int)
  {
    var t := After(cfg, s, moves);
    && Legal(cfg, s, moves) && t.pc == Idle && t.status == s.status && t.batch == batch
    && t.rows == rows && t.pages == pages && t.now <= latest
  }

  /** The machine moves of one uninterrupted fire. */
  function FireMoves(cfg: Config, status: Status, shot: Shot, t0: int, t1: int, t2: int, t3: int): seq<Move> {
    if Dead(cfg, status, shot) then [Tick(t0), Begin, Finish]
    else if status.Acked? then [Tick(t0), Begin, Notify, Finish]
    else [Tick(t0), Begin, Notify, ArmNext(t1, t2), Rearm(t3)]
  }

  class Engine {
    const policies: map<string, seq<Step>>
    var alerts: map<string, Alert>
    var timers: map<Key, Timer>
    var sent: seq<Sent>

    constructor (policies: map<string, seq<Step>>)
      ensures this.policies == policies && alerts == map[] && timers == map[] && sent == []
    {
      this.policies, alerts, timers, sent := policies, map[], map[], [];
    }

    ghost function StatusOf(alertId: string): Status
      reads this`alerts
    {
      if alertId in alerts then alerts[alertId].status else Gone
    }

    ghost function ConfigOf(alertId: string, policy: string): Config
      reads this`alerts
    {
      Config(if policy in policies then policies[policy] else [],
             if alertId in alerts then alerts[alertId].openedAt else 0)
    }

    /** One alert's chain, with the worker between fires and `batch` still to do. */
    ghost function Chain(alertId: string, batch: seq<Shot>, now: int): Machine
      reads this
    {
      Machine(StatusOf(alertId), RowsOf(timers, alertId), batch, Idle, PagesOf(sent, alertId), now)
    }

    method ScheduleEscalation(key: Key, t: Timer)
      modifies this`timers
      ensures timers == Upserted(old(timers), key, t)
    {
      var row := t;
      if key in timers { row := t.(policy := timers[key].policy); }
      timers := timers[key := row];
    }

    /** Arms step 0.  An unknown policy is an error, a policy without steps arms nothing.  A restarted chain
        keeps the policy name of its first start, because the upsert does not overwrite it. */
    method StartChain(alertId: string, openedAt: int, policy: string) returns (ok: bool)
      modifies this`timers
      ensures ok <==> policy in policies
      ensures !ok || policies[policy] == [] ==> timers == old(timers)
      ensures ok && policies[policy] != [] ==>
        var first := Row(0, openedAt + policies[policy][0].after, false);
        RowsOf(timers, alertId) == RowsOf(old(timers), alertId)[0 := first]
      ensures ok && policies[policy] != [] ==>
        var key := Key(alertId, 0);
        key in timers && timers[key].policy == if key in old(timers) then old(timers)[key].policy else policy
      ensures forall a :: a != alertId ==> RowsOf(timers, a) == RowsOf(old(timers), a)
    {
      if policy !in policies { return false; }
      var steps := policies[policy];
      if |steps| == 0 { return true; }
      var t := Timer(policy, 0, At(openedAt + steps[0].after), false);
      Write(Key(alertId, 0), t);
      return true;
    }

    /** Marks every timer of the alert done. */
    method StopChain(alertId: string)
      modifies this`timers
      ensures timers.Keys == old(timers).Keys
      ensures RowsOf(timers, alertId) == CancelAll(RowsOf(old(timers), alertId))
      ensures forall a :: a != alertId ==> RowsOf(timers, a) == RowsOf(old(timers), a)
    {
      ghost var before := timers;
      timers := map k | k in timers :: if k.alertId == alertId then timers[k].(done := true) else timers[k];
      RowsAfterCancel(before, timers, alertId);
    }

    /** Fires one timer as the poll read it.  `t0` to `t3` are the clock readings on the way. */
    method Fire(key: Key, timer: Timer, t0: int, t1: int, t2: int, t3: int)
      requires t0 <= t1 <= t2 <= t3
      modifies this`timers, this`sent
      ensures var cfg, shot := ConfigOf(key.alertId, timer.policy), Shot(key.step, timer.repeatsDone);
        var before := old(Chain(key.alertId, [shot], t0));
        var moves := FireMoves(cfg, before.status, shot, t0, t1, t2, t3);
        var after := After(cfg, before, moves);
        && Legal(cfg, before, moves)
        && after.pc == Idle
        && RowsOf(timers, key.alertId) == after.rows
        && PagesOf(sent, key.alertId) == after.pages
      ensures var cfg, shot := ConfigOf(key.alertId, timer.policy), Shot(key.step, timer.repeatsDone);
        var status := StatusOf(key.alertId);
        && RowsOf(timers, key.alertId) == FiredRows(cfg, status, RowsOf(old(timers), key.alertId), shot, t1, t2, t3)
        && PagesOf(sent, key.alertId) == FiredPages(cfg, status, PagesOf(old(sent), key.alertId), shot, t0)
      ensures forall a :: a != key.alertId ==>
        RowsOf(timers, a) == RowsOf(old(timers), a) && PagesOf(sent, a) == PagesOf(old(sent), a)
    {
      ghost var shot := Shot(key.step, timer.repeatsDone);
      ghost var cfg := ConfigOf(key.alertId, timer.policy);
      ghost var status := StatusOf(key.alertId);
      hide After, Legal, FireMoves, RowsOf, PagesOf, Upserted;
      FireIs(cfg, Chain(key.alertId, [shot], t0), shot, t0, t1, t2, t3);
      var finished := timer.(nextAt := Unset, done := true);
      if key.alertId !in alerts || alerts[key.alertId].status == Resolved || alerts[key.alertId].status == Expired
         || alerts[key.alertId].status == Gone || timer.policy !in policies || key.step >= |policies[timer.policy]|
      {
        assert Dead(cfg, status, shot);
        Write(key, finished);
        return;
      }
      var alert := alerts[key.alertId];
      var step := policies[timer.policy][key.step];
      var acked := alert.status == Acked;
      if !(step.unlessAcked && acked) {
        PagesAfterSend(sent, key.alertId, Page(key.step, timer.repeatsDone, t0));
        sent := sent + [Sent(key.alertId, Page(key.step, timer.repeatsDone, t0))];
      }
      if acked {
        Write(key, finished);
        return;
      }
      if timer.repeatsDone == 0 && key.step + 1 < |policies[timer.policy]| {
        var at := alert.openedAt + policies[timer.policy][key.step + 1].after;
        if at < t1 { at := t2 + FIVE_SECONDS; }
        Write(Key(key.alertId, key.step + 1), Timer(timer.policy, 0, At(at), false));
      }
      if step.repeatEvery > 0 && timer.repeatsDone < step.maxRepeats {
        Write(key, Timer(timer.policy, timer.repeatsDone + 1, At(t3 + step.repeatEvery), false));
        return;
      }
      Write(key, finished);
    }

    /** The timer among `keys` that is due first. */
    method Earliest(keys: set<Key>, now: int) returns (found: bool, key: Key)
      requires keys <= timers.Keys
      ensures found ==> key in keys && IsDue(timers[key], now)
      ensures forall k :: k in keys && IsDue(timers[k], now) ==> found && timers[key].nextAt.t <= timers[k].nextAt.t
    {
      found, key := false, Key("", 0);
      var todo := keys;
      while todo != {}
        invariant todo <= keys && (found ==> key in keys && IsDue(timers[key], now))
        invariant forall k :: k in keys && k !in todo && IsDue(timers[k], now) ==>
          found && timers[key].nextAt.t <= timers[k].nextAt.t
      {
        var k :| k in todo;
        todo := todo - {k};
        if IsDue(timers[k], now) && (!found || timers[k].nextAt.t < timers[key].nextAt.t) { found, key := true, k; }
      }
    }

    /** Reads due timers in the order in which they are due, at most `limit` of them: those that are due first. */
    method DueEscalations(now: int, limit: nat) returns (due: seq<Polled>)
      ensures IsPoll(timers, due, now) && |due| <= limit
      ensures |due| < limit ==>
        forall key :: key in timers && IsDue(timers[key], now) ==> Polled(key, timers[key]) in due
      ensures forall d, key | d in due && key in timers && IsDue(timers[key], now) ::
        Polled(key, timers[key]) !in due ==> d.timer.nextAt.t <= timers[key].nextAt.t
      ensures forall i, j :: 0 <= i < j < |due| ==> due[i].timer.nextAt.t <= due[j].timer.nextAt.t
    {
      due := [];
      var todo, more := timers.Keys, true;
      while more && |due| < limit
        invariant todo <= timers.Keys && IsPoll(timers, due, now) && |due| <= limit
        invariant forall d :: d in due ==> d.key !in todo
        invariant forall key :: key in timers && key !in todo ==> Polled(key, timers[key]) in due
        invariant !more ==> forall key :: key in todo ==> !IsDue(timers[key], now)
        invariant forall d, key :: d in due && key in todo && IsDue(timers[key], now) ==>
          d.timer.nextAt.t <= timers[key].nextAt.t
        invariant forall i, j :: 0 <= i < j < |due| ==> due[i].timer.nextAt.t <= due[j].timer.nextAt.t
        decreases more, todo
      {
        var found, key := Earliest(todo, now);
        if found {
          assert forall i :: 0 <= i < |due| ==> due[i] in due;
          todo := todo - {key};
          due := due + [Polled(key, timers[key])];
        } else {
          more := false;
        }
      }
    }

    /** One tick of the worker: polls and fires the whole batch from that snapshot.  For every alert, however its timers
        lie between those of others, that is the machine's poll followed by its fires, as long as the alert's polled
        timers name one policy. */
    method RunOnce(now: int, clocks: nat -> Clock) returns (ghost due: seq<Polled>)
      requires Advances(now, clocks)
      modifies this`timers, this`sent
      ensures IsPoll(old(timers), due, now) && |due| <= 200
      ensures |due| < 200 ==>
        forall key :: key in old(timers) && IsDue(old(timers)[key], now) ==> Polled(key, old(timers)[key]) in due
      ensures forall a, policy :: OnePolicy(due, a, policy) ==>
        Midway(ConfigOf(a, policy), old(Chain(a, [], now)),
               BatchMoves(ConfigOf(a, policy), StatusOf(a), due, |due|, clocks, a),
               [], RowsOf(timers, a), PagesOf(sent, a), Reached(now, clocks, |due|))
    {
      hide StatusOf, ConfigOf, BatchMoves, Midway, ShotsOf, RowsOf, PagesOf, IsPoll, After, Legal, FiredRows,
           FiredPages, FireMoves, Advances, Reached;
      var batch := DueEscalations(now, LIMIT);
      due := batch;
      forall a, policy | OnePolicy(due, a, policy)
        ensures Midway(ConfigOf(a, policy), Chain(a, [], now),
                       BatchMoves(ConfigOf(a, policy), StatusOf(a), due, 0, clocks, a),
                       ShotsOf(due[0..], a), RowsOf(timers, a), PagesOf(sent, a), Reached(now, clocks, 0))
      {
        assert due[0..] == due;
        PollIsMove(ConfigOf(a, policy), timers, Chain(a, [], now), due, now, clocks, a);
      }
      for i := 0 to |batch|
        invariant forall a, policy :: OnePolicy(due, a, policy) ==>
          Midway(ConfigOf(a, policy), old(Chain(a, [], now)),
                 BatchMoves(ConfigOf(a, policy), StatusOf(a), due, i, clocks, a),
                 ShotsOf(due[i..], a), RowsOf(timers, a), PagesOf(sent, a), Reached(now, clocks, i))
      {
        var d, c := batch[i], clocks(i);
        assert d in due;
        ReadingsAdvance(now, clocks, i);
        ghost var timers0, sent0 := timers, sent;
        Fire(d.key, d.timer, c.t0, c.t1, c.t2, c.t3);
        forall a, policy | OnePolicy(due, a, policy)
          ensures Midway(ConfigOf(a, policy), old(Chain(a, [], now)),
                         BatchMoves(ConfigOf(a, policy), StatusOf(a), due, i + 1, clocks, a),
                         ShotsOf(due[i + 1..], a), RowsOf(timers, a), PagesOf(sent, a), Reached(now, clocks, i + 1))
        {
          OneFired(ConfigOf(a, policy), old(Chain(a, [], now)), due, i, now, clocks, a, policy,
                   RowsOf(timers0, a), PagesOf(sent0, a), RowsOf(timers, a), PagesOf(sent, a));
        }
      }
      NoShotsLeft(due);
    }

    /** `ScheduleEscalation`, seen alert by alert. */
    method Write(key: Key, t: Timer)
      modifies this`timers
      ensures timers == Upserted(old(timers), key, t)
      ensures RowsOf(timers, key.alertId) == RowsOf(old(timers), key.alertId)[key.step := RowOf(t)]
      ensures forall a :: a != key.alertId ==> RowsOf(timers, a) == RowsOf(old(timers), a)
    {
      ScheduleEscalation(key, t);
      RowsAfterUpsert(old(timers), key, t);
    }
  }

  lemma RowsAfterCancel(before: map<Key, Timer>, after: map<Key, Timer>, alertId: string)
    requires after == map k | k in before :: if k.alertId == alertId then before[k].(done := true) else before[k]
    ensures RowsOf(after, alertId) == CancelAll(RowsOf(before, alertId))
    ensures forall a :: a != alertId ==> RowsOf(after, a) == RowsOf(before, a)
  {}

  lemma PagesAfterSend(sent: seq<Sent>, alertId: string, page: Page)
    ensures PagesOf(sent + [Sent(alertId, page)], alertId) == PagesOf(sent, alertId) + [page]
    ensures forall a :: a != alertId ==> PagesOf(sent + [Sent(alertId, page)], a) == PagesOf(sent, a)
  {
    assert (sent + [Sent(alertId, page)])[..|sent|] == sent;
  }

  lemma AfterOneMore(cfg: Config, s: Machine, moves: seq<Move>, m: Move)
    ensures After(cfg, s, moves + [m]) == Next(cfg, After(cfg, s, moves), m)
    ensures Legal(cfg, s, moves + [m]) <==> Legal(cfg, s, moves) && Enabled(After(cfg, s, moves), m)
  {
    assert (moves + [m])[..|moves|] == moves;
  }

  predicate Dead(cfg: Config, status: Status, shot: Shot) {
    status.Gone? || status.Resolved? || status.Expired? || shot.step >= |cfg.steps|
  }

  /** The rows one uninterrupted fire leaves. */
  function FiredRows(cfg: Config, status: Status, rows: map<nat, Row>, shot: Shot, t1: int, t2: int,
                     t3: int): map<nat, Row> {
    if Dead(cfg, status, shot) || status.Acked? then rows[shot.step := Row(shot.repeatsDone, 0, true)]
    else
      var step := cfg.steps[shot.step];
      var armed :=
        if shot.repeatsDone == 0 && shot.step + 1 < |cfg.steps|
        then rows[shot.step + 1 := Row(0, NextDue(cfg, shot.step + 1, t1, t2), false)]
        else rows;
      armed[shot.step := if Repeats(step, shot) then Row(shot.repeatsDone + 1, t3 + step.repeatEvery, false)
                         else Row(shot.repeatsDone, 0, true)]
  }

  function FiredPages(cfg: Config, status: Status, pages: seq<Page>, shot: Shot, t0: int): seq<Page> {
    if Dead(cfg, status, shot) || (cfg.steps[shot.step].unlessAcked && status.Acked?) then pages
    else pages + [Page(shot.step, shot.repeatsDone, t0)]
  }

  lemma FireIs(cfg: Config, s: Machine, shot: Shot, t0: int, t1: int, t2: int, t3: int)
    requires s.pc == Idle && s.batch != [] && s.batch[0] == shot && s.now <= t0 <= t1 <= t2 <= t3
    ensures var moves := FireMoves(cfg, s.status, shot, t0, t1, t2, t3);
      var t := After(cfg, s, moves);
      && Legal(cfg, s, moves) && t.pc == Idle && t.status == s.status && t.batch == s.batch[1..] && t.now <= t3
      && t.rows == FiredRows(cfg, s.status, s.rows, shot, t1, t2, t3)
      && t.pages == FiredPages(cfg, s.status, s.pages, shot, t0)
  {
    hide After, Legal;
    FireBegins(cfg, s, shot, t0);
    var begun := [Tick(t0), Begin];
    if Dead(cfg, s.status, shot) {
      AfterOneMore(cfg, s, begun, Finish);
      assert begun + [Finish] == [Tick(t0), Begin, Finish];
    } else {
      AfterOneMore(cfg, s, begun, Notify);
      var sent := [Tick(t0), Begin, Notify];
      assert begun + [Notify] == sent;
      if s.status.Acked? {
        AfterOneMore(cfg, s, sent, Finish);
        assert sent + [Finish] == [Tick(t0), Begin, Notify, Finish];
      } else {
        FireArms(cfg, s, shot, sent, t1, t2, t3);
        assert sent + [ArmNext(t1, t2), Rearm(t3)] == [Tick(t0), Begin, Notify, ArmNext(t1, t2), Rearm(t3)];
      }
    }
  }

  lemma FireBegins(cfg: Config, s: Machine, shot: Shot, t0: int)
    requires s.pc == Idle && s.batch != [] && s.batch[0] == shot && s.now <= t0
    ensures Legal(cfg, s, [Tick(t0), Begin])
    ensures After(cfg, s, [Tick(t0), Begin]) ==
      s.(now := t0, batch := s.batch[1..],
         pc := if Dead(cfg, s.status, shot) then Finishing(shot) else Loaded(shot, s.status == Acked))
  {
    hide After, Legal;
    NoMoves(cfg, s);
    AfterOneMore(cfg, s, [], Tick(t0));
    assert [] + [Tick(t0)] == [Tick(t0)];
    AfterOneMore(cfg, s, [Tick(t0)], Begin);
    assert [Tick(t0)] + [Begin] == [Tick(t0), Begin];
  }

  lemma FireArms(cfg: Config, s: Machine, shot: Shot, moves: seq<Move>, t1: int, t2: int, t3: int)
    requires Legal(cfg, s, moves) && After(cfg, s, moves).pc == Arming(shot)
    requires !Dead(cfg, s.status, shot) && !s.status.Acked? && After(cfg, s, moves).now <= t1 <= t2 <= t3
    ensures var all, u := moves + [ArmNext(t1, t2), Rearm(t3)], After(cfg, s, moves);
      && Legal(cfg, s, all)
      && After(cfg, s, all) ==
        u.(rows := FiredRows(cfg, s.status, u.rows, shot, t1, t2, t3), pc := Idle, now := t3)
  {
    hide After, Legal;
    AfterOneMore(cfg, s, moves, ArmNext(t1, t2));
    AfterOneMore(cfg, s, moves + [ArmNext(t1, t2)], Rearm(t3));
    assert moves + [ArmNext(t1, t2)] + [Rearm(t3)] == moves + [ArmNext(t1, t2), Rearm(t3)];
  }

  // ---- a batch, alert by alert ------------------------------------------------------------------

  lemma {:induction false} AfterJoin(cfg: Config, s: Machine, moves: seq<Move>, more: seq<Move>)
    ensures After(cfg, s, moves + more) == After(cfg, After(cfg, s, moves), more)
    ensures Legal(cfg, s, moves) && Legal(cfg, After(cfg, s, moves), more) ==> Legal(cfg, s, moves + more)
  {
    hide Next, Enabled;
    if more == [] {
      assert moves + more == moves;
    } else {
      var n := |more| - 1;
      AfterJoin(cfg, s, moves, more[..n]);
      assert (moves + more)[..|moves + more| - 1] == moves + more[..n];
    }
  }

  lemma ReadingsAdvance(now: int, clocks: nat -> Clock, i: nat)
    requires Advances(now, clocks)
    ensures Reached(now, clocks, i) <= clocks(i).t0 <= clocks(i).t1 <= clocks(i).t2 <= clocks(i).t3
    ensures Reached(now, clocks, i + 1) == clocks(i).t3
  {}

  lemma NoShotsLeft(due: seq<Polled>)
    ensures forall a :: ShotsOf(due[|due|..], a) == []
  {}

  /** What a poll of one alert's timers reads is due in its machine. */
  lemma {:induction false} ShotsAreDue(timers: map<Key, Timer>, s: Machine, due: seq<Polled>, a: string)
    requires IsPoll(timers, due, s.now) && s.rows == RowsOf(timers, a)
    ensures forall x :: x in ShotsOf(due, a) ==> Due(s, x)
    ensures forall x :: x in ShotsOf(due, a) ==> exists d :: d in due && d.key == Key(a, x.step)
    ensures DistinctSteps(ShotsOf(due, a))
  {
    if due != [] {
      var d, rest := due[0], due[1..];
      assert d in due && forall x :: x in rest ==> x in due;
      assert forall i :: 0 <= i < |rest| ==> rest[i] == due[i + 1];
      ShotsAreDue(timers, s, rest, a);
      assert s.rows.Keys == RowsOf(timers, a).Keys;
      if d.key.alertId == a {
        assert d.key.step in RowsOf(timers, a) && RowsOf(timers, a)[d.key.step] == RowOf(d.timer);
        forall x | x in ShotsOf(rest, a) ensures x.step != d.key.step {
          var e :| e in rest && e.key == Key(a, x.step);
          var i :| 0 <= i < |rest| && rest[i] == e;
          assert due[i + 1].key != due[0].key;
        }
      }
    }
  }

  lemma PollIsMove(cfg: Config, timers: map<Key, Timer>, s: Machine, due: seq<Polled>, now: int,
                   clocks: nat -> Clock, a: string)
    requires IsPoll(timers, due, now) && s.rows == RowsOf(timers, a) && s.pc == Idle && s.batch == [] && s.now == now
    ensures Midway(cfg, s, BatchMoves(cfg, s.status, due, 0, clocks, a), ShotsOf(due, a), s.rows, s.pages,
                   Reached(now, clocks, 0))
  {
    hide After, Legal, ShotsOf, RowsOf, IsPoll, Due, DistinctSteps;
    ShotsAreDue(timers, s, due, a);
    NoMoves(cfg, s);
    AfterOneMore(cfg, s, [], Poll(ShotsOf(due, a)));
    assert [] + [Poll(ShotsOf(due, a))] == [Poll(ShotsOf(due, a))];
  }

  /** One more fire of the batch: a fire of the alert's machine if the timer is the alert's, nothing otherwise. */
  lemma OneFired(cfg: Config, s: Machine, due: seq<Polled>, i: nat, now: int, clocks: nat -> Clock,
                 a: string, policy: string, rows: map<nat, Row>, pages: seq<Page>,
                 rows': map<nat, Row>, pages': seq<Page>)
    requires i < |due| && Advances(now, clocks)
    requires Midway(cfg, s, BatchMoves(cfg, s.status, due, i, clocks, a), ShotsOf(due[i..], a), rows, pages,
                    Reached(now, clocks, i))
    requires var d, c := due[i], clocks(i);
      if d.key.alertId == a then
        && rows' == FiredRows(cfg, s.status, rows, ShotOf(d), c.t1, c.t2, c.t3)
        && pages' == FiredPages(cfg, s.status, pages, ShotOf(d), c.t0)
      else rows' == rows && pages' == pages
    ensures Midway(cfg, s, BatchMoves(cfg, s.status, due, i + 1, clocks, a), ShotsOf(due[i + 1..], a), rows', pages',
                   Reached(now, clocks, i + 1))
  {
    hide After, Legal, FiredRows, FiredPages, FireMoves, Advances;
    var d, c := due[i], clocks(i);
    ReadingsAdvance(now, clocks, i);
    assert due[i..][0] == d && due[i..][1..] == due[i + 1..];
    var moves := BatchMoves(cfg, s.status, due, i, clocks, a);
    if d.key.alertId == a {
      var t := After(cfg, s, moves);
      FireIs(cfg, t, ShotOf(d), c.t0, c.t1, c.t2, c.t3);
      AfterJoin(cfg, s, moves, FireMoves(cfg, s.status, ShotOf(d), c.t0, c.t1, c.t2, c.t3));
      assert ([ShotOf(d)] + ShotsOf(due[i + 1..], a))[1..] == ShotsOf(due[i + 1..], a);
    } else {
      assert moves + [] == moves && [] + ShotsOf(due[i + 1..], a) == ShotsOf(due[i + 1..], a);
    }
  }

  lemma NoMoves(cfg: Config, s: Machine)
    ensures After(cfg, s, []) == s && Legal(cfg, s, [])
  {}
}
