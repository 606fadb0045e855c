/** One alert's escalation chain as a machine of small steps (internal/escalation/escalation.go).

    `fire` reads the alert, notifies, arms the next step and re-arms or finishes its own step; between
    any two of these, acknowledgements, StopChain and the clock may move.  The worker polls a batch of due
    timers and fires them from that snapshot, so a timer can fire although it was cancelled meanwhile. */
module EscalationMachine {

  datatype Status = Open | Acked | Resolved | Expired | Gone

  /** Durations in nanoseconds; `maxRepeats` is whatever was configured, negative included. */
  datatype Step = Step(after: int, unlessAcked: bool, repeatEvery: int, maxRepeats: int)

  datatype Config = Config(steps: seq<Step>, openedAt: int)

  const FIVE_SECONDS := 5_000_000_000

  /** A durable timer of the chain; the worker finishes one without a next time, written as 0. */
  datatype Row = Row(repeatsDone: nat, nextAt: int, done: bool)

  /** A due timer as the poll read it. */
  datatype Shot = Shot(step: nat, repeatsDone: nat)

  /** A notification that was sent: the step ran. */
  datatype Page = Page(step: nat, repeat: nat, at: int)

  /** Where the worker is inside `fire`. */
  datatype Pc =
    | Idle
    | Loaded(shot: Shot, acked: bool)
    | Arming(shot: Shot)
    | Rearming(shot: Shot)
    | Finishing(shot: Shot)

  datatype Machine = Machine(status: Status, rows: map<nat, Row>, batch: seq<Shot>, pc: Pc, pages: seq<Page>, now: int)

  datatype Move =
    | Tick(now: int)
    | Poll(due: seq<Shot>)
    | Begin
    | Notify
    | ArmNext(checked: int, armed: int)
    | Rearm(at: int)
    | Finish
    | Ack
    | Close(status: Status)
    | Stop

  ghost predicate Live(rows: map<nat, Row>, k: nat) { k in rows && !rows[k].done }

  ghost predicate Due(s: Machine, shot: Shot) {
    && Live(s.rows, shot.step)
    && s.rows[shot.step].repeatsDone == shot.repeatsDone
    && s.rows[shot.step].nextAt <= s.now
  }

  ghost predicate DistinctSteps(shots: seq<Shot>) {
    forall i, j :: 0 <= i < j < |shots| ==> shots[i].step != shots[j].step
  }

  /** When a move can happen.  A poll may return any due timers in any order (it is limited and sorted). */
  ghost predicate Enabled(s: Machine, m: Move) {
    match m
    case Tick(now) => s.now <= now
    case Poll(due) => s.pc == Idle && s.batch == [] && DistinctSteps(due) && forall x :: x in due ==> Due(s, x)
    case Begin => s.pc == Idle && s.batch != []
    case Notify => s.pc.Loaded?
    case ArmNext(checked, armed) => s.pc.Arming? && s.now <= checked <= armed
    case Rearm(at) => s.pc.Rearming? && s.now <= at
    case Finish => s.pc.Finishing?
    case Ack => s.status == Open
    case Close(status) => status != Open && status != Acked
    case Stop => true
  }

  function CancelAll(rows: map<nat, Row>): map<nat, Row> {
    map k | k in rows :: rows[k].(done := true)
  }

  /** Does this firing schedule another repeat of its step? */
  function Repeats(step: Step, shot: Shot): bool {
    step.repeatEvery > 0 && shot.repeatsDone < step.maxRepeats
  }

  /** The next step's due time: its configured time, or five seconds from now when that is past. */
  function NextDue(cfg: Config, k: nat, checked: int, armed: int): int
    requires k < |cfg.steps|
  {
    var at := cfg.openedAt + cfg.steps[k].after;
    if at < checked then armed + FIVE_SECONDS else at
  }

  function Next(cfg: Config, s: Machine, m: Move): Machine {
    match m
    case Tick(now) => s.(now := now)
    case Poll(due) => s.(batch := due)
    case Begin =>
      if s.batch == [] then s
      else
        var shot := s.batch[0];
        var dead := s.status.Resolved? || s.status.Expired? || s.status.Gone? || shot.step >= |cfg.steps|;
        s.(batch := s.batch[1..], pc := if dead then Finishing(shot) else Loaded(shot, s.status == Acked))
    case Notify =>
      if !s.pc.Loaded? || s.pc.shot.step >= |cfg.steps| then s
      else
        var shot, acked := s.pc.shot, s.pc.acked;
        var skipped := cfg.steps[shot.step].unlessAcked && acked;
        s.(pages := if skipped then s.pages else s.pages + [Page(shot.step, shot.repeatsDone, s.now)],
           pc := if acked then Finishing(shot) else Arming(shot))
    case ArmNext(checked, armed) =>
      if !s.pc.Arming? then s
      else
        var shot := s.pc.shot;
        var rows :=
          if shot.repeatsDone == 0 && shot.step + 1 < |cfg.steps|
          then s.rows[shot.step + 1 := Row(0, NextDue(cfg, shot.step + 1, checked, armed), false)]
          else s.rows;
        s.(rows := rows, pc := Rearming(shot), now := armed)
    case Rearm(at) =>
      if !s.pc.Rearming? || s.pc.shot.step >= |cfg.steps| then s
      else
        var shot, step := s.pc.shot, cfg.steps[s.pc.shot.step];
        var row := if Repeats(step, shot)
                   then Row(shot.repeatsDone + 1, at + step.repeatEvery, false)
                   else Row(shot.repeatsDone, 0, true);
        s.(rows := s.rows[shot.step := row], pc := Idle, now := at)
    case Finish =>
      if !s.pc.Finishing? then s
      else s.(rows := s.rows[s.pc.shot.step := Row(s.pc.shot.repeatsDone, 0, true)], pc := Idle)
    case Ack => s.(status := Acked)
    case Close(status) => s.(status := status)
    case Stop => s.(rows := CancelAll(s.rows))
  }

  // ---- runs -------------------------------------------------------------------------------------

  ghost function After(cfg: Config, s: Machine, moves: seq<Move>): Machine {
    if moves == [] then s else Next(cfg, After(cfg, s, moves[..|moves| - 1]), moves[|moves| - 1])
  }

  ghost predicate Legal(cfg: Config, s: Machine, moves: seq<Move>) {
    moves != [] ==>
      && Legal(cfg, s, moves[..|moves| - 1])
      && Enabled(After(cfg, s, moves[..|moves| - 1]), moves[|moves| - 1])
  }

  /** The state StartChain leaves for a fresh alert under a policy with steps. */
  ghost predicate Started(cfg: Config, s: Machine) {
    && cfg.steps != []
    && s.status == Open && s.batch == [] && s.pc == Idle && s.pages == []
    && s.rows == map[0 := Row(0, cfg.openedAt + cfg.steps[0].after, false)]
  }

  // =================================================================================================
  // A chain whose alert stays open
  // =================================================================================================

  /** How often a step runs in a chain that is left alone. */
  function Total(step: Step): (n: nat)
    ensures n >= 1
  {
    if step.repeatEvery > 0 && step.maxRepeats > 0 then 1 + step.maxRepeats else 1
  }

  ghost function Runs(pages: seq<Page>, k: nat): nat {
    if pages == [] then 0
    else Runs(pages[..|pages| - 1], k) + if pages[|pages| - 1].step == k then 1 else 0
  }

  /** The worker has notified for step `k` but not yet written its timer. */
  ghost predicate MidFire(s: Machine, k: nat) {
    (s.pc.Arming? || s.pc.Rearming?) && s.pc.shot.step == k
  }

  /** The snapshot the worker holds still agrees with the timers. */
  ghost predicate SnapshotHolds(s: Machine) {
    && DistinctSteps(s.batch)
    && (forall x :: x in s.batch ==> Due(s, x))
    && (s.pc != Idle ==> Due(s, s.pc.shot) && forall x :: x in s.batch ==> x.step != s.pc.shot.step)
  }

  ghost predicate CountOk(cfg: Config, s: Machine, k: nat) {
    if k !in s.rows then Runs(s.pages, k) == 0
    else
      && k < |cfg.steps|
      && s.rows[k].repeatsDone + 1 <= Total(cfg.steps[k])
      && Runs(s.pages, k) ==
         if s.rows[k].done then Total(cfg.steps[k])
         else s.rows[k].repeatsDone + if MidFire(s, k) then 1 else 0
  }

  /** A step is armed only after its predecessor ran, and then at once. */
  ghost predicate PrefixOk(cfg: Config, s: Machine, k: nat) {
    && (k in s.rows && k > 0 ==> k - 1 in s.rows && Runs(s.pages, k - 1) >= 1)
    && (k in s.rows && k + 1 < |cfg.steps| && Runs(s.pages, k) >= 1 && s.pc != Arming(Shot(k, 0)) ==> k + 1 in s.rows)
    && (s.pc == Arming(Shot(k, 0)) ==> k + 1 !in s.rows)
  }

  ghost predicate TimeOk(cfg: Config, s: Machine, k: nat) {
    Live(s.rows, k) && k < |cfg.steps| && s.rows[k].repeatsDone == 0 ==>
      s.rows[k].nextAt >= cfg.openedAt + cfg.steps[k].after
  }

  /** Page `i` is the n-th of its step for the right n; a first page is not early and follows its predecessor. */
  ghost predicate PageOk(cfg: Config, pages: seq<Page>, i: nat)
    requires i < |pages|
  {
    var p := pages[i];
    && p.step < |cfg.steps|
    && p.repeat == Runs(pages[..i], p.step)
    && (p.repeat == 0 ==>
          && p.at >= cfg.openedAt + cfg.steps[p.step].after
          && (p.step > 0 ==> Runs(pages[..i], p.step - 1) >= 1))
  }

  ghost predicate Undisturbed(cfg: Config, s: Machine) {
    && s.status == Open && 0 in s.rows
    && (s.pc.Loaded? ==> !s.pc.acked) && !s.pc.Finishing?
    && SnapshotHolds(s)
    && (forall k: nat :: CountOk(cfg, s, k))
    && (forall k: nat :: PrefixOk(cfg, s, k))
    && (forall k: nat :: TimeOk(cfg, s, k))
    && (forall i: nat :: i < |s.pages| ==> PageOk(cfg, s.pages, i))
  }

  predicate WorkerMove(m: Move) { !m.Ack? && !m.Close? && !m.Stop? }

  lemma RunsOfOneMore(pages: seq<Page>, p: Page, k: nat)
    ensures Runs(pages + [p], k) == Runs(pages, k) + if p.step == k then 1 else 0
  {
    assert (pages + [p])[..|pages|] == pages;
  }

  lemma PagesKeep(cfg: Config, pages: seq<Page>, p: Page)
    requires forall i: nat :: i < |pages| ==> PageOk(cfg, pages, i)
    requires PageOk(cfg, pages + [p], |pages|)
    ensures forall i: nat :: i < |pages + [p]| ==> PageOk(cfg, pages + [p], i)
  {
    var all := pages + [p];
    forall i: nat | i < |all| ensures PageOk(cfg, all, i) {
      if i < |pages| {
        assert all[..i] == pages[..i];
        assert PageOk(cfg, pages, i);
      }
    }
  }

  lemma StartIsUndisturbed(cfg: Config, s: Machine)
    requires Started(cfg, s)
    ensures Undisturbed(cfg, s)
  {}

  lemma TickKeeps(cfg: Config, s: Machine, now: int)
    requires Undisturbed(cfg, s) && s.now <= now
    ensures Undisturbed(cfg, Next(cfg, s, Tick(now)))
  {
    hide Total, Runs, PageOk;
    var t := Next(cfg, s, Tick(now));
    forall k: nat ensures CountOk(cfg, t, k) && PrefixOk(cfg, t, k) && TimeOk(cfg, t, k) {
      assert CountOk(cfg, s, k) && PrefixOk(cfg, s, k) && TimeOk(cfg, s, k);
    }
  }

  lemma PollKeeps(cfg: Config, s: Machine, due: seq<Shot>)
    requires Undisturbed(cfg, s) && Enabled(s, Poll(due))
    ensures Undisturbed(cfg, Next(cfg, s, Poll(due)))
  {
    hide Total, Runs, PageOk;
    var t := Next(cfg, s, Poll(due));
    forall k: nat ensures CountOk(cfg, t, k) && PrefixOk(cfg, t, k) && TimeOk(cfg, t, k) {
      assert CountOk(cfg, s, k) && PrefixOk(cfg, s, k) && TimeOk(cfg, s, k);
    }
  }

  lemma BeginKeeps(cfg: Config, s: Machine)
    requires Undisturbed(cfg, s) && Enabled(s, Begin)
    ensures Undisturbed(cfg, Next(cfg, s, Begin))
  {
    hide Total, Runs, PageOk;
    var t := Next(cfg, s, Begin);
    var shot := s.batch[0];
    assert shot in s.batch && Due(s, shot);
    assert CountOk(cfg, s, shot.step);
    forall x | x in t.batch ensures Due(t, x) && x.step != shot.step {
      var i :| 0 <= i < |t.batch| && t.batch[i] == x;
      assert s.batch[i + 1] == x && x in s.batch;
    }
    assert t.pc == Loaded(shot, false);
    forall k: nat ensures CountOk(cfg, t, k) && PrefixOk(cfg, t, k) && TimeOk(cfg, t, k) {
      assert CountOk(cfg, s, k) && PrefixOk(cfg, s, k) && TimeOk(cfg, s, k);
    }
  }

  lemma NotifyKeeps(cfg: Config, s: Machine)
    requires Undisturbed(cfg, s) && Enabled(s, Notify)
    ensures Undisturbed(cfg, Next(cfg, s, Notify))
  {
    hide Total, Runs;
    var t := Next(cfg, s, Notify);
    var shot := s.pc.shot;
    assert CountOk(cfg, s, shot.step) && PrefixOk(cfg, s, shot.step) && TimeOk(cfg, s, shot.step);
    assert PrefixOk(cfg, s, shot.step + 1);
    var p := Page(shot.step, shot.repeatsDone, s.now);
    assert t.pages == s.pages + [p];
    assert (s.pages + [p])[..|s.pages|] == s.pages;
    PagesKeep(cfg, s.pages, p);
    hide PageOk;
    forall k: nat ensures CountOk(cfg, t, k) && PrefixOk(cfg, t, k) && TimeOk(cfg, t, k) {
      assert CountOk(cfg, s, k) && PrefixOk(cfg, s, k) && TimeOk(cfg, s, k);
      RunsOfOneMore(s.pages, p, k);
      if k > 0 { RunsOfOneMore(s.pages, p, k - 1); }
    }
  }

  lemma ArmNextKeeps(cfg: Config, s: Machine, checked: int, armed: int)
    requires Undisturbed(cfg, s) && Enabled(s, ArmNext(checked, armed))
    ensures Undisturbed(cfg, Next(cfg, s, ArmNext(checked, armed)))
  {
    hide Total, Runs, PageOk;
    var t := Next(cfg, s, ArmNext(checked, armed));
    var shot := s.pc.shot;
    assert CountOk(cfg, s, shot.step) && PrefixOk(cfg, s, shot.step) && CountOk(cfg, s, shot.step + 1);
    forall x | x in s.batch ensures Due(t, x) {
      assert Due(s, x);
    }
    forall k: nat ensures CountOk(cfg, t, k) && PrefixOk(cfg, t, k) && TimeOk(cfg, t, k) {
      assert CountOk(cfg, s, k) && PrefixOk(cfg, s, k) && TimeOk(cfg, s, k);
    }
  }

  lemma RearmKeeps(cfg: Config, s: Machine, at: int)
    requires Undisturbed(cfg, s) && Enabled(s, Rearm(at))
    ensures Undisturbed(cfg, Next(cfg, s, Rearm(at)))
  {
    hide Runs, PageOk;
    var t := Next(cfg, s, Rearm(at));
    assert CountOk(cfg, s, s.pc.shot.step);
    forall k: nat ensures CountOk(cfg, t, k) && PrefixOk(cfg, t, k) && TimeOk(cfg, t, k) {
      assert CountOk(cfg, s, k) && PrefixOk(cfg, s, k) && TimeOk(cfg, s, k);
    }
  }

  /** Every state of an undisturbed chain, over every run of the worker and the clock. */
  lemma {:induction false} ChainStaysUndisturbed(cfg: Config, s: Machine, moves: seq<Move>)
    requires Started(cfg, s) && Legal(cfg, s, moves) && forall m :: m in moves ==> WorkerMove(m)
    ensures Undisturbed(cfg, After(cfg, s, moves))
  {
    if moves == [] {
      StartIsUndisturbed(cfg, s);
    } else {
      var init, m := moves[..|moves| - 1], moves[|moves| - 1];
      var t := After(cfg, s, init);
      ChainStaysUndisturbed(cfg, s, init);
      MoveKeeps(cfg, t, m);
    }
  }

  lemma MoveKeeps(cfg: Config, s: Machine, m: Move)
    requires Undisturbed(cfg, s) && Enabled(s, m) && WorkerMove(m)
    ensures Undisturbed(cfg, Next(cfg, s, m))
  {
    assert !m.Finish?;
    hide Undisturbed, Next;
    match m
    case Tick(now) => TickKeeps(cfg, s, now);
    case Poll(due) => PollKeeps(cfg, s, due);
    case Begin => BeginKeeps(cfg, s);
    case Notify => NotifyKeeps(cfg, s);
    case ArmNext(checked, armed) => ArmNextKeeps(cfg, s, checked, armed);
    case Rearm(at) => RearmKeeps(cfg, s, at);
    case _ =>
  }

  // ---- armed steps form a prefix ----------------------------------------------------------------

  lemma {:induction false} ArmedStepsFormPrefix(cfg: Config, s: Machine, j: nat, k: nat)
    requires Undisturbed(cfg, s) && j <= k && k in s.rows
    ensures j in s.rows
  {
    assert PrefixOk(cfg, s, k);
    if j < k { ArmedStepsFormPrefix(cfg, s, j, k - 1); }
  }

  // ---- the chain ends, and has done everything --------------------------------------------------

  /** Nothing in flight, nothing polled, no live timer. */
  ghost predicate Quiet(s: Machine) {
    s.pc == Idle && s.batch == [] && forall k: nat :: !Live(s.rows, k)
  }

  /** A chain that has come to rest has run every step exactly as often as configured. */
  lemma {:induction false} QuietChainRanEverything(cfg: Config, s: Machine, k: nat)
    requires Undisturbed(cfg, s) && Quiet(s) && k < |cfg.steps|
    ensures k in s.rows
    ensures var step := cfg.steps[k];
      Runs(s.pages, k) == if step.repeatEvery > 0 && step.maxRepeats > 0 then 1 + step.maxRepeats else 1
  {
    if k > 0 {
      QuietChainRanEverything(cfg, s, k - 1);
      assert PrefixOk(cfg, s, k - 1);
    }
    assert CountOk(cfg, s, k) && !Live(s.rows, k);
  }

  /** What is left to run among the first `n` steps. */
  ghost function Remaining(cfg: Config, pages: seq<Page>, n: nat): int
    requires n <= |cfg.steps|
  {
    if n == 0 then 0
    else Remaining(cfg, pages, n - 1) + Total(cfg.steps[n - 1]) - Runs(pages, n - 1)
  }

  lemma {:induction false} RemainingIsNonNegative(cfg: Config, s: Machine, n: nat)
    requires Undisturbed(cfg, s) && n <= |cfg.steps|
    ensures Remaining(cfg, s.pages, n) >= 0
  {
    if n > 0 {
      RemainingIsNonNegative(cfg, s, n - 1);
      assert CountOk(cfg, s, n - 1);
    }
  }

  lemma {:induction false} RemainingAfterPage(cfg: Config, pages: seq<Page>, p: Page, n: nat)
    requires n <= |cfg.steps|
    ensures Remaining(cfg, pages + [p], n) == Remaining(cfg, pages, n) - if p.step < n then 1 else 0
  {
    if n > 0 {
      RemainingAfterPage(cfg, pages, p, n - 1);
      RunsOfOneMore(pages, p, n - 1);
    }
  }

  ghost function Stage(s: Machine): nat {
    match s.pc
    case Idle => if s.batch == [] then 3 else 2
    case Loaded(_, _) => 1
    case Arming(_) => 6
    case Rearming(_) => 5
    case Finishing(_) => 0
  }

  /** A bound on the worker's remaining moves. */
  ghost function Work(cfg: Config, s: Machine): int {
    6 * Remaining(cfg, s.pages, |cfg.steps|) + Stage(s)
  }

  /** A move that gets somewhere: not the clock, and not a poll that finds nothing. */
  predicate Productive(m: Move) { WorkerMove(m) && !m.Tick? && m != Poll([]) }

  lemma WorkShrinks(cfg: Config, s: Machine, m: Move)
    requires Undisturbed(cfg, s) && Enabled(s, m) && WorkerMove(m)
    ensures Work(cfg, Next(cfg, s, m)) <= Work(cfg, s) - if Productive(m) then 1 else 0
    ensures Work(cfg, s) >= 0
  {
    RemainingIsNonNegative(cfg, s, |cfg.steps|);
    hide Remaining, Runs, PageOk, PrefixOk, TimeOk;
    if s.pc != Idle { assert CountOk(cfg, s, s.pc.shot.step); }
    if m == Notify {
      var shot := s.pc.shot;
      RemainingAfterPage(cfg, s.pages, Page(shot.step, shot.repeatsDone, s.now), |cfg.steps|);
      assert Next(cfg, s, m).pages == s.pages + [Page(shot.step, shot.repeatsDone, s.now)];
    }
  }

  ghost function Productives(moves: seq<Move>): nat {
    if moves == [] then 0
    else Productives(moves[..|moves| - 1]) + if Productive(moves[|moves| - 1]) then 1 else 0
  }

  /** No run of an undisturbed chain has more productive moves than its initial work. */
  lemma {:induction false} ChainTerminates(cfg: Config, s: Machine, moves: seq<Move>)
    requires Started(cfg, s) && Legal(cfg, s, moves) && forall m :: m in moves ==> WorkerMove(m)
    ensures Productives(moves) + Work(cfg, After(cfg, s, moves)) <= Work(cfg, s)
    ensures 0 <= Work(cfg, After(cfg, s, moves))
  {
    ChainStaysUndisturbed(cfg, s, moves);
    var t := After(cfg, s, moves);
    RemainingIsNonNegative(cfg, t, |cfg.steps|);
    if moves != [] {
      var init, m := moves[..|moves| - 1], moves[|moves| - 1];
      ChainTerminates(cfg, s, init);
      ChainStaysUndisturbed(cfg, s, init);
      hide Work, Next, Enabled, Undisturbed;
      WorkShrinks(cfg, After(cfg, s, init), m);
    }
  }

  /** As long as a chain is not at rest, answered or not, the worker can move, if need be after letting time pass. */
  lemma ChainIsNeverStuck(cfg: Config, s: Machine) returns (wait: int, m: Move)
    requires !Quiet(s)
    ensures Enabled(s, Tick(wait)) && Productive(m) && Enabled(Next(cfg, s, Tick(wait)), m)
  {
    wait := s.now;
    match s.pc
    case Loaded(_, _) => m := Notify;
    case Arming(_) => m := ArmNext(s.now, s.now);
    case Rearming(_) => m := Rearm(s.now);
    case Finishing(_) => m := Finish;
    case Idle =>
      if s.batch != [] {
        m := Begin;
      } else {
        var k: nat :| Live(s.rows, k);
        if wait < s.rows[k].nextAt { wait := s.rows[k].nextAt; }
        var shot := Shot(k, s.rows[k].repeatsDone);
        m := Poll([shot]);
        assert Due(Next(cfg, s, Tick(wait)), shot);
      }
  }

  /** The worker has a productive move, now or after letting time pass. */
  ghost predicate CanMove(cfg: Config, s: Machine) {
    exists wait, m :: CanMoveBy(cfg, s, wait, m)
  }

  ghost predicate CanMoveBy(cfg: Config, s: Machine, wait: int, m: Move) {
    Enabled(s, Tick(wait)) && Productive(m) && Enabled(Next(cfg, s, Tick(wait)), m)
  }

  /** The worker has nothing left to do, however long it waits, exactly when the chain is at rest. */
  lemma AtRestIff(cfg: Config, s: Machine)
    ensures !CanMove(cfg, s) <==> Quiet(s)
  {
    if !Quiet(s) {
      var wait, m := ChainIsNeverStuck(cfg, s);
      assert CanMoveBy(cfg, s, wait, m);
    } else {
      forall wait, m ensures !CanMoveBy(cfg, s, wait, m) {
        if m.Poll? && m.due != [] { assert m.due[0] in m.due; }
      }
    }
  }

  // =================================================================================================
  // Acknowledgement and StopChain against a fire in flight
  // =================================================================================================

  /** Closed for good: whatever reads the alert from now on sees that. */
  ghost predicate Answered(s: Machine) { s.status != Open }

  /** Timers a fire that read the alert before the ack may still write. */
  ghost function Pending(s: Machine): nat {
    match s.pc
    case Loaded(_, acked) => if acked then 0 else 2
    case Arming(_) => 2
    case Rearming(_) => 1
    case _ => 0
  }

  /** Live timers that neither the snapshot nor the fire in progress will finish. */
  ghost predicate Loose(s: Machine, k: nat) {
    && Live(s.rows, k)
    && (forall x :: x in s.batch ==> x.step != k)
    && !((s.pc.Finishing? || (s.pc.Loaded? && s.pc.acked)) && s.pc.shot.step == k)
  }

  ghost function LooseSet(s: Machine): set<nat> {
    set k | k in s.rows && Loose(s, k)
  }

  /** What can still fire: the rest of the snapshot, the loose timers, and those still to be written. */
  ghost function Shots(s: Machine): nat { |s.batch| + |LooseSet(s)| + Pending(s) }

  /** A fire that saw the alert answered: all it will write is that its timer is done. */
  ghost predicate Harmless(pc: Pc) { pc.Finishing? || (pc.Loaded? && pc.acked) }

  lemma HarmlessStays(cfg: Config, s: Machine, m: Move)
    requires Answered(s) && Enabled(s, m) && (s.pc == Idle || Harmless(s.pc))
    ensures var t := Next(cfg, s, m);
      && Answered(t) && (t.pc == Idle || Harmless(t.pc))
      && forall k: nat :: Live(t.rows, k) ==> Live(s.rows, k)
  {}

  /** Once no fire that read the alert before the answer is in flight, no run brings a timer to life: every fire from
      then on reads the answer and only writes that its timer is done, whatever interleaves. */
  lemma {:induction false} LateReadsArmNothing(cfg: Config, s: Machine, moves: seq<Move>)
    requires Answered(s) && (s.pc == Idle || Harmless(s.pc)) && Legal(cfg, s, moves)
    ensures var t := After(cfg, s, moves);
      && Answered(t) && (t.pc == Idle || Harmless(t.pc))
      && forall k: nat :: Live(t.rows, k) ==> Live(s.rows, k)
  {
    hide Next, Enabled, Answered, Harmless;
    if moves != [] {
      var init, m := moves[..|moves| - 1], moves[|moves| - 1];
      LateReadsArmNothing(cfg, s, init);
      HarmlessStays(cfg, After(cfg, s, init), m);
    }
  }

  /** The pages from `before` on are of steps of the policy that are to be paged although the alert is acknowledged. */
  ghost predicate OnlyInsistent(cfg: Config, pages: seq<Page>, before: nat) {
    forall i :: before <= i < |pages| ==> pages[i].step < |cfg.steps| && !cfg.steps[pages[i].step].unlessAcked
  }

  /** From then on nobody is paged for a step that is to be skipped once the alert is acknowledged, in any run of any
      moves; and nobody at all once it is closed. */
  lemma {:induction false} AnsweredSkips(cfg: Config, s: Machine, moves: seq<Move>)
    requires Answered(s) && (s.pc == Idle || Harmless(s.pc)) && Legal(cfg, s, moves)
    ensures var t := After(cfg, s, moves);
      && s.pages <= t.pages && OnlyInsistent(cfg, t.pages, |s.pages|)
      && (s.status != Acked && !s.pc.Loaded? ==> t.pages == s.pages)
  {
    if moves != [] {
      var init, m := moves[..|moves| - 1], moves[|moves| - 1];
      AnsweredSkips(cfg, s, init);
      LateReadsArmNothing(cfg, s, init);
      if s.status != Acked && !s.pc.Loaded? { ClosedStays(cfg, s, init); }
    }
  }

  lemma {:induction false} ClosedStays(cfg: Config, s: Machine, moves: seq<Move>)
    requires Answered(s) && s.status != Acked && !s.pc.Loaded? && (s.pc == Idle || Harmless(s.pc))
    requires Legal(cfg, s, moves)
    ensures var t := After(cfg, s, moves);
      t.status != Open && t.status != Acked && (t.pc == Idle || t.pc.Finishing?)
  {
    if moves != [] { ClosedStays(cfg, s, moves[..|moves| - 1]); }
  }

  /** One fire on its own, by what its alert's state says: a step of an open alert is paged once, whatever its flag; of
      an acknowledged one once, unless the step is to be skipped then; of a closed or vanished one, or beyond the
      policy, not at all. */
  lemma FirePages(cfg: Config, s: Machine, shot: Shot)
    requires s.pc == Idle && s.batch != [] && s.batch[0] == shot
    ensures var t := After(cfg, s, [Begin, Notify]);
      Legal(cfg, s, [Begin]) &&
      if s.status.Resolved? || s.status.Expired? || s.status.Gone? || shot.step >= |cfg.steps| then
        After(cfg, s, [Begin]).pages == s.pages && After(cfg, s, [Begin]).pc == Finishing(shot)
      else
        && Legal(cfg, s, [Begin, Notify])
        && t.pages == s.pages + (if s.status == Acked && cfg.steps[shot.step].unlessAcked then []
                                 else [Page(shot.step, shot.repeatsDone, s.now)])
        && (s.status == Acked ==> t.pc == Finishing(shot)) && (s.status == Open ==> t.pc == Arming(shot))
  {
    assert [Begin][..0] == [] && [Begin, Notify][..1] == [Begin];
    assert After(cfg, s, []) == s && Legal(cfg, s, []);
    assert After(cfg, s, [Begin]) == Next(cfg, s, Begin);
  }

  /** Snapshot and fire in progress concern different steps, and fires past their policy check fit the policy. */
  ghost predicate Orderly(cfg: Config, s: Machine) {
    && DistinctSteps(s.batch)
    && (s.pc != Idle ==> forall x :: x in s.batch ==> x.step != s.pc.shot.step)
    && (s.pc.Loaded? || s.pc.Arming? || s.pc.Rearming? ==> s.pc.shot.step < |cfg.steps|)
  }

  lemma OrderlyStays(cfg: Config, s: Machine, m: Move)
    requires Orderly(cfg, s) && Enabled(s, m)
    ensures Orderly(cfg, Next(cfg, s, m))
  {
    if m == Begin {
      var t := Next(cfg, s, m);
      forall x | x in t.batch ensures x.step != t.pc.shot.step {
        var i :| 0 <= i < |t.batch| && t.batch[i] == x;
        assert s.batch[i + 1] == x;
      }
    }
  }

  lemma {:induction false} StepsOfShots(shots: seq<Shot>) returns (steps: set<nat>)
    requires DistinctSteps(shots)
    ensures |steps| == |shots| && forall k :: k in steps <==> exists i :: 0 <= i < |shots| && shots[i].step == k
  {
    steps := {};
    if shots != [] {
      var init := shots[..|shots| - 1];
      var rest := StepsOfShots(init);
      assert forall i :: 0 <= i < |init| ==> shots[i] == init[i];
      steps := rest + {shots[|shots| - 1].step};
    }
  }

  lemma Subset(a: set<nat>, b: set<nat>)
    requires a <= b
    ensures |a| <= |b|
  {
    if a != b {
      var x :| x in b && x !in a;
      Subset(a, b - {x});
    }
  }

  lemma PollKeepsShots(cfg: Config, s: Machine, due: seq<Shot>)
    requires Orderly(cfg, s) && Enabled(s, Poll(due))
    ensures Shots(Next(cfg, s, Poll(due))) == Shots(s)
  {
    var t := Next(cfg, s, Poll(due));
    var steps := StepsOfShots(due);
    forall k | k in steps ensures k in LooseSet(s) {
      var i :| 0 <= i < |due| && due[i].step == k;
      assert Due(s, due[i]);
    }
    forall k: nat ensures k in LooseSet(t) <==> k in LooseSet(s) && k !in steps {
      if k in LooseSet(s) && k !in steps { assert forall x :: x in due ==> x.step != k; }
    }
    assert LooseSet(s) == LooseSet(t) + steps;
    assert |LooseSet(t) + steps| == |LooseSet(t)| + |steps|;
  }

  /** Once the alert is answered nothing adds to what can still fire, and every fire uses some of it up. */
  lemma ShotsShrink(cfg: Config, s: Machine, m: Move)
    requires Orderly(cfg, s) && Answered(s) && Enabled(s, m)
    ensures Shots(Next(cfg, s, m)) <= Shots(s) - if m == Begin then 1 else 0
    ensures Answered(Next(cfg, s, m))
  {
    var t := Next(cfg, s, m);
    if m.Poll? {
      PollKeepsShots(cfg, s, m.due);
    } else {
      LooseOrNew(cfg, s, m);
      Subset(LooseSet(t), LooseSet(s) + Armed(s, m));
      assert |LooseSet(s) + Armed(s, m)| <= |LooseSet(s)| + |Armed(s, m)|;
    }
  }

  lemma LooseOrNew(cfg: Config, s: Machine, m: Move)
    requires Orderly(cfg, s) && Answered(s) && Enabled(s, m) && !m.Poll?
    ensures LooseSet(Next(cfg, s, m)) <= LooseSet(s) + Armed(s, m)
  {
    var t := Next(cfg, s, m);
    forall k | k in LooseSet(t) && k !in Armed(s, m) ensures k in LooseSet(s) {
      assert Live(s.rows, k);
      if m == Begin {
        forall x | x in s.batch ensures x.step != k {
          var i :| 0 <= i < |s.batch| && s.batch[i] == x;
          if i > 0 { assert t.batch[i - 1] == x; }
        }
      }
    }
  }

  ghost function Begins(moves: seq<Move>): nat {
    if moves == [] then 0 else Begins(moves[..|moves| - 1]) + if moves[|moves| - 1] == Begin then 1 else 0
  }

  /** Over any run after the answer the fires are bounded by what could still fire at its start. */
  lemma {:induction false} FiresAreBounded(cfg: Config, s: Machine, moves: seq<Move>)
    requires Orderly(cfg, s) && Answered(s) && Legal(cfg, s, moves)
    ensures var t := After(cfg, s, moves);
      Orderly(cfg, t) && Answered(t) && Begins(moves) + Shots(t) <= Shots(s)
  {
    if moves != [] {
      var init, m := moves[..|moves| - 1], moves[|moves| - 1];
      FiresAreBounded(cfg, s, init);
      hide Shots, Orderly, Answered, Next, Enabled;
      OrderlyStays(cfg, After(cfg, s, init), m);
      ShotsShrink(cfg, After(cfg, s, init), m);
    }
  }

  // ---- after StopChain --------------------------------------------------------------------------

  /** The steps a fire in flight may still arm: its successor and itself. */
  ghost function InFlight(s: Machine): set<nat> {
    if Pending(s) > 0 then {s.pc.shot.step, s.pc.shot.step + 1} else {}
  }

  ghost function LiveSet(s: Machine): set<nat> { set k | k in s.rows && Live(s.rows, k) }

  lemma StopClearsTimers(cfg: Config, s: Machine)
    ensures var t := Next(cfg, s, Stop); LiveSet(t) == {} && LooseSet(t) == {} && t.batch == s.batch && t.pc == s.pc
  {}

  /** The timer a move may bring to life. */
  ghost function Armed(s: Machine, m: Move): set<nat> {
    if m.ArmNext? && s.pc.Arming? then {s.pc.shot.step + 1}
    else if m.Rearm? && s.pc.Rearming? then {s.pc.shot.step}
    else {}
  }

  lemma LiveOrArmed(cfg: Config, s: Machine, m: Move)
    requires Orderly(cfg, s) && Enabled(s, m)
    ensures LiveSet(Next(cfg, s, m)) <= LiveSet(s) + Armed(s, m)
  {}

  lemma ArmedIsPending(cfg: Config, s: Machine, m: Move)
    requires Orderly(cfg, s) && Answered(s) && Enabled(s, m)
    ensures Armed(s, m) <= InFlight(s) && InFlight(Next(cfg, s, m)) <= InFlight(s)
    ensures |Armed(s, m)| + Pending(Next(cfg, s, m)) <= Pending(s)
  {
    hide LiveSet, Live;
  }

  lemma LiveShrinks(cfg: Config, s: Machine, m: Move)
    requires Orderly(cfg, s) && Answered(s) && Enabled(s, m)
    ensures var t := Next(cfg, s, m);
      && LiveSet(t) <= LiveSet(s) + InFlight(s)
      && InFlight(t) <= InFlight(s)
      && |LiveSet(t)| + Pending(t) <= |LiveSet(s)| + Pending(s)
  {
    hide *;
    var t := Next(cfg, s, m);
    LiveOrArmed(cfg, s, m);
    ArmedIsPending(cfg, s, m);
    Subset(LiveSet(t), LiveSet(s) + Armed(s, m));
    assert |LiveSet(s) + Armed(s, m)| <= |LiveSet(s)| + |Armed(s, m)|;
  }

  /** After the answer and StopChain at most two timers are ever live, and they are the successor and the
      repeat of a fire that was already in flight; with no such fire, none is. */
  lemma {:induction false} AtMostTwoTimersOutliveStop(cfg: Config, s: Machine, moves: seq<Move>)
    requires Orderly(cfg, s) && Answered(s)
    requires Legal(cfg, Next(cfg, s, Stop), moves)
    ensures var t := After(cfg, Next(cfg, s, Stop), moves);
      && LiveSet(t) <= InFlight(s)
      && InFlight(t) <= InFlight(s)
      && |LiveSet(t)| + Pending(t) <= Pending(s) <= 2
  {
    StopClearsTimers(cfg, s);
    if moves != [] {
      var init, m := moves[..|moves| - 1], moves[|moves| - 1];
      AtMostTwoTimersOutliveStop(cfg, s, init);
      OrderlyStays(cfg, s, Stop);
      FiresAreBounded(cfg, Next(cfg, s, Stop), init);
      hide Orderly, Answered, Next, Enabled, LiveSet, InFlight, Pending;
      LiveShrinks(cfg, After(cfg, Next(cfg, s, Stop), init), m);
    }
  }

  /** After the answer and StopChain only the timers already polled and those two can fire, each once. */
  lemma FiresAfterStop(cfg: Config, s: Machine, moves: seq<Move>)
    requires Orderly(cfg, s) && Answered(s)
    requires Legal(cfg, Next(cfg, s, Stop), moves)
    ensures Begins(moves) <= |s.batch| + Pending(s) <= |s.batch| + 2
    ensures Begins(moves) == |s.batch| + Pending(s) && After(cfg, Next(cfg, s, Stop), moves).pc == Idle ==>
      LiveSet(After(cfg, Next(cfg, s, Stop), moves)) == {}
  {
    StopClearsTimers(cfg, s);
    OrderlyStays(cfg, s, Stop);
    FiresAreBounded(cfg, Next(cfg, s, Stop), moves);
    var t := After(cfg, Next(cfg, s, Stop), moves);
    if Shots(t) == 0 && t.pc == Idle {
      assert LiveSet(t) == LooseSet(t);
    }
  }

  // ---- until none remain ------------------------------------------------------------------------

  ghost function StageWhenAnswered(s: Machine): nat {
    match s.pc
    case Idle => if s.batch == [] then 3 else 2
    case Loaded(_, _) => 6
    case Arming(_) => 5
    case Rearming(_) => 4
    case Finishing(_) => 4
  }

  /** A bound on the worker's remaining moves once the alert is answered. */
  ghost function WorkWhenAnswered(s: Machine): nat { 5 * Shots(s) + StageWhenAnswered(s) }

  lemma AnsweredWorkShrinks(cfg: Config, s: Machine, m: Move)
    requires Orderly(cfg, s) && Answered(s) && Enabled(s, m)
    ensures WorkWhenAnswered(Next(cfg, s, m)) <= WorkWhenAnswered(s) - if Productive(m) then 1 else 0
  {
    ShotsShrink(cfg, s, m);
    hide Shots;
  }

  /** Over any run after the answer the worker makes no more productive moves than this bound. */
  lemma {:induction false} AnsweredChainTerminates(cfg: Config, s: Machine, moves: seq<Move>)
    requires Orderly(cfg, s) && Answered(s) && Legal(cfg, s, moves)
    ensures Productives(moves) + WorkWhenAnswered(After(cfg, s, moves)) <= WorkWhenAnswered(s)
  {
    if moves != [] {
      var init, m := moves[..|moves| - 1], moves[|moves| - 1];
      AnsweredChainTerminates(cfg, s, init);
      FiresAreBounded(cfg, s, init);
      hide WorkWhenAnswered, Orderly, Answered, Next, Enabled, Productive;
      AnsweredWorkShrinks(cfg, After(cfg, s, init), m);
    }
  }

  /** An answered chain comes to rest: any run can be continued to one that ends with nothing in flight, nothing polled
      and no live timer, and no run makes more productive moves on the way than the bound. */
  lemma AnsweredChainComesToRest(cfg: Config, s: Machine, begun: seq<Move>) returns (moves: seq<Move>)
    requires Orderly(cfg, s) && Answered(s) && Legal(cfg, s, begun)
    ensures begun <= moves && Legal(cfg, s, moves) && Quiet(After(cfg, s, moves))
    ensures Productives(moves) <= WorkWhenAnswered(s)
  {
    hide Orderly, Answered, Enabled, Next, Quiet, WorkWhenAnswered, Productive, Legal, After, Productives;
    moves := begun;
    while !Quiet(After(cfg, s, moves))
      invariant begun <= moves && Legal(cfg, s, moves)
      decreases WorkWhenAnswered(s) - Productives(moves)
    {
      AnsweredChainTerminates(cfg, s, moves);
      var wait, m := ChainIsNeverStuck(cfg, After(cfg, s, moves));
      OneMoreMove(cfg, s, moves, Tick(wait));
      OneMoreMove(cfg, s, moves + [Tick(wait)], m);
      moves := moves + [Tick(wait)] + [m];
      AnsweredChainTerminates(cfg, s, moves);
    }
    AnsweredChainTerminates(cfg, s, moves);
  }

  lemma OneMoreMove(cfg: Config, s: Machine, moves: seq<Move>, m: Move)
    requires Legal(cfg, s, moves) && Enabled(After(cfg, s, moves), m)
    ensures Legal(cfg, s, moves + [m]) && After(cfg, s, moves + [m]) == Next(cfg, After(cfg, s, moves), m)
    ensures Productives(moves + [m]) == Productives(moves) + if Productive(m) then 1 else 0
  {
    hide Enabled, Next;
    assert (moves + [m])[..|moves|] == moves;
  }

  lemma {:induction false} InFlightShrinks(cfg: Config, s: Machine, moves: seq<Move>)
    requires Orderly(cfg, s) && Answered(s) && Legal(cfg, s, moves)
    ensures InFlight(After(cfg, s, moves)) <= InFlight(s)
  {
    if moves != [] {
      var init, m := moves[..|moves| - 1], moves[|moves| - 1];
      InFlightShrinks(cfg, s, init);
      FiresAreBounded(cfg, s, init);
      hide InFlight, Orderly, Answered, Next, Enabled;
      ArmedIsPending(cfg, After(cfg, s, init), m);
    }
  }

  /** From the start of a chain: the worker runs, the alert is acknowledged, anything happens, the chain is stopped, and
      anything happens again. Then only the step in flight at the acknowledgement and its successor can be live; at most
      the polled timers and two more fire; the worker's moves are bounded; and when it has no more, no timer is left. */
  lemma AcknowledgedChainEnds(cfg: Config, s: Machine, before: seq<Move>, between: seq<Move>, after: seq<Move>)
    requires Started(cfg, s) && Legal(cfg, s, before) && forall m :: m in before ==> WorkerMove(m)
    requires Legal(cfg, Next(cfg, After(cfg, s, before), Ack), between)
    requires Legal(cfg, Next(cfg, After(cfg, Next(cfg, After(cfg, s, before), Ack), between), Stop), after)
    ensures
      var acked := Next(cfg, After(cfg, s, before), Ack);
      var stopping := After(cfg, acked, between);
      var t := After(cfg, Next(cfg, stopping, Stop), after);
      && LiveSet(t) <= InFlight(acked) && |LiveSet(t)| <= 2
      && Begins(after) <= |stopping.batch| + 2
      && Productives(after) + WorkWhenAnswered(t) <= WorkWhenAnswered(Next(cfg, stopping, Stop))
      && (CanMove(cfg, t) || (LiveSet(t) == {} && t.batch == [] && t.pc == Idle))
  {
    hide CanMove, Undisturbed, Orderly, Answered, Next, InFlight, Pending, WorkWhenAnswered, Enabled;
    var acked := Next(cfg, After(cfg, s, before), Ack);
    ChainStaysUndisturbed(cfg, s, before);
    UndisturbedIsOrderly(cfg, After(cfg, s, before));
    FiresAreBounded(cfg, acked, between);
    InFlightShrinks(cfg, acked, between);
    var stopping := After(cfg, acked, between);
    AtMostTwoTimersOutliveStop(cfg, stopping, after);
    FiresAfterStop(cfg, stopping, after);
    OrderlyStays(cfg, stopping, Stop);
    StopStaysAnswered(cfg, stopping);
    AnsweredChainTerminates(cfg, Next(cfg, stopping, Stop), after);
    AtRestIff(cfg, After(cfg, Next(cfg, stopping, Stop), after));
  }

  lemma StopStaysAnswered(cfg: Config, s: Machine)
    requires Answered(s)
    ensures Answered(Next(cfg, s, Stop)) && Enabled(s, Stop)
  {}

  /** Pages still to come: one for each fire, and the one of a fire that has not notified yet. */
  ghost function PagesToCome(s: Machine): nat { Shots(s) + if s.pc.Loaded? then 1 else 0 }

  lemma PagesShrink(cfg: Config, s: Machine, m: Move)
    requires Orderly(cfg, s) && Answered(s) && Enabled(s, m)
    ensures var t := Next(cfg, s, m); |t.pages| + PagesToCome(t) <= |s.pages| + PagesToCome(s)
  {
    ShotsShrink(cfg, s, m);
    hide Shots;
  }

  /** An answered alert is paged at most three times more than timers were polled when its chain stopped. */
  lemma {:induction false} PagesAfterStop(cfg: Config, s: Machine, moves: seq<Move>)
    requires Orderly(cfg, s) && Answered(s)
    requires Legal(cfg, Next(cfg, s, Stop), moves)
    ensures var t := After(cfg, Next(cfg, s, Stop), moves);
      |t.pages| + PagesToCome(t) <= |s.pages| + |s.batch| + 3
  {
    StopClearsTimers(cfg, s);
    if moves != [] {
      var init, m := moves[..|moves| - 1], moves[|moves| - 1];
      PagesAfterStop(cfg, s, init);
      OrderlyStays(cfg, s, Stop);
      FiresAreBounded(cfg, Next(cfg, s, Stop), init);
      hide Orderly, Answered, Next, Enabled, PagesToCome;
      PagesShrink(cfg, After(cfg, Next(cfg, s, Stop), init), m);
    }
  }

  /** The states in which an ack can meet a running chain are orderly. */
  lemma UndisturbedIsOrderly(cfg: Config, s: Machine)
    requires Undisturbed(cfg, s)
    ensures Orderly(cfg, s) && Orderly(cfg, Next(cfg, s, Ack)) && Answered(Next(cfg, s, Ack))
  {
    if s.pc != Idle { assert CountOk(cfg, s, s.pc.shot.step); }
  }
}
