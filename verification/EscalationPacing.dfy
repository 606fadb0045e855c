/** The pace of an escalation chain whose alert stays open (internal/escalation/escalation.go): how far apart its pages
    are, and when its timers are due at the latest. */
module EscalationPacing {
  import opened EscalationMachine

  /** Pages of one step are at least its repeat interval apart. */
  ghost predicate Spaced(cfg: Config, pages: seq<Page>) {
    forall i, j :: 0 <= i < j < |pages| && pages[i].step == pages[j].step && pages[i].step < |cfg.steps| ==>
      var every := cfg.steps[pages[i].step].repeatEvery;
      every > 0 && pages[j].at >= pages[i].at + every
  }

  /** A step whose time had passed when its predecessor was paged is paged at least five seconds after it. */
  ghost predicate CaughtUp(cfg: Config, pages: seq<Page>) {
    forall i, j :: 0 <= i < j < |pages| && pages[j].step < |cfg.steps| && pages[j].repeat == 0 ==>
      IsLateAfter(cfg, pages[i], pages[j].step) ==> pages[j].at >= pages[i].at + 5_000_000_000
  }

  /** When a live timer is due: a repeat no earlier than its interval after every page of the step, a first run of a
      step that is late no earlier than five seconds after its predecessor's first page; and at the latest its interval
      from now, or five seconds from now or the configured time. */
  ghost predicate TimerOk(cfg: Config, s: Machine, k: nat) {
    Live(s.rows, k) && k < |cfg.steps| ==>
      var row, step := s.rows[k], cfg.steps[k];
      if row.repeatsDone > 0 then
        && step.repeatEvery > 0 && row.nextAt <= s.now + step.repeatEvery
        && (!MidFire(s, k) ==> forall i :: 0 <= i < |s.pages| && s.pages[i].step == k ==>
              row.nextAt >= s.pages[i].at + step.repeatEvery)
      else
        && (k == 0 ==> row.nextAt == cfg.openedAt + step.after)
        && (row.nextAt <= cfg.openedAt + step.after || row.nextAt <= s.now + 5_000_000_000)
        && forall i :: 0 <= i < |s.pages| && IsLateAfter(cfg, s.pages[i], k) ==>
             row.nextAt >= s.pages[i].at + 5_000_000_000
  }

  /** The first page of a step came when the time of step `k`, the next one, had already passed. */
  ghost predicate IsLateAfter(cfg: Config, p: Page, k: nat)
    requires k < |cfg.steps|
  {
    p.step + 1 == k && p.repeat == 0 && cfg.openedAt + cfg.steps[k].after < p.at
  }

  ghost predicate Paced(cfg: Config, s: Machine) {
    && Spaced(cfg, s.pages) && CaughtUp(cfg, s.pages)
    && (forall i :: 0 <= i < |s.pages| ==> s.pages[i].at <= s.now)
    && forall k: nat :: TimerOk(cfg, s, k)
  }

  lemma {:induction false} NoRunsNoPages(pages: seq<Page>, k: nat)
    requires Runs(pages, k) == 0
    ensures forall i :: 0 <= i < |pages| ==> pages[i].step != k
  {
    if pages != [] {
      NoRunsNoPages(pages[..|pages| - 1], k);
      assert forall i :: 0 <= i < |pages| - 1 ==> pages[i] == pages[..|pages| - 1][i];
    }
  }

  lemma QuietMovesKeepPace(cfg: Config, s: Machine, m: Move)
    requires Undisturbed(cfg, s) && Paced(cfg, s) && Enabled(s, m) && (m.Tick? || m.Poll? || m.Begin?)
    ensures Paced(cfg, Next(cfg, s, m))
  {
    hide Undisturbed, Spaced, CaughtUp;
    var t := Next(cfg, s, m);
    forall k: nat ensures TimerOk(cfg, t, k) { assert TimerOk(cfg, s, k); }
  }

  /** The timer that fires is due, so its page keeps the distances the timer kept. */
  lemma NotifyKeepsPages(cfg: Config, s: Machine)
    requires Undisturbed(cfg, s) && Paced(cfg, s) && Enabled(s, Notify)
    ensures var t := Next(cfg, s, Notify); Spaced(cfg, t.pages) && CaughtUp(cfg, t.pages)
  {
    hide Runs, Total, PageOk;
    var k, shot := s.pc.shot.step, s.pc.shot;
    assert CountOk(cfg, s, k) && PrefixOk(cfg, s, k) && TimerOk(cfg, s, k) && Due(s, shot);
    if shot.repeatsDone == 0 { NoRunsNoPages(s.pages, k); }
    assert Next(cfg, s, Notify).pages == s.pages + [Page(k, shot.repeatsDone, s.now)];
  }

  lemma NotifyKeepsTimers(cfg: Config, s: Machine)
    requires Undisturbed(cfg, s) && Paced(cfg, s) && Enabled(s, Notify)
    ensures var t := Next(cfg, s, Notify); forall k: nat :: TimerOk(cfg, t, k)
  {
    hide Total, PageOk, Spaced, CaughtUp, Runs;
    var t, shot := Next(cfg, s, Notify), s.pc.shot;
    assert CountOk(cfg, s, shot.step) && Due(s, shot);
    assert t.pages == s.pages + [Page(shot.step, shot.repeatsDone, s.now)];
    forall k: nat ensures TimerOk(cfg, t, k) {
      assert TimerOk(cfg, s, k) && PrefixOk(cfg, s, k);
    }
  }

  lemma ArmNextKeepsPace(cfg: Config, s: Machine, checked: int, armed: int)
    requires Undisturbed(cfg, s) && Paced(cfg, s) && Enabled(s, ArmNext(checked, armed))
    ensures Paced(cfg, Next(cfg, s, ArmNext(checked, armed)))
  {
    hide Total, PageOk, Spaced, CaughtUp, Runs;
    var t := Next(cfg, s, ArmNext(checked, armed));
    forall k: nat ensures TimerOk(cfg, t, k) { assert TimerOk(cfg, s, k); }
  }

  lemma RearmKeepsPace(cfg: Config, s: Machine, at: int)
    requires Undisturbed(cfg, s) && Paced(cfg, s) && Enabled(s, Rearm(at))
    ensures Paced(cfg, Next(cfg, s, Rearm(at)))
  {
    hide Total, PageOk, Spaced, CaughtUp, Runs;
    var t := Next(cfg, s, Rearm(at));
    forall k: nat ensures TimerOk(cfg, t, k) { assert TimerOk(cfg, s, k); }
  }

  /** Over every run of worker and clock: repeats of a step are at least its interval apart, a step that is late waits
      five seconds after its predecessor, and no timer is put off longer than that. */
  lemma {:induction false} ChainKeepsPace(cfg: Config, s: Machine, moves: seq<Move>)
    requires Started(cfg, s) && Legal(cfg, s, moves) && forall m :: m in moves ==> WorkerMove(m)
    ensures Paced(cfg, After(cfg, s, moves))
  {
    if moves != [] {
      var init, m := moves[..|moves| - 1], moves[|moves| - 1];
      var t := After(cfg, s, init);
      ChainKeepsPace(cfg, s, init);
      ChainStaysUndisturbed(cfg, s, init);
      MoveKeepsPace(cfg, t, m);
    }
  }

  lemma MoveKeepsPace(cfg: Config, s: Machine, m: Move)
    requires Undisturbed(cfg, s) && Paced(cfg, s) && Enabled(s, m) && WorkerMove(m)
    ensures Paced(cfg, Next(cfg, s, m))
  {
    assert !m.Finish?;
    hide Undisturbed;
    match m
    case Tick(_) => QuietMovesKeepPace(cfg, s, m);
    case Poll(_) => QuietMovesKeepPace(cfg, s, m);
    case Begin => QuietMovesKeepPace(cfg, s, m);
    case Notify =>
      NotifyKeepsPages(cfg, s);
      NotifyKeepsTimers(cfg, s);
    case ArmNext(checked, armed) => ArmNextKeepsPace(cfg, s, checked, armed);
    case Rearm(at) => RearmKeepsPace(cfg, s, at);
    case _ =>
  }
}
