/**
  The status half of a pane actor: sampling, the evaluation timer guarded by a sequence number, and
  the auto-completion trigger.  `Pane` is the actor's abstract state; the class below holds the fields
  and its methods are the actor's lock sections, each tied to a function on `Pane`.
 */
module PaneActor {
  import opened Wrappers
  import opened SessionStatus

  /** 1200 ms, in the unit of the model's clock. */
  const TOOL_HASH_TRANSITION_FAST := 1200

  datatype Config = Config(transitionDelay: int, inputIgnoreWindow: int)

  function Delay(c: Config): (d: int)
    ensures 0 < d <= TOOL_HASH_TRANSITION_FAST
  {
    if c.transitionDelay <= 0 || c.transitionDelay > TOOL_HASH_TRANSITION_FAST
    then TOOL_HASH_TRANSITION_FAST
    else c.transitionDelay
  }

  /** An armed timer: the sequence number its callback captured, and when it is due. */
  datatype Timer = Timer(id: nat, due: int)

  datatype Pane = Pane(
    status: PaneStatus,
    startupHashCaptured: bool,
    startupHash: Hash,
    autoProcessArmed: bool,
    timer: Option<Timer>,
    evalSeq: nat)

  /**
    One sample: the snapshot hash, the clock, the last input the tracker knows of, tmux's own
    last-activity time if it gave one, and whether a suppression entry matches this hash.
   */
  datatype Sample = Sample(hash: Hash, now: int, lastInputAt: Option<int>, paneLastActiveAt: Option<int>,
                           suppressed: bool)

  datatype Baseline = Baseline(lastActiveAt: Option<int>, snapshotHash: Hash, runtimeStatus: Status)

  function NewPane(): Pane {
    Pane(PaneStatus("", Unset, Unset, None, None), false, "", false, None, 0)
  }

  /** A pane restored from a persisted baseline at time `now`. */
  function WithBaseline(p: Pane, b: Baseline, now: int): Pane {
    var s1 := if b.lastActiveAt.Some? && p.status.lastActiveAt.None?
              then p.status.(lastActiveAt := b.lastActiveAt) else p.status;
    var s2 := if b.snapshotHash != "" && s1.prevHash == "" then s1.(prevHash := b.snapshotHash) else s1;
    if b.runtimeStatus == Unset || s2.emitted != Unset then p.(status := s2)
    else p.(status := s2.(
              emitted := b.runtimeStatus,
              candidate := b.runtimeStatus,
              candidateSince := if s2.lastActiveAt.Some? then s2.lastActiveAt else Some(now)))
  }

  function StopTimer(p: Pane): Pane {
    p.(timer := None, evalSeq := p.evalSeq + 1)
  }

  /** An earlier due time already armed is kept; otherwise the timer is replaced. */
  function ScheduleTimer(p: Pane, at: int): Pane {
    if p.timer.Some? && at >= p.timer.value.due then p
    else
      var q := if p.timer.Some? then StopTimer(p) else p;
      q.(timer := Some(Timer(q.evalSeq + 1, at)), evalSeq := q.evalSeq + 1)
  }

  function NextStatusEvalAt(s: PaneStatus, now: int, delay: int): Option<int> {
    var emitted := Normalize(s.emitted);
    if emitted == Unknown then None
    else if s.candidate != emitted then
      if s.candidateSince.None? then Some(now + delay) else Some(s.candidateSince.value + delay)
    else if emitted == Running then Some(now + delay)
    else None
  }

  /** The status a sample advances from: first-tick and last-activity adjustments applied. */
  function Before(p: Pane, x: Sample): PaneStatus {
    var s1 := if !p.startupHashCaptured && p.status.lastActiveAt.Some? && p.status.prevHash != ""
              then p.status.(prevHash := x.hash) else p.status;
    if s1.prevHash == "" && s1.lastActiveAt.None? && x.paneLastActiveAt.Some?
    then s1.(lastActiveAt := Some(if x.paneLastActiveAt.value > x.now then x.now else x.paneLastActiveAt.value))
    else s1
  }

  /** Everything a sample changes except the timer. */
  function Sampled(p: Pane, x: Sample, c: Config): Pane {
    p.(
    status := Advance(Before(p, x), x.hash, x.now, x.lastInputAt, Delay(c), c.inputIgnoreWindow),
    startupHashCaptured := true,
    startupHash := if p.startupHashCaptured then p.startupHash else x.hash,
    autoProcessArmed := p.autoProcessArmed || (p.startupHashCaptured && x.hash != p.startupHash))
  }

  function Emit(p: Pane, x: Sample, c: Config): Pane {
    var q := Sampled(p, x, c);
    var at := NextStatusEvalAt(q.status, x.now, Delay(c));
    if at.Some? then ScheduleTimer(q, at.value) else StopTimer(q)
  }

  /** The sample calls the auto-completion executor. */
  predicate AutoCompletes(p: Pane, x: Sample, c: Config) {
    var q := Sampled(p, x, c);
    q.autoProcessArmed && Normalize(p.status.emitted) != Ready && Normalize(q.status.emitted) == Ready && !x.suppressed
  }

  /** What the first lock section of a timer callback decides. */
  datatype FireOutcome = Stale | Rescheduled | Evaluate

  function FireCase(p: Pane, id: nat, now: int, c: Config): FireOutcome {
    if id != p.evalSeq then Stale
    else if Normalize(p.status.emitted) == Running && p.status.lastActiveAt.Some?
      && now < p.status.lastActiveAt.value + Delay(c)
    then Rescheduled
    else Evaluate
  }

  function Fire(p: Pane, id: nat, now: int, c: Config): Pane {
    match FireCase(p, id, now, c)
    case Stale => p
    case Rescheduled => ScheduleTimer(p.(timer := None), p.status.lastActiveAt.value + Delay(c))
    case Evaluate => p.(timer := None)
  }

  class PaneActor {
    var statusState: PaneStatus
    var startupHashCaptured: bool
    var startupHash: Hash
    var autoProcessArmed: bool
    var statusEvalTimer: Option<nat>
    var statusEvalDueAt: Option<int>
    var statusEvalSeq: nat
    const config: Config

    ghost predicate Valid()
      reads this
    {
      statusEvalTimer.Some? == statusEvalDueAt.Some?
    }

    ghost function View(): Pane
      requires Valid()
      reads this
    {
      Pane(statusState, startupHashCaptured, startupHash, autoProcessArmed,
           if statusEvalTimer.Some? then Some(Timer(statusEvalTimer.value, statusEvalDueAt.value)) else None,
           statusEvalSeq)
    }

    constructor (config: Config)
      ensures Valid() && View() == NewPane() && this.config == config
    {
      statusState := PaneStatus("", Unset, Unset, None, None);
      startupHashCaptured, startupHash, autoProcessArmed := false, "", false;
      statusEvalTimer, statusEvalDueAt, statusEvalSeq := None, None, 0;
      this.config := config;
    }

    method SetRuntimeBaseline(baseline: Baseline, now: int)
      requires Valid()
      modifies this
      ensures Valid() && View() == WithBaseline(old(View()), baseline, now)
    {
      if baseline.lastActiveAt.Some? && statusState.lastActiveAt.None? {
        statusState := statusState.(lastActiveAt := baseline.lastActiveAt);
      }
      if baseline.snapshotHash != "" && statusState.prevHash == "" {
        statusState := statusState.(prevHash := baseline.snapshotHash);
      }
      if baseline.runtimeStatus == Unset {
        return;
      }
      if statusState.emitted == Unset {
        statusState := statusState.(emitted := baseline.runtimeStatus, candidate := baseline.runtimeStatus);
        if statusState.lastActiveAt.Some? {
          statusState := statusState.(candidateSince := statusState.lastActiveAt);
        } else {
          statusState := statusState.(candidateSince := Some(now));
        }
      }
    }

    method StopStatusEvalTimer()
      requires Valid()
      modifies this
      ensures Valid() && View() == StopTimer(old(View()))
    {
      if statusEvalTimer.Some? {
        statusEvalTimer := None;
      }
      statusEvalDueAt := None;
      statusEvalSeq := statusEvalSeq + 1;
    }

    method ScheduleStatusEvalTimer(at: int)
      requires Valid()
      modifies this
      ensures Valid() && View() == ScheduleTimer(old(View()), at)
    {
      if statusEvalTimer.Some? && statusEvalDueAt.Some? {
        if at >= statusEvalDueAt.value {
          return;
        }
        StopStatusEvalTimer();
      }
      statusEvalSeq := statusEvalSeq + 1;
      statusEvalDueAt := Some(at);
      statusEvalTimer := Some(statusEvalSeq);
    }

    /** Start-up bookkeeping of a sample; returns the status to advance from. */
    method CaptureStartup(x: Sample) returns (prev: PaneStatus)
      requires Valid()
      modifies this
      ensures Valid() && prev == Before(old(View()), x)
      ensures View() == Sampled(old(View()), x, config).(status := old(statusState))
    {
      prev := statusState;
      var firstTick := !startupHashCaptured;
      if firstTick && prev.lastActiveAt.Some? && prev.prevHash != "" {
        prev := prev.(prevHash := x.hash);
      }
      if !startupHashCaptured {
        startupHashCaptured := true;
        startupHash := x.hash;
      } else if !autoProcessArmed && x.hash != startupHash {
        autoProcessArmed := true;
      }
      if prev.prevHash == "" && prev.lastActiveAt.None? && x.paneLastActiveAt.Some? {
        var at := x.paneLastActiveAt.value;
        if at > x.now {
          at := x.now;
        }
        prev := prev.(lastActiveAt := Some(at));
      }
    }

    /** Returns whether the sample calls the auto-completion executor. */
    method EmitStatusWithHash(x: Sample) returns (calls: bool)
      requires Valid()
      modifies this
      ensures Valid() && View() == Emit(old(View()), x, config)
      ensures calls == AutoCompletes(old(View()), x, config)
    {
      ghost var p := View();
      var prev := CaptureStartup(x);
      var transitionDelay := Delay(config);
      var next := AdvancePaneStatus(prev, x.hash, x.now, x.lastInputAt, transitionDelay, config.inputIgnoreWindow);
      statusState := next;
      assert View() == Sampled(p, x, config);
      var nextEvalAt := NextStatusEvalAt(next, x.now, transitionDelay);
      if nextEvalAt.Some? {
        ScheduleStatusEvalTimer(nextEvalAt.value);
      } else {
        StopStatusEvalTimer();
      }
      calls := false;
      if autoProcessArmed && Normalize(prev.emitted) != Ready && Normalize(next.emitted) == Ready {
        calls := !x.suppressed;
      }
    }

    /** The first lock section of a timer callback; `Evaluate` means a sample at `now` follows. */
    method OnStatusEvalTimerFired(id: nat, now: int) returns (outcome: FireOutcome)
      requires Valid()
      modifies this
      ensures Valid() && View() == Fire(old(View()), id, now, config)
      ensures outcome == FireCase(old(View()), id, now, config)
    {
      if id != statusEvalSeq {
        return Stale;
      }
      statusEvalTimer := None;
      statusEvalDueAt := None;
      var transitionDelay := Delay(config);
      if Normalize(statusState.emitted) == Running && statusState.lastActiveAt.Some? {
        var nextEvalAt := statusState.lastActiveAt.value + transitionDelay;
        if now < nextEvalAt {
          ScheduleStatusEvalTimer(nextEvalAt);
          return Rescheduled;
        }
      }
      return Evaluate;
    }
  }
}
