/**
  How soon a pane whose output has stopped is reported ready.  The last change is at time `t0`; from
  then on every sample has the same hash, and timers and their callbacks run on time.
 */
module PaneQuiescence {
  import opened Wrappers
  import opened SessionStatus
  import opened PaneActor
  import opened PaneTimer

  /** The hash does not change any more and nobody stops the timer. */
  predicate Quiet(e: Event, hash: Hash) {
    match e
    case External(x) => x.hash == hash
    case Complete(x) => x.hash == hash
    case Callback(_, _) => true
    case Stop(_) => false
  }

  /** The armed timer fires when due, and callbacks in flight sample before the clock moves on. */
  predicate OnTime(m: Machine, e: Event) {
    && m.clock <= TimeOf(e)
    && (m.pane.timer.Some? ==> TimeOf(e) <= m.pane.timer.value.due)
    && (m.inFlight != multiset{} ==> TimeOf(e) == m.clock)
    && (IsLiveFiring(m, e) ==> TimeOf(e) == m.pane.timer.value.due)
  }

  /** The callback of the armed timer runs. */
  predicate IsLiveFiring(m: Machine, e: Event) {
    e.Callback? && m.pane.timer.Some? && m.pane.timer.value.id == e.id
  }

  ghost predicate IsQuietRun(m: Machine, es: seq<Event>, hash: Hash, c: Config)
    decreases |es|
  {
    es == [] || (Enabled(m, es[0]) && Quiet(es[0], hash) && OnTime(m, es[0])
      && IsQuietRun(Next(m, es[0], c), es[1..], hash, c))
  }

  ghost function End(m: Machine, es: seq<Event>, hash: Hash, c: Config): Machine
    requires IsQuietRun(m, es, hash, c)
    decreases |es|
  {
    if es == [] then m else End(Next(m, es[0], c), es[1..], hash, c)
  }

  /** Running since a sample at `t0`, with the hash it still has, and on its way to ready. */
  ghost predicate Settling(m: Machine, t0: int, hash: Hash, c: Config) {
    && hash != "" && m.pane.startupHashCaptured
    && m.pane.status.prevHash == hash && m.pane.status.emitted == Running
    && m.pane.status.lastActiveAt.Some? && m.pane.status.lastActiveAt.value <= t0
    && m.pane.status.candidateSince.Some?
    && (forall v :: v in m.inFlight ==> v == m.clock)
    && (m.pane.timer.Some? || m.inFlight != multiset{})
    && var since := m.pane.status.candidateSince.value;
    && t0 <= m.clock <= since + Delay(c)
    && (m.pane.timer.Some? ==> m.clock <= m.pane.timer.value.due <= since + Delay(c))
    && (m.pane.status.candidate == Running ==> since == t0)
    && (m.pane.status.candidate != Running ==>
      m.pane.status.candidate == Ready && t0 <= since <= t0 + Delay(c) && since <= m.clock)
  }

  /** Settled: ready, and nothing but a change of the hash can alter that. */
  predicate Settled(m: Machine, hash: Hash) {
    hash != "" && m.pane.startupHashCaptured && m.pane.status.prevHash == hash && m.pane.status.emitted == Ready
  }

  /** An upper bound on the timer firings still needed. */
  function FiringsLeft(m: Machine, c: Config): nat {
    var s := m.pane.status;
    if s.emitted == Ready || s.lastActiveAt.None? || s.candidateSince.None? then 0
    else if m.pane.timer.Some? then
      if m.pane.timer.value.due < s.lastActiveAt.value + Delay(c) then 3
      else if s.candidate == Ready && m.pane.timer.value.due >= s.candidateSince.value + Delay(c) then 1
      else 2
    else if s.candidate == Ready && m.clock >= s.candidateSince.value + Delay(c) then 0
    else 1
  }

  /** A sample with the unchanged hash on a pane that is running. */
  lemma QuietSample(p: Pane, x: Sample, c: Config)
    requires p.startupHashCaptured && x.hash != "" && p.status.prevHash == x.hash && p.status.emitted == Running
    requires p.status.lastActiveAt.Some? && p.status.candidateSince.Some?
    ensures Emit(p, x, c).startupHashCaptured
    ensures var s, t := p.status, Emit(p, x, c).status;
      if s.candidate != Ready then t == s.(candidate := Ready, candidateSince := Some(x.now))
      else if x.now - s.candidateSince.value >= Delay(c) then t.emitted == Ready && t.prevHash == x.hash
      else t == s
    ensures var s, q := p.status, Emit(p, x, c);
      q.status.emitted == Running ==>
        q == ScheduleTimer(p.(status := q.status, autoProcessArmed := q.autoProcessArmed),
          q.status.candidateSince.value + Delay(c))
  {
  }

  lemma QuietSampleWhenReady(p: Pane, x: Sample, c: Config)
    requires p.startupHashCaptured && x.hash != "" && p.status.prevHash == x.hash && p.status.emitted == Ready
    ensures Emit(p, x, c).status.prevHash == x.hash && Emit(p, x, c).status.emitted == Ready
      && Emit(p, x, c).startupHashCaptured
  {
  }

  lemma SampleStep(m: Machine, e: Event, t0: int, hash: Hash, c: Config)
    requires Enabled(m, e) && Quiet(e, hash) && OnTime(m, e) && (e.External? || e.Complete?)
    requires (Settling(m, t0, hash, c) || Settled(m, hash))
    ensures var n := Next(m, e, c);
      && (Settling(n, t0, hash, c) || Settled(n, hash))
      && FiringsLeft(n, c) <= FiringsLeft(m, c)
  {
    hide Advance, Before, Sampled;
    if Settled(m, hash) {
      QuietSampleWhenReady(m.pane, e.x, c);
    } else {
      QuietSample(m.pane, e.x, c);
      hide Emit;
    }
  }

  lemma CallbackStep(m: Machine, e: Event, t0: int, hash: Hash, c: Config)
    requires Guarded(m) && Enabled(m, e) && Quiet(e, hash) && OnTime(m, e) && e.Callback?
    requires (Settling(m, t0, hash, c) || Settled(m, hash))
    ensures var n := Next(m, e, c);
      && (Settling(n, t0, hash, c) || Settled(n, hash))
      && FiringsLeft(n, c) + (if IsLiveFiring(m, e) && !Settled(m, hash) then 1 else 0) <= FiringsLeft(m, c)
  {
  }

  /** Timer firings of a run that come before the pane is ready. */
  ghost function FiringsBeforeReady(m: Machine, es: seq<Event>, hash: Hash, c: Config): nat
    requires IsQuietRun(m, es, hash, c)
    decreases |es|
  {
    if es == [] then 0
    else
      var firing := if IsLiveFiring(m, es[0]) && !Settled(m, hash) then 1 else 0;
      firing + FiringsBeforeReady(Next(m, es[0], c), es[1..], hash, c)
  }

  lemma {:induction false} QuietRun(m: Machine, es: seq<Event>, t0: int, hash: Hash, c: Config)
    requires Guarded(m) && Watched(m) && IsQuietRun(m, es, hash, c)
    requires Settling(m, t0, hash, c) || Settled(m, hash)
    ensures var n := End(m, es, hash, c);
      && (Settling(n, t0, hash, c) || Settled(n, hash))
      && FiringsBeforeReady(m, es, hash, c) + FiringsLeft(n, c) <= FiringsLeft(m, c)
    decreases |es|
  {
    hide Next, Emit, Fire, Enabled, OnTime, Settling, FiringsLeft, IsLiveFiring;
    if es != [] {
      var n := Next(m, es[0], c);
      StepKeepsInvariant(m, es[0], c);
      if es[0].Callback? {
        CallbackStep(m, es[0], t0, hash, c);
      } else {
        SampleStep(m, es[0], t0, hash, c);
        assert !IsLiveFiring(m, es[0]) by { NotAFiring(m, es[0]); }
      }
      QuietRun(n, es[1..], t0, hash, c);
    }
  }

  lemma NotAFiring(m: Machine, e: Event)
    requires !e.Callback?
    ensures !IsLiveFiring(m, e)
  {
  }

  /**
    Once the hash has stopped changing at `t0`: at most three timer firings come before `Ready`, the
    pane is ready whenever the clock is past `t0 + 2 * delay`, and until then there is a timer due by
    that time or a callback about to sample.  After a third firing the next sample emits `Ready`.
   */
  lemma {:induction false} ReadyWithinThreeFirings(m: Machine, es: seq<Event>, t0: int, hash: Hash, c: Config)
    requires Guarded(m) && Settling(m, t0, hash, c) && IsQuietRun(m, es, hash, c)
    ensures FiringsBeforeReady(m, es, hash, c) <= 3
    ensures var n := End(m, es, hash, c);
      n.pane.status.emitted != Ready ==>
        && n.clock <= t0 + 2 * Delay(c)
        && (n.pane.timer.Some? ==> n.pane.timer.value.due <= t0 + 2 * Delay(c))
        && (n.pane.timer.Some? || n.inFlight != multiset{})
        && (FiringsBeforeReady(m, es, hash, c) == 3 ==> n.pane.timer.None? && forall x: Sample ::
              x.hash == hash && x.now == n.clock ==> Emit(n.pane, x, c).status.emitted == Ready)
  {
    QuietRun(m, es, t0, hash, c);
    var n := End(m, es, hash, c);
    if n.pane.status.emitted != Ready && FiringsBeforeReady(m, es, hash, c) == 3 {
      forall x: Sample | x.hash == hash && x.now == n.clock
        ensures Emit(n.pane, x, c).status.emitted == Ready
      {
        QuietSample(n.pane, x, c);
      }
    }
  }

  /** The sample leaves the pane running, with a candidate that dates from it and no activity after it. */
  predicate LeavesRunning(p: Pane, x: Sample, c: Config) {
    var s := Emit(p, x, c).status;
    s.emitted == Running && s.candidateSince == Some(x.now) && s.lastActiveAt.Some? && s.lastActiveAt.value <= x.now
  }

  /** Samples taken from outside, and those of timer callbacks. */
  predicate IsSample(m: Machine, e: Event) {
    Enabled(m, e) && (e.External? || e.Complete?)
  }

  /** The bound starts with any such sample, if timers and callbacks have been on time so far. */
  lemma FreshCandidateStartsTheBound(m: Machine, e: Event, c: Config)
    requires Guarded(m) && IsSample(m, e) && e.x.hash != ""
    requires m.pane.timer.Some? ==> e.x.now <= m.pane.timer.value.due
    requires forall v :: v in m.inFlight ==> v == e.x.now
    requires LeavesRunning(m.pane, e.x, c)
    ensures var n := Next(m, e, c); Guarded(n) && Settling(n, e.x.now, e.x.hash, c)
  {
    EmitArms(m.pane, e.x, c);
    RunningSample(m.pane, e.x, c);
    hide Emit;
  }

  lemma RunningSample(p: Pane, x: Sample, c: Config)
    requires x.hash != "" && LeavesRunning(p, x, c)
    ensures var q := Emit(p, x, c);
      && q.startupHashCaptured && q.status.prevHash == x.hash
      && (q.status.candidate == Running || q.status.candidate == Ready)
      && q.timer == ScheduleTimer(p, x.now + Delay(c)).timer && q.timer.Some?
      && q.timer.value.due <= x.now + Delay(c)
      && (p.timer.Some? && x.now <= p.timer.value.due ==> x.now <= q.timer.value.due)
  {
    hide Before;
  }

  /** The first sample of a pane, new or restored, starts the bound if it leaves the pane running. */
  lemma FirstSampleStartsTheBound(m: Machine, e: Event, c: Config)
    requires Guarded(m) && IsSample(m, e) && !m.pane.startupHashCaptured && e.x.hash != ""
    requires m.pane.status.candidate == m.pane.status.emitted
    requires m.pane.timer.Some? ==> e.x.now <= m.pane.timer.value.due
    requires forall v :: v in m.inFlight ==> v == e.x.now
    requires m.pane.status.lastActiveAt.Some? ==> m.pane.status.lastActiveAt.value <= e.x.now
    requires Emit(m.pane, e.x, c).status.emitted == Running
    ensures var n := Next(m, e, c); Guarded(n) && Settling(n, e.x.now, e.x.hash, c)
  {
    FirstCandidate(m.pane, e.x, c);
    FreshCandidateStartsTheBound(m, e, c);
  }

  lemma FirstCandidate(p: Pane, x: Sample, c: Config)
    requires p.status.candidate == p.status.emitted && x.hash != "" && !p.startupHashCaptured
    requires p.status.lastActiveAt.Some? ==> p.status.lastActiveAt.value <= x.now
    ensures Emit(p, x, c).status.emitted == Running ==> LeavesRunning(p, x, c)
  {
  }

  /** A sample that observes a change starts the bound if it leaves the pane running. */
  lemma ChangeStartsTheBound(m: Machine, e: Event, c: Config)
    requires Guarded(m) && IsSample(m, e) && m.pane.startupHashCaptured
    requires e.x.hash != "" && m.pane.status.prevHash != "" && e.x.hash != m.pane.status.prevHash
    requires m.pane.timer.Some? ==> e.x.now <= m.pane.timer.value.due
    requires forall v :: v in m.inFlight ==> v == e.x.now
    requires Emit(m.pane, e.x, c).status.emitted == Running
    ensures var n := Next(m, e, c); Guarded(n) && Settling(n, e.x.now, e.x.hash, c)
  {
    ChangedCandidate(m.pane, e.x, c);
    FreshCandidateStartsTheBound(m, e, c);
  }

  lemma ChangedCandidate(p: Pane, x: Sample, c: Config)
    requires p.startupHashCaptured && x.hash != "" && p.status.prevHash != "" && x.hash != p.status.prevHash
    requires Emit(p, x, c).status.emitted == Running
    ensures LeavesRunning(p, x, c)
  {
  }
}
