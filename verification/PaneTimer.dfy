/**
  The evaluation timer at lock-section granularity.  A machine state is the pane, the callbacks that
  the runtime may still run, the callbacks between their two lock sections, and the clock.
 */
module PaneTimer {
  import opened Wrappers
  import opened SessionStatus
  import opened PaneActor

  /**
    `outstanding`: sequence numbers captured by callbacks that have been created and not yet run (a
    stopped timer's callback may still run).  `inFlight`: clock values of callbacks that passed the
    guard and have not sampled yet.  `stopped`: the timer was stopped from outside and no sample followed.
   */
  datatype Machine = Machine(pane: Pane, outstanding: set<nat>, inFlight: multiset<int>, clock: int, stopped: bool)

  datatype Event =
    | External(x: Sample)          // a sample not caused by the timer
    | Callback(id: nat, now: int)  // first lock section of a timer callback
    | Complete(x: Sample)          // the sample of a callback in flight
    | Stop(now: int)

  function TimeOf(e: Event): int {
    match e
    case External(x) => x.now
    case Callback(_, now) => now
    case Complete(x) => x.now
    case Stop(now) => now
  }

  predicate Enabled(m: Machine, e: Event) {
    match e
    case External(_) => true
    case Callback(id, _) => id in m.outstanding
    case Complete(x) => x.now in m.inFlight
    case Stop(_) => true
  }

  /** A pane change that armed a timer created one callback. */
  function Armed(outstanding: set<nat>, p: Pane, q: Pane): set<nat> {
    if q.timer.Some? && q.timer != p.timer then outstanding + {q.timer.value.id} else outstanding
  }

  function Next(m: Machine, e: Event, c: Config): Machine
    requires Enabled(m, e)
  {
    match e
    case External(x) =>
      var q := Emit(m.pane, x, c);
      Machine(q, Armed(m.outstanding, m.pane, q), m.inFlight, x.now, false)
    case Callback(id, now) =>
      var q := Fire(m.pane, id, now, c);
      Machine(q, Armed(m.outstanding - {id}, m.pane.(timer := None), q),
              if FireCase(m.pane, id, now, c) == Evaluate then m.inFlight + multiset{now} else m.inFlight,
              now, m.stopped)
    case Complete(x) =>
      var q := Emit(m.pane, x, c);
      Machine(q, Armed(m.outstanding, m.pane, q), m.inFlight - multiset{x.now}, x.now, false)
    case Stop(now) =>
      Machine(StopTimer(m.pane), m.outstanding, m.inFlight, now, true)
  }

  function Initial(p: Pane, clock: int): Machine {
    Machine(p, {}, multiset{}, clock, false)
  }

  ghost predicate IsRun(m: Machine, es: seq<Event>, c: Config)
    decreases |es|
  {
    es == [] || (Enabled(m, es[0]) && IsRun(Next(m, es[0], c), es[1..], c))
  }

  ghost function RunOf(m: Machine, es: seq<Event>, c: Config): Machine
    requires IsRun(m, es, c)
    decreases |es|
  {
    if es == [] then m else RunOf(Next(m, es[0], c), es[1..], c)
  }

  /** The callback of the armed timer is the only one that passes the sequence guard. */
  ghost predicate Guarded(m: Machine) {
    && (forall id :: id in m.outstanding ==> id <= m.pane.evalSeq)
    && (m.pane.evalSeq in m.outstanding <==> m.pane.timer.Some?)
    && (m.pane.timer.Some? ==> m.pane.timer.value.id == m.pane.evalSeq)
  }

  /** After the first sample a running pane is always going to be evaluated again. */
  predicate Watched(m: Machine) {
    m.pane.startupHashCaptured && m.pane.status.emitted == Running
    ==> m.pane.timer.Some? || m.inFlight != multiset{} || m.stopped
  }

  lemma EmitArms(p: Pane, x: Sample, c: Config)
    ensures var q := Emit(p, x, c);
      && q.startupHashCaptured
      && (q.status.emitted == Running ==> q.timer.Some?)
      && q.evalSeq >= p.evalSeq
      && (q.timer == p.timer ==> q.evalSeq == p.evalSeq || q.timer.None?)
      && (q.timer.Some? && q.timer != p.timer ==> q.timer.value.id == q.evalSeq > p.evalSeq)
      && (q.timer.None? ==> q.evalSeq > p.evalSeq)
  {
  }

  lemma StepKeepsInvariant(m: Machine, e: Event, c: Config)
    requires Guarded(m) && Watched(m) && Enabled(m, e)
    ensures Guarded(Next(m, e, c)) && Watched(Next(m, e, c))
  {
    hide Emit;
    match e
    case External(x) => EmitArms(m.pane, x, c);
    case Complete(x) => EmitArms(m.pane, x, c);
    case Callback(id, now) =>
    case Stop(now) =>
  }

  lemma {:induction false} RunKeepsInvariant(m: Machine, es: seq<Event>, c: Config)
    requires Guarded(m) && Watched(m) && IsRun(m, es, c)
    ensures Guarded(RunOf(m, es, c)) && Watched(RunOf(m, es, c))
    decreases |es|
  {
    hide Next, Enabled;
    if es != [] {
      StepKeepsInvariant(m, es[0], c);
      RunKeepsInvariant(Next(m, es[0], c), es[1..], c);
    }
  }

  /**
    In every state reachable from a pane without timers: a running pane that has been sampled has a
    live timer or a callback about to sample (unless stopped from outside), and a callback whose timer
    is not the armed one leaves the pane exactly as it is.
   */
  lemma TimerSafety(p: Pane, clock: int, es: seq<Event>, id: nat, now: int, c: Config)
    requires p.timer.None? && !p.startupHashCaptured
    requires IsRun(Initial(p, clock), es, c)
    ensures var m := RunOf(Initial(p, clock), es, c);
      && Watched(m)
      && (id in m.outstanding && (m.pane.timer.None? || m.pane.timer.value.id != id)
          ==> Next(m, Callback(id, now), c).pane == m.pane)
      && (id in m.outstanding && m.pane.timer.Some? && m.pane.timer.value.id == id
          ==> FireCase(m.pane, id, now, c) != Stale)
  {
    hide Emit;
    RunKeepsInvariant(Initial(p, clock), es, c);
  }
}
