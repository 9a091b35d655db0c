/**
  What the samples alone decide: their hashes, times and recent input, with no observation or candidate
  in between.
 */
module PaneSamples {
  import opened Wrappers
  import opened SessionStatus
  import opened PaneActor
  import opened PaneDebounce

  // ---------------------------------------------------------------------------------------------
  // One sample.

  /**
    A sample is on the way to running exactly when its hash is new and the pane runs already or no input
    is recent; a new hash soon after input counts as quiet, or as unknown where the status is.
   */
  lemma CandidateIs(s: PaneStatus, hash: Hash, now: int, lastInputAt: Option<int>, delay: int, window: int)
    requires hash != ""
    ensures var t := Advance(s, hash, now, lastInputAt, delay, window);
      && (t.candidate == Running <==>
        hash != s.prevHash && (s.emitted == Running || lastInputAt.None? || now - lastInputAt.value >= window))
      && (t.candidate == Unknown <==>
        hash != s.prevHash && s.emitted == Unknown && lastInputAt.Some? && now - lastInputAt.value < window)
      && t.candidate != Unset && t.prevHash == hash
  {
  }

  /**
    New output in a pane that is and stays ready starts a change to running exactly when no input is
    recent; either way the status shown stays, and the time of the output is kept.
   */
  lemma OutputStartsChangeIff(s: PaneStatus, hash: Hash, now: int, lastInputAt: Option<int>, delay: int, window: int)
    requires s.emitted == s.candidate == Ready && s.prevHash != "" && hash != "" && hash != s.prevHash
    ensures var t := Advance(s, hash, now, lastInputAt, delay, window);
      && t.emitted == Ready && t.candidateSince == t.lastActiveAt == Some(now)
      && (t.candidate == Running <==> lastInputAt.None? || now - lastInputAt.value >= window)
      && (t.candidate != Running ==> t.candidate == Ready)
  {
  }

  /** Recent input never hides the output of a running pane. */
  lemma RunningIsNeverMasked(s: PaneStatus, hash: Hash, now: int, delay: int,
      lastInputAt: Option<int>, window: int, other: Option<int>, otherWindow: int)
    requires s.emitted == Running
    ensures Advance(s, hash, now, lastInputAt, delay, window) == Advance(s, hash, now, other, delay, otherWindow)
    ensures hash != "" && hash != s.prevHash ==> Advance(s, hash, now, lastInputAt, delay, window).emitted == Running
  {
  }

  /** A pane without a status shows one at once: running for output that no recent input explains. */
  lemma FirstStatus(s: PaneStatus, hash: Hash, now: int, lastInputAt: Option<int>, delay: int, window: int)
    requires s.emitted == Unset && hash != ""
    ensures var t := Advance(s, hash, now, lastInputAt, delay, window);
      && t.emitted == t.candidate && t.candidateSince == Some(now)
      && (t.emitted == Running <==> hash != s.prevHash && (lastInputAt.None? || now - lastInputAt.value >= window))
      && (t.emitted == Ready <==> hash == s.prevHash || (lastInputAt.Some? && now - lastInputAt.value < window))
  {
  }

  /** Without a snapshot the status is unknown at once, and of what came before only the last activity counts. */
  lemma NoSnapshotForgets(s: PaneStatus, other: PaneStatus, now: int, lastInputAt: Option<int>, delay: int, window: int)
    requires s.lastActiveAt == other.lastActiveAt
    ensures var t := Advance(s, "", now, lastInputAt, delay, window);
      && t == Advance(other, "", now, lastInputAt, delay, window)
      && t.emitted == t.candidate == Unknown && t.prevHash == "" && t.candidateSince == Some(now)
      && t.lastActiveAt == Some(if s.lastActiveAt.Some? then s.lastActiveAt.value else now)
  {
  }

  // ---------------------------------------------------------------------------------------------
  // The timer.

  /** The configured delay counts if it is positive and at most 1200 ms. */
  lemma DelayIs(c: Config)
    ensures Delay(c) == if 0 < c.transitionDelay <= 1200 then c.transitionDelay else 1200
  {
  }

  /** An evaluation is due exactly for a running pane, and for a ready one on its way to another status. */
  lemma EvaluationIsDueIff(s: PaneStatus, now: int, delay: int)
    ensures var at := NextStatusEvalAt(s, now, delay);
      && (at.Some? <==> s.emitted == Running || (s.emitted == Ready && s.candidate != Ready))
      && (at.Some? ==>
        var isPending := s.candidate != s.emitted && s.candidateSince.Some?;
        at.value == delay + if isPending then s.candidateSince.value else now)
  {
  }

  /**
    A sample leaves a timer exactly for a running pane, and for a ready one that is on its way to another
    status; it is due once the candidate has been held long enough, unless an earlier one was armed.
   */
  lemma TimerIsArmedIff(p: Pane, x: Sample, c: Config)
    requires x.hash != ""
    ensures var q := Emit(p, x, c);
      && (q.timer.Some? <==> q.status.emitted == Running || (q.status.emitted == Ready && q.status.candidate != Ready))
      && (q.timer.Some? ==>
        q.status.candidateSince.Some?
        && var at := q.status.candidateSince.value + Delay(c);
        q.timer.value.due == if p.timer.Some? && p.timer.value.due <= at then p.timer.value.due else at)
  {
    hide Before;
  }

  /**
    The callback of the armed timer samples exactly when the pane is not running or has been quiet for the
    delay; otherwise a new timer is due when it will have been.  Nothing else changes.
   */
  lemma CallbackSamplesIff(p: Pane, now: int, c: Config)
    ensures var q, s := Fire(p, p.evalSeq, now, c), p.status;
      && (FireCase(p, p.evalSeq, now, c) == Evaluate <==>
        s.emitted != Running || s.lastActiveAt.None? || now - s.lastActiveAt.value >= Delay(c))
      && (FireCase(p, p.evalSeq, now, c) == Evaluate ==> q == p.(timer := None))
      && (FireCase(p, p.evalSeq, now, c) != Evaluate ==>
        s.lastActiveAt.Some? && q == p.(timer := q.timer, evalSeq := p.evalSeq + 1)
        && q.timer == Some(Timer(p.evalSeq + 1, s.lastActiveAt.value + Delay(c))))
  {
  }

  // ---------------------------------------------------------------------------------------------
  // Panes restored from a baseline.

  /** A new pane takes over all of a baseline. */
  lemma BaselineIsTaken(b: Baseline, now: int)
    ensures var s := WithBaseline(NewPane(), b, now).status;
      && s.emitted == s.candidate == b.runtimeStatus
      && s.prevHash == b.snapshotHash && s.lastActiveAt == b.lastActiveAt
      && (b.runtimeStatus != Unset ==>
        s.candidateSince == Some(if b.lastActiveAt.Some? then b.lastActiveAt.value else now))
  {
  }

  /** What a pane knows already, a baseline does not replace. */
  lemma KnownIsKept(p: Pane, b: Baseline, now: int)
    ensures var q := WithBaseline(p, b, now);
      && q == p.(status := q.status)
      && (p.status.lastActiveAt.Some? ==> q.status.lastActiveAt == p.status.lastActiveAt)
      && (p.status.prevHash != "" ==> q.status.prevHash == p.status.prevHash)
      && (p.status.emitted != Unset ==>
        && q.status.emitted == p.status.emitted && q.status.candidate == p.status.candidate
        && q.status.candidateSince == p.status.candidateSince)
  {
  }

  /**
    A pane restored with its last activity and its hash counts as quiet at its first sample, whatever it
    shows by then: its status and its last activity stay as they were.
   */
  lemma RestartIsNoOutput(b: Baseline, now: int, x: Sample, c: Config)
    requires b.lastActiveAt.Some? && b.snapshotHash != "" && x.hash != ""
    ensures var s := Emit(WithBaseline(NewPane(), b, now), x, c).status;
      && s.emitted == (if b.runtimeStatus == Unset then Ready else b.runtimeStatus) && s.candidate == Ready
      && s.lastActiveAt == b.lastActiveAt && s.prevHash == x.hash
  {
  }

  // ---------------------------------------------------------------------------------------------
  // Runs of samples.

  /** Sample `k` has another hash than the one before it; the first, than the hash the pane was restored with. */
  predicate ShowsOutput(p: Pane, xs: seq<Sample>, k: nat)
    requires k < |xs|
  {
    if k > 0 then xs[k].hash != xs[k - 1].hash
    else p.status.prevHash == "" || (p.status.lastActiveAt.None? && p.status.prevHash != xs[0].hash)
  }

  predicate NoRecentInput(x: Sample, c: Config) {
    x.lastInputAt.None? || x.now - x.lastInputAt.value >= c.inputIgnoreWindow
  }

  /** Samples `j..n` all show output that no recent input explains, and span at least the delay. */
  predicate OutputFor(p: Pane, xs: seq<Sample>, j: nat, n: nat, c: Config)
    requires n < |xs|
  {
    && j < n && xs[n].now - xs[j].now >= Delay(c)
    && forall k :: j <= k <= n ==> ShowsOutput(p, xs, k) && NoRecentInput(xs[k], c)
  }

  /** Samples `j..n` show no output, and span at least the delay. */
  predicate QuietFor(p: Pane, xs: seq<Sample>, j: nat, n: nat, c: Config)
    requires n < |xs|
  {
    && j < n && xs[n].now - xs[j].now >= Delay(c)
    && forall k :: j <= k <= n ==> !ShowsOutput(p, xs, k)
  }

  lemma SampledBefore(p: Pane, xs: seq<Sample>, n: nat, c: Config)
    requires Regular(xs) && n <= |xs| && !p.startupHashCaptured
    ensures After(p, xs, n, c).startupHashCaptured == (n > 0)
    ensures n > 0 ==> After(p, xs, n, c).status.prevHash == xs[n - 1].hash
  {
    hide Emit;
    if n > 0 {
      EmitCaptures(After(p, xs, n - 1, c), xs[n - 1], c);
    }
  }

  lemma EmitCaptures(p: Pane, x: Sample, c: Config)
    requires x.hash != ""
    ensures Emit(p, x, c).startupHashCaptured && Emit(p, x, c).status.prevHash == x.hash
  {
    hide Before;
  }

  /** What a sample observes, from the samples. */
  lemma ObservedIs(p: Pane, xs: seq<Sample>, k: nat, c: Config)
    requires Regular(xs) && k < |xs| && !p.startupHashCaptured
    ensures Observed(p, xs, k, c) == Running <==>
      ShowsOutput(p, xs, k) && (EmittedBefore(p, xs, k, c) == Running || NoRecentInput(xs[k], c))
    ensures Observed(p, xs, k, c) == Ready ==>
      !ShowsOutput(p, xs, k) || EmittedBefore(p, xs, k, c) == Ready || EmittedBefore(p, xs, k, c) == Unset
    ensures !ShowsOutput(p, xs, k) ==> Observed(p, xs, k, c) == Ready
  {
    SampledBefore(p, xs, k, c);
    hide After;
  }

  /** A status that is observed by all samples `j..n` and not emitted before sample `n` was not emitted before. */
  lemma NotEmittedSooner(p: Pane, xs: seq<Sample>, j: nat, k: nat, n: nat, s: Status, c: Config)
    requires Unsampled(p) && Regular(xs) && n < |xs| && j <= k <= n
    requires forall i :: j <= i <= n ==> Observed(p, xs, i, c) == s
    requires EmittedBefore(p, xs, n, c) != s && EmittedBefore(p, xs, n, c) != Unset
    ensures EmittedBefore(p, xs, k, c) != s && EmittedBefore(p, xs, k, c) != Unset
  {
    hide Emit, Observed, After, EmittedBefore;
    if k < n && (EmittedBefore(p, xs, k, c) == s || EmittedBefore(p, xs, k, c) == Unset) {
      StaysEmitted(p, xs, k, n - 1, s, c);
    }
  }

  /**
    A pane that is not running is shown as running exactly after consecutive samples, spanning the delay,
    that all show new output without recent input.
   */
  lemma BecomesRunningIff(p: Pane, xs: seq<Sample>, n: nat, c: Config)
    requires Unsampled(p) && Regular(xs) && n < |xs|
    requires EmittedBefore(p, xs, n, c) != Unset && EmittedBefore(p, xs, n, c) != Running
    ensures EmittedBefore(p, xs, n + 1, c) == Running <==> exists j :: OutputFor(p, xs, j, n, c)
  {
    hide Observed, EmittedBefore, ShowsOutput, NoRecentInput;
    EmittedChangesIffHeld(p, xs, n, Running, c);
    forall k | 0 <= k <= n
      ensures ShowsOutput(p, xs, k) && NoRecentInput(xs[k], c) ==> Observed(p, xs, k, c) == Running
    {
      ObservedIs(p, xs, k, c);
    }
    forall j: nat | OutputFor(p, xs, j, n, c) ensures HeldFor(p, xs, j, n, Running, c) {
    }
    forall j: nat | HeldFor(p, xs, j, n, Running, c) ensures OutputFor(p, xs, j, n, c) {
      forall k | j <= k <= n ensures ShowsOutput(p, xs, k) && NoRecentInput(xs[k], c) {
        NotEmittedSooner(p, xs, j, k, n, Running, c);
        ObservedIs(p, xs, k, c);
      }
    }
  }

  /** And one that is not ready is shown as ready exactly after such samples without output. */
  lemma BecomesReadyIff(p: Pane, xs: seq<Sample>, n: nat, c: Config)
    requires Unsampled(p) && Regular(xs) && n < |xs|
    requires EmittedBefore(p, xs, n, c) != Unset && EmittedBefore(p, xs, n, c) != Ready
    ensures EmittedBefore(p, xs, n + 1, c) == Ready <==> exists j :: QuietFor(p, xs, j, n, c)
  {
    hide Observed, EmittedBefore, ShowsOutput;
    EmittedChangesIffHeld(p, xs, n, Ready, c);
    forall k | 0 <= k <= n
      ensures !ShowsOutput(p, xs, k) ==> Observed(p, xs, k, c) == Ready
    {
      ObservedIs(p, xs, k, c);
    }
    forall j: nat | QuietFor(p, xs, j, n, c) ensures HeldFor(p, xs, j, n, Ready, c) {
    }
    forall j: nat | HeldFor(p, xs, j, n, Ready, c) ensures QuietFor(p, xs, j, n, c) {
      forall k | j <= k <= n ensures !ShowsOutput(p, xs, k) {
        NotEmittedSooner(p, xs, j, k, n, Ready, c);
        ObservedIs(p, xs, k, c);
      }
    }
  }

  /** The last activity a pane has after its first sample: its own, tmux's, or the sample's time. */
  function FirstActivity(p: Pane, x: Sample): int {
    if p.status.lastActiveAt.Some? then p.status.lastActiveAt.value
    else if p.status.prevHash == "" && x.paneLastActiveAt.Some? && x.paneLastActiveAt.value < x.now
    then x.paneLastActiveAt.value
    else x.now
  }

  lemma ActivityStep(p: Pane, x: Sample, c: Config)
    requires x.hash != ""
    ensures !p.startupHashCaptured ==> Emit(p, x, c).status.lastActiveAt == Some(FirstActivity(p, x))
    ensures p.startupHashCaptured && p.status.prevHash != "" && p.status.lastActiveAt.Some? ==>
      Emit(p, x, c).status.lastActiveAt == if x.hash != p.status.prevHash then Some(x.now) else p.status.lastActiveAt
  {
  }

  lemma {:induction false} HasActivity(p: Pane, xs: seq<Sample>, n: nat, c: Config)
    requires Regular(xs) && !p.startupHashCaptured && 0 < n <= |xs|
    ensures After(p, xs, n, c).status.lastActiveAt.Some?
  {
    hide Emit, FirstActivity;
    SampledBefore(p, xs, n - 1, c);
    ActivityStep(After(p, xs, n - 1, c), xs[n - 1], c);
    if n > 1 {
      HasActivity(p, xs, n - 1, c);
    }
  }

  /** From then on the last activity is the time of the last sample whose hash was new. */
  lemma {:induction false} ActivityIsLastChange(p: Pane, xs: seq<Sample>, k: nat, n: nat, c: Config)
    requires Regular(xs) && !p.startupHashCaptured && k < n <= |xs|
    requires k > 0 ==> xs[k].hash != xs[k - 1].hash
    requires forall i :: k < i < n ==> xs[i].hash == xs[i - 1].hash
    ensures After(p, xs, n, c).status.lastActiveAt == Some(if k > 0 then xs[k].now else FirstActivity(p, xs[0]))
  {
    hide Emit, FirstActivity;
    SampledBefore(p, xs, n - 1, c);
    ActivityStep(After(p, xs, n - 1, c), xs[n - 1], c);
    if k < n - 1 {
      ActivityIsLastChange(p, xs, k, n - 1, c);
    } else if n > 1 {
      HasActivity(p, xs, n - 1, c);
    }
  }

  /** The executor is armed from the first sample on that differs from the one at start-up. */
  lemma {:induction false} ArmedIff(p: Pane, xs: seq<Sample>, n: nat, c: Config)
    requires Unsampled(p) && Regular(xs) && n <= |xs|
    ensures After(p, xs, n, c).autoProcessArmed <==> exists i :: 0 < i < n && xs[i].hash != xs[0].hash
  {
    hide Advance, Before;
    if n > 0 {
      Bookkeeping(p, xs, n - 1, c);
      ArmedIff(p, xs, n - 1, c);
    }
  }

  /**
    A sample calls the auto-completion executor exactly when it makes the pane ready, some sample up to it
    differed from the one at start-up, and the call is not suppressed.
   */
  lemma CallsIff(p: Pane, xs: seq<Sample>, n: nat, c: Config)
    requires Unsampled(p) && Regular(xs) && n < |xs|
    ensures Calls(p, xs, n, c) <==>
      && EmittedBefore(p, xs, n, c) != Ready && EmittedBefore(p, xs, n + 1, c) == Ready
      && (exists i :: 0 < i <= n && xs[i].hash != xs[0].hash)
      && !xs[n].suppressed
  {
    hide Advance, Before;
    ArmedIff(p, xs, n + 1, c);
  }
}
