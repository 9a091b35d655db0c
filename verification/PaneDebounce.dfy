/**
  The debounce over whole runs of samples: when the emitted status changes, and how far apart
  auto-completion calls are.
 */
module PaneDebounce {
  import opened Wrappers
  import opened SessionStatus
  import opened PaneActor

  /** The pane after the first `n` samples of a run. */
  function After(p: Pane, xs: seq<Sample>, n: nat, c: Config): Pane
    requires n <= |xs|
  {
    if n == 0 then p else Emit(After(p, xs, n - 1, c), xs[n - 1], c)
  }

  /** The status emitted just before sample `n`. */
  function EmittedBefore(p: Pane, xs: seq<Sample>, n: nat, c: Config): Status
    requires n <= |xs|
  {
    After(p, xs, n, c).status.emitted
  }

  /** What sample `n` of the run observes, input mask applied. */
  function Observed(p: Pane, xs: seq<Sample>, n: nat, c: Config): Status
    requires n < |xs|
  {
    Observe(Before(After(p, xs, n, c), xs[n]), xs[n].hash, xs[n].now, xs[n].lastInputAt, c.inputIgnoreWindow)
  }

  /** Sample `n` of the run calls the auto-completion executor. */
  predicate Calls(p: Pane, xs: seq<Sample>, n: nat, c: Config)
    requires n < |xs|
  {
    AutoCompletes(After(p, xs, n, c), xs[n], c)
  }

  /** A pane no sample has reached yet: new, or restored from a baseline. */
  predicate Unsampled(p: Pane) {
    && p.status.candidate == p.status.emitted
    && (p.status.emitted != Unset ==> p.status.candidateSince.Some?)
    && !p.startupHashCaptured && !p.autoProcessArmed
  }

  /** Hashes are never empty and the clock never runs backwards. */
  predicate Regular(xs: seq<Sample>) {
    && (forall i :: 0 <= i < |xs| ==> xs[i].hash != "")
    && (forall i, k :: 0 <= i <= k < |xs| ==> xs[i].now <= xs[k].now)
  }

  /** All samples `j..n` observe `s`, and they span at least the delay. */
  predicate HeldFor(p: Pane, xs: seq<Sample>, j: nat, n: nat, s: Status, c: Config)
    requires n < |xs|
  {
    && j < n
    && xs[n].now - xs[j].now >= Delay(c)
    && forall k :: j <= k <= n ==> Observed(p, xs, k, c) == s
  }

  lemma BaselineIsUnsampled(b: Baseline, now: int)
    ensures Unsampled(NewPane()) && Unsampled(WithBaseline(NewPane(), b, now))
  {
  }

  /** How one sample moves the emitted status, the candidate and its time stamp. */
  lemma Step(p: Pane, xs: seq<Sample>, n: nat, c: Config)
    requires n < |xs| && xs[n].hash != ""
    ensures
      var s, t, seen := After(p, xs, n, c).status, After(p, xs, n + 1, c).status, Observed(p, xs, n, c);
      if s.emitted == Unset || seen == s.emitted then
        t.emitted == t.candidate == seen && t.candidateSince == Some(xs[n].now)
      else if s.candidate != seen then
        t.emitted == s.emitted && t.candidate == seen && t.candidateSince == Some(xs[n].now)
      else if Held(s, xs[n].now, Delay(c)) then
        t.emitted == t.candidate == seen && t.candidateSince == Some(xs[n].now)
      else
        t.emitted == s.emitted && t.candidate == s.candidate && t.candidateSince == s.candidateSince
  {
  }

  lemma ObservedIsSet(p: Pane, xs: seq<Sample>, n: nat, c: Config)
    requires n < |xs| && xs[n].hash != ""
    ensures Observed(p, xs, n, c) != Unset
  {
  }

  /** A pending candidate was first observed at some sample and has been observed ever since. */
  lemma {:induction false} CandidateHistory(p: Pane, xs: seq<Sample>, n: nat, c: Config) returns (j: nat)
    requires Unsampled(p) && Regular(xs) && n <= |xs|
    requires EmittedBefore(p, xs, n, c) != Unset
    ensures After(p, xs, n, c).status.candidateSince.Some?
    ensures After(p, xs, n, c).status.candidate != EmittedBefore(p, xs, n, c) ==>
      && j < n
      && After(p, xs, n, c).status.candidateSince == Some(xs[j].now)
      && forall k :: j <= k < n ==> Observed(p, xs, k, c) == After(p, xs, n, c).status.candidate
  {
    hide Emit, Observed, Before;
    j := 0;
    if n > 0 {
      Step(p, xs, n - 1, c);
      if EmittedBefore(p, xs, n - 1, c) != Unset {
        j := CandidateHistory(p, xs, n - 1, c);
        if After(p, xs, n - 1, c).status.candidate != Observed(p, xs, n - 1, c) {
          j := n - 1;
        }
      }
    }
  }

  /**
    While `s` is observed without break from sample `j` on, `s` is emitted or is the candidate since
    `j` at the latest.
   */
  lemma {:induction false} CandidatePersists(p: Pane, xs: seq<Sample>, j: nat, k: nat, s: Status, c: Config)
    requires Unsampled(p) && Regular(xs) && j <= k < |xs|
    requires EmittedBefore(p, xs, j, c) != Unset && s != Unset
    requires forall i :: j <= i <= k ==> Observed(p, xs, i, c) == s
    ensures var t := After(p, xs, k + 1, c).status;
      t.emitted == s || (t.emitted != Unset && t.candidate == s && t.candidateSince.Some?
        && t.candidateSince.value <= xs[j].now)
  {
    hide Emit, Observed, Before;
    Step(p, xs, k, c);
    if j < k {
      CandidatePersists(p, xs, j, k - 1, s, c);
    } else {
      var i := CandidateHistory(p, xs, j, c);
    }
  }

  /** From an unset status the first observation is emitted at once, and stays while it is observed. */
  lemma {:induction false} StaysEmitted(p: Pane, xs: seq<Sample>, j: nat, n: nat, s: Status, c: Config)
    requires Unsampled(p) && Regular(xs) && j <= n < |xs|
    requires EmittedBefore(p, xs, j, c) == Unset || EmittedBefore(p, xs, j, c) == s
    requires forall i :: j <= i <= n ==> Observed(p, xs, i, c) == s
    ensures EmittedBefore(p, xs, n + 1, c) == s
  {
    hide Emit, Observed, Before;
    Step(p, xs, n, c);
    if j < n {
      StaysEmitted(p, xs, j, n - 1, s, c);
    }
  }

  lemma HeldThenEmitted(p: Pane, xs: seq<Sample>, j: nat, n: nat, s: Status, c: Config)
    requires Unsampled(p) && Regular(xs) && n < |xs| && HeldFor(p, xs, j, n, s, c)
    ensures EmittedBefore(p, xs, n + 1, c) == s
  {
    hide Emit, Observed, Before;
    Step(p, xs, n, c);
    ObservedIsSet(p, xs, n, c);
    if EmittedBefore(p, xs, j, c) == Unset {
      StaysEmitted(p, xs, j, n, s, c);
    } else {
      CandidatePersists(p, xs, j, n - 1, s, c);
    }
  }

  /**
    The emitted status changes from one set status to `s` at sample `n` exactly when `s` has been
    observed by a run of consecutive samples ending at `n` that spans at least the delay.
   */
  lemma EmittedChangesIffHeld(p: Pane, xs: seq<Sample>, n: nat, s: Status, c: Config)
    requires Unsampled(p) && Regular(xs) && n < |xs|
    requires EmittedBefore(p, xs, n, c) != Unset && EmittedBefore(p, xs, n, c) != s
    ensures EmittedBefore(p, xs, n + 1, c) == s <==> exists j :: HeldFor(p, xs, j, n, s, c)
  {
    hide Emit, Observed, Before;
    if EmittedBefore(p, xs, n + 1, c) == s {
      Step(p, xs, n, c);
      var j := CandidateHistory(p, xs, n, c);
      assert HeldFor(p, xs, j, n, s, c);
    }
    forall j: nat | HeldFor(p, xs, j, n, s, c)
      ensures EmittedBefore(p, xs, n + 1, c) == s
    {
      HeldThenEmitted(p, xs, j, n, s, c);
    }
  }

  /** A change of the emitted status, with the sample its candidate dates from. */
  lemma {:induction false} ChangeSpan(p: Pane, xs: seq<Sample>, n: nat, s: Status, c: Config) returns (j: nat)
    requires Unsampled(p) && Regular(xs) && n < |xs|
    requires EmittedBefore(p, xs, n, c) != Unset && EmittedBefore(p, xs, n, c) != s
      && EmittedBefore(p, xs, n + 1, c) == s
    ensures HeldFor(p, xs, j, n, s, c) && Observed(p, xs, n, c) == s
  {
    hide Emit, Observed, Before;
    EmittedChangesIffHeld(p, xs, n, s, c);
    j :| HeldFor(p, xs, j, n, s, c);
  }

  /** Every sample leaves a set status, and the start-up bookkeeping is that of sample 0. */
  lemma {:induction false} Bookkeeping(p: Pane, xs: seq<Sample>, n: nat, c: Config)
    requires Unsampled(p) && Regular(xs) && n <= |xs|
    ensures After(p, xs, n, c).startupHashCaptured == (n > 0)
    ensures n > 0 ==> EmittedBefore(p, xs, n, c) != Unset && After(p, xs, n, c).startupHash == xs[0].hash
    ensures After(p, xs, n, c).autoProcessArmed ==> exists i :: 0 < i < n && xs[i].hash != xs[0].hash
  {
    hide Advance, Observed, Before;
    if n > 0 {
      Step(p, xs, n - 1, c);
      ObservedIsSet(p, xs, n - 1, c);
      Bookkeeping(p, xs, n - 1, c);
    }
  }

  /** No call before a sample whose hash differs from the start-up hash; a call means the pane just became ready. */
  lemma NoCallBeforeChange(p: Pane, xs: seq<Sample>, n: nat, c: Config)
    requires Unsampled(p) && Regular(xs) && n < |xs| && Calls(p, xs, n, c)
    ensures exists i :: 0 < i <= n && xs[i].hash != xs[0].hash
    ensures EmittedBefore(p, xs, n, c) != Unset && EmittedBefore(p, xs, n, c) != Ready
      && EmittedBefore(p, xs, n + 1, c) == Ready
  {
    hide Advance, Observed, Before;
    Bookkeeping(p, xs, n, c);
    Bookkeeping(p, xs, n + 1, c);
  }

  /** Between a ready pane and a later non-ready one there is a sample at which it stopped being ready. */
  lemma {:induction false} LeavesReady(p: Pane, xs: seq<Sample>, i: nat, k: nat, c: Config) returns (m: nat)
    requires i <= k <= |xs|
    requires EmittedBefore(p, xs, i, c) == Ready && EmittedBefore(p, xs, k, c) != Ready
    ensures i <= m < k && EmittedBefore(p, xs, m, c) == Ready && EmittedBefore(p, xs, m + 1, c) != Ready
  {
    hide Emit;
    if EmittedBefore(p, xs, k - 1, c) == Ready {
      m := k - 1;
    } else {
      m := LeavesReady(p, xs, i, k - 1, c);
    }
  }

  /** Any two auto-completion calls of a pane are at least twice the delay apart. */
  lemma CallsAreSpaced(p: Pane, xs: seq<Sample>, c: Config)
    requires Unsampled(p) && Regular(xs)
    ensures forall i, k :: 0 <= i < k < |xs| && Calls(p, xs, i, c) && Calls(p, xs, k, c)
              ==> xs[k].now - xs[i].now >= 2 * Delay(c)
  {
    hide Calls, After, EmittedBefore, Observed, Unsampled, Emit;
    forall i: nat, k: nat | i < k < |xs| && Calls(p, xs, i, c) && Calls(p, xs, k, c)
      ensures xs[k].now - xs[i].now >= 2 * Delay(c)
    {
      NoCallBeforeChange(p, xs, i, c);
      NoCallBeforeChange(p, xs, k, c);
      var m := LeavesReady(p, xs, i + 1, k, c);
      Bookkeeping(p, xs, m + 1, c);
      var j0 := ChangeSpan(p, xs, i, Ready, c);
      var j1 := ChangeSpan(p, xs, m, EmittedBefore(p, xs, m + 1, c), c);
      var j2 := ChangeSpan(p, xs, k, Ready, c);
    }
  }
}
