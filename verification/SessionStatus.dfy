/**
  The running/ready debounce of one pane.  A snapshot hash is sampled; a change is observed as
  `Running`, no change as `Ready`; a new observation has to hold for `delay` before it is emitted.
  Times are integers (any unit); an absent time is `None`, and an absent hash is the empty string.
 */
module SessionStatus {
  import opened Wrappers

  /** `Unset` is the empty string that a fresh pane starts with. */
  datatype Status = Unset | Running | Ready | Unknown

  type Hash = string

  datatype PaneStatus = PaneStatus(
    prevHash: Hash,
    emitted: Status,
    candidate: Status,
    candidateSince: Option<int>,
    lastActiveAt: Option<int>)

  function Normalize(s: Status): Status {
    if s == Unset then Unknown else s
  }

  function StatusFromHashes(prev: Hash, curr: Hash): Status {
    if prev == "" || curr == "" then Unknown
    else if prev != curr then Running
    else Ready
  }

  /** What a sample with a non-empty hash shows, after output echoing recent input is masked. */
  function Observe(s: PaneStatus, hash: Hash, now: int, lastInputAt: Option<int>, window: int): Status {
    var raw := if s.prevHash == "" then Running else StatusFromHashes(s.prevHash, hash);
    if raw == Running && s.emitted != Running && lastInputAt.Some? && now - lastInputAt.value < window then
      if s.emitted == Unset then Ready else s.emitted
    else
      raw
  }

  /** The candidate has been held for at least `delay`. */
  predicate Held(s: PaneStatus, now: int, delay: int) {
    delay <= 0 || s.candidateSince.None? || now - s.candidateSince.value >= delay
  }

  function Advance(s: PaneStatus, hash: Hash, now: int, lastInputAt: Option<int>, delay: int, window: int): PaneStatus {
    if hash == "" then
      PaneStatus("", Unknown, Unknown, Some(now), if s.lastActiveAt.None? then Some(now) else s.lastActiveAt)
    else
      var active :=
        if s.lastActiveAt.None? || (s.prevHash != "" && s.prevHash != hash) then Some(now) else s.lastActiveAt;
      var seen := Observe(s, hash, now, lastInputAt, window);
      if s.emitted == Unset || seen == s.emitted then PaneStatus(hash, seen, seen, Some(now), active)
      else if s.candidate != seen then PaneStatus(hash, s.emitted, seen, Some(now), active)
      else if Held(s, now, delay) then PaneStatus(hash, seen, seen, Some(now), active)
      else s.(prevHash := hash, lastActiveAt := active)
  }

  /** The update, field by field, on a copy of the state. */
  method AdvancePaneStatus(
      s: PaneStatus, currHash: Hash, now: int, lastInputAt: Option<int>, transitionDelay: int, inputIgnoreWindow: int)
    returns (state: PaneStatus)
    ensures state == Advance(s, currHash, now, lastInputAt, transitionDelay, inputIgnoreWindow)
  {
    state := s;
    if currHash == "" {
      state := state.(prevHash := "", emitted := Unknown, candidate := Unknown, candidateSince := Some(now));
      if state.lastActiveAt.None? {
        state := state.(lastActiveAt := Some(now));
      }
      return;
    }

    if state.prevHash == "" {
      if state.lastActiveAt.None? {
        state := state.(lastActiveAt := Some(now));
      }
    } else if state.prevHash != currHash {
      state := state.(lastActiveAt := Some(now));
    }
    if state.lastActiveAt.None? {
      state := state.(lastActiveAt := Some(now));
    }

    var observed := StatusFromHashes(state.prevHash, currHash);
    if state.prevHash == "" {
      observed := Running;
    }
    if observed == Running && state.emitted != Running && lastInputAt.Some? {
      if now - lastInputAt.value < inputIgnoreWindow {
        observed := state.emitted;
        if observed == Unset {
          observed := Ready;
        }
      }
    }

    if state.emitted == Unset {
      state := state.(emitted := observed, candidate := observed, candidateSince := Some(now), prevHash := currHash);
      return;
    }
    if observed == state.emitted {
      state := state.(candidate := observed, candidateSince := Some(now), prevHash := currHash);
      return;
    }
    if state.candidate != observed {
      state := state.(candidate := observed, candidateSince := Some(now), prevHash := currHash);
      return;
    }
    if Held(state, now, transitionDelay) {
      state := state.(emitted := observed, candidate := observed, candidateSince := Some(now));
    }
    state := state.(prevHash := currHash);
  }
}
