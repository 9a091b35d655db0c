/**
  The browser's recency list against the server's watch list, over every run of one connection.
  A pane's browser id and its tmux target name the same pane.  Selects travel in order; a pane that is
  gone never comes back, and a select can fail only for a pane that is gone.  The server may close any
  pane at any time: gone ones, and live ones, when a control client exits or a pane moves to another
  session.  At any time the browser can hear that a pane has ended, or show another task or pane without
  selecting it, as when bindings are refreshed or a task is removed.
 */
module BrowserRecency {
  import opened Wrappers
  import opened RecencyList
  import opened ConnActor
  import opened BrowserPanes

  /**
    History only: `handled`, every pane whose select the server has handled, least recent first;
    `closed`, the panes the server has closed and not been asked for again.
   */
  datatype System = System(browser: Browser, inTransit: seq<Select>, watch: seq<string>, gone: set<string>,
                           closed: set<string>, handled: seq<string>)

  datatype Event =
    | UserSelects(task: string, pane: string, connected: bool)
    | ServerHandles(ok: bool)
    | PaneDies(pane: string)
    | PaneClosed(pane: string)
    | HearsEnded(pane: string)
    | Shows(task: string, pane: string)

  function Start(): System {
    System(NewBrowser(), [], [], {}, {}, [])
  }

  predicate Enabled(s: System, e: Event) {
    match e
    case UserSelects(_, _, _) => true
    case ServerHandles(ok) => s.inTransit != [] && (s.inTransit[0].target in s.gone || ok)
    case PaneDies(_) => true
    case PaneClosed(_) => true
    case HearsEnded(_) => true
    case Shows(_, _) => true
  }

  function Next(s: System, e: Event): System
    requires Enabled(s, e)
  {
    match e
    case UserSelects(task, pane, connected) =>
      var (b, sent) := SelectTask(s.browser, task, pane, connected);
      s.(browser := b, inTransit := if sent.Some? then s.inTransit + [sent.value] else s.inTransit)
    case ServerHandles(ok) =>
      var pane := s.inTransit[0].target;
      s.(inTransit := s.inTransit[1..],
      watch := if ok then Watching(s.watch, pane, ACTIVE_PANE_WATCH_LIMIT) else s.watch,
      closed := if ok then s.closed - {pane} else s.closed,
      handled := Touched(s.handled, pane))
    case PaneDies(pane) => s.(gone := s.gone + {pane})
    case PaneClosed(pane) => s.(watch := Without(s.watch, pane), closed := s.closed + {pane})
    case HearsEnded(pane) => s.(browser := Ended(s.browser, pane))
    case Shows(task, pane) => s.(browser := s.browser.(selectedTask := task, selectedPane := pane))
  }

  /** The events can happen one after the other, from the start. */
  ghost predicate IsRun(es: seq<Event>)
    decreases |es|, 0
  {
    es == [] || (IsRun(es[..|es| - 1]) && Enabled(After(es[..|es| - 1]), es[|es| - 1]))
  }

  ghost function After(es: seq<Event>): System
    requires IsRun(es)
    decreases |es|, 1
  {
    if es == [] then Start() else Next(After(es[..|es| - 1]), es[|es| - 1])
  }

  /** The panes that are gone, or that the server has closed since it last handled a select of them. */
  function Off(s: System): set<string> {
    s.gone + s.closed
  }

  /** The recency order once the selects in transit have been handled too. */
  function Sent(handled: seq<string>, q: seq<Select>): seq<string> {
    if q == [] then handled else Touched(Sent(handled, q[..|q| - 1]), q[|q| - 1].target)
  }

  /** The flag a select of `pane` must carry when `order` are the panes selected before it. */
  predicate NeedsRecovery(order: seq<string>, pane: string) {
    pane in order && pane !in Last(order, ACTIVE_PANE_CACHE_LIMIT)
  }

  // The invariant, one clause per predicate.

  predicate BrowserTracksSent(s: System) {
    var sent := Sent(s.handled, s.inTransit);
    && NoDuplicates(sent)
    && s.browser.order == Last(sent, ACTIVE_PANE_CACHE_LIMIT)
    && s.browser.gaps == Elements(sent) - Elements(s.browser.order)
  }

  /** The `k`-th select in transit asks for recovery exactly when it must, given those before it. */
  predicate FlagIsExact(handled: seq<string>, q: seq<Select>, k: nat)
    requires k < |q|
  {
    q[k].gapRecover <==> NeedsRecovery(Sent(handled, q[..k]), q[k].target)
  }

  predicate FlagsAreExact(s: System) {
    forall k: nat :: k < |s.inTransit| ==> FlagIsExact(s.handled, s.inTransit, k)
  }

  predicate WatchFollowsHandled(s: System) {
    && NoDuplicates(s.handled) && NoDuplicates(s.watch) && |s.watch| <= ACTIVE_PANE_WATCH_LIMIT
    && (forall x :: x in s.watch ==> x in s.handled && (x in s.gone || Newer(s.watch, x) <= Newer(s.handled, x)))
    && (forall x :: x in s.handled && x !in Off(s) && |Newer(s.handled, x)| < ACTIVE_PANE_WATCH_LIMIT ==> x in s.watch)
  }

  ghost predicate Invariant(s: System) {
    BrowserTracksSent(s) && FlagsAreExact(s) && WatchFollowsHandled(s)
  }

  lemma {:induction false} SentKeeps(handled: seq<string>, q: seq<Select>, x: string)
    requires NoDuplicates(handled)
    ensures var sent := Sent(handled, q);
      && NoDuplicates(sent)
      && (x in handled ==> x in sent)
      && (x in handled && (forall k :: 0 <= k < |q| ==> q[k].target != x) ==> Newer(handled, x) <= Newer(sent, x))
  {
    if q != [] {
      var r := q[..|q| - 1];
      SentKeeps(handled, r, x);
      TouchedKeeps(Sent(handled, r), q[|q| - 1].target);
      if x in handled {
        NewerOfTouched(Sent(handled, r), x, q[|q| - 1].target);
      }
    }
  }

  lemma {:induction false} SentShift(handled: seq<string>, q: seq<Select>)
    requires q != []
    ensures Sent(Touched(handled, q[0].target), q[1..]) == Sent(handled, q)
  {
    if |q| > 1 {
      SentShift(handled, q[..|q| - 1]);
      assert q[..|q| - 1][1..] == q[1..][..|q| - 2];
    } else {
      assert q[..0] == [];
    }
  }

  /** A touch keeps the browser's list the recent part of everything sent, and its flags the rest. */
  lemma TouchTracks(b: Browser, sent: seq<string>, pane: string)
    requires NoDuplicates(sent) && b.order == Last(sent, ACTIVE_PANE_CACHE_LIMIT)
      && b.gaps == Elements(sent) - Elements(b.order)
    ensures var t, after := Touch(b, pane), Touched(sent, pane);
      && NoDuplicates(after)
      && t.order == Last(after, ACTIVE_PANE_CACHE_LIMIT)
      && t.gaps - {pane} == Elements(after) - Elements(t.order)
  {
    TouchedKeeps(sent, pane);
    TouchedLast(sent, ACTIVE_PANE_CACHE_LIMIT, pane);
    LastKeeps(sent, ACTIVE_PANE_CACHE_LIMIT);
    var t := Touched(b.order, pane);
    TouchedKeeps(b.order, pane);
    assert t[|t| - 1] == pane;
    hide Touched, Elements, NoDuplicates;
    assert pane in Elements(Touched(sent, pane));
    if |t| > ACTIVE_PANE_CACHE_LIMIT {
      assert |t| == ACTIVE_PANE_CACHE_LIMIT + 1;
      FirstOut(t);
      InElements(t[1..], |t| - 2);
    } else {
      InElements(t, |t| - 1);
    }
  }

  lemma InElements<T>(s: seq<T>, i: nat)
    requires i < |s|
    ensures s[i] in Elements(s)
  {
  }

  lemma FirstOut<T>(s: seq<T>)
    requires NoDuplicates(s) && s != []
    ensures Elements(s[1..]) == Elements(s) - {s[0]} && s[0] in Elements(s)
  {
  }

  lemma SelectKeepsTracking(s: System, task: string, pane: string, connected: bool)
    requires BrowserTracksSent(s)
    ensures BrowserTracksSent(Next(s, UserSelects(task, pane, connected)))
  {
    hide Touch, Touched, Elements, NoDuplicates;
    if Sends(s.browser, task, pane, connected) {
      var n := Next(s, UserSelects(task, pane, connected));
      assert n.inTransit[..|n.inTransit| - 1] == s.inTransit;
      assert Sent(n.handled, n.inTransit) == Touched(Sent(s.handled, s.inTransit), pane);
      TouchTracks(s.browser, Sent(s.handled, s.inTransit), pane);
    }
  }

  lemma SelectKeepsFlags(s: System, task: string, pane: string, connected: bool)
    requires BrowserTracksSent(s) && FlagsAreExact(s)
    ensures FlagsAreExact(Next(s, UserSelects(task, pane, connected)))
  {
    hide Sent, NeedsRecovery, Touch;
    if Sends(s.browser, task, pane, connected) {
      var n := Next(s, UserSelects(task, pane, connected));
      assert n.inTransit[..|s.inTransit|] == s.inTransit;
      forall k: nat | k < |n.inTransit| ensures FlagIsExact(n.handled, n.inTransit, k) {
        if k < |s.inTransit| {
          assert FlagIsExact(s.handled, s.inTransit, k);
          assert n.inTransit[..k] == s.inTransit[..k];
        } else {
          FlagIsRecovery(s.browser, Sent(s.handled, s.inTransit), pane);
        }
      }
    }
  }

  lemma FlagIsRecovery(b: Browser, sent: seq<string>, pane: string)
    requires NoDuplicates(sent) && b.order == Last(sent, ACTIVE_PANE_CACHE_LIMIT)
      && b.gaps == Elements(sent) - Elements(b.order)
    ensures pane in Touch(b, pane).gaps <==> NeedsRecovery(sent, pane)
  {
    var t := Touched(b.order, pane);
    TouchedKeeps(b.order, pane);
    assert t[|t| - 1] == pane;
  }

  lemma HandleKeepsWatch(s: System, e: Event)
    requires e.ServerHandles? && Enabled(s, e) && WatchFollowsHandled(s)
    ensures WatchFollowsHandled(Next(s, e))
  {
    var n, p := Next(s, e), s.inTransit[0].target;
    var t := Touched(s.watch, p);
    TouchedKeeps(s.handled, p);
    TouchedKeeps(s.watch, p);
    LastKeeps(t, ACTIVE_PANE_WATCH_LIMIT);
    forall x | x in n.watch
      ensures x in n.handled && (x in n.gone || Newer(n.watch, x) <= Newer(n.handled, x))
    {
      HandledOrder(s, e, x);
    }
    forall x | x in n.handled && x !in Off(n) && |Newer(n.handled, x)| < ACTIVE_PANE_WATCH_LIMIT
      ensures x in n.watch
    {
      RecentIsWatched(s, e, x);
    }
  }

  lemma HandledOrder(s: System, e: Event, x: string)
    requires e.ServerHandles? && Enabled(s, e) && WatchFollowsHandled(s) && x in Next(s, e).watch
    ensures var n := Next(s, e); x in n.handled && (x in n.gone || Newer(n.watch, x) <= Newer(n.handled, x))
  {
    var p := s.inTransit[0].target;
    TouchedKeeps(s.handled, p);
    assert x in s.watch ==> x in Elements(s.handled);
    if e.ok {
      var t := Touched(s.watch, p);
      TouchedKeeps(s.watch, p);
      assert x in Elements(t);
      if x in s.watch {
        NewerOfTouched(s.handled, x, p);
        NewerOfTouched(s.watch, x, p);
      } else {
        IndexIsUnique(t, |t| - 1);
      }
      NewerOfLast(t, ACTIVE_PANE_WATCH_LIMIT, x);
    } else if x !in s.gone {
      NewerOfTouched(s.handled, x, p);
    }
    assert x in Elements(Touched(s.handled, p));
  }

  lemma RecentIsWatched(s: System, e: Event, x: string)
    requires e.ServerHandles? && Enabled(s, e) && WatchFollowsHandled(s)
    requires var n := Next(s, e); x in n.handled && x !in Off(n) && |Newer(n.handled, x)| < ACTIVE_PANE_WATCH_LIMIT
    ensures x in Next(s, e).watch
  {
    hide Without, Elements, Newer, NoDuplicates;
    var n, p := Next(s, e), s.inTransit[0].target;
    var t := Touched(s.watch, p);
    if x == p {
      LastOfTouched(s.watch, p, ACTIVE_PANE_WATCH_LIMIT);
    } else {
      InTouched(s.handled, p, x);
      NewerOfTouched(s.handled, x, p);
      SubsetSize(Newer(s.handled, x), Newer(n.handled, x));
      NewerOfTouched(s.watch, x, p);
      SubsetSize(Newer(t, x), Newer(n.handled, x));
      TouchedKeeps(s.watch, p);
      NewerOfLast(t, ACTIVE_PANE_WATCH_LIMIT, x);
    }
  }

  lemma LastOfTouched(order: seq<string>, x: string, limit: nat)
    requires limit > 0
    ensures x in Last(Touched(order, x), limit)
  {
    hide Without;
    var l := Last(Touched(order, x), limit);
    assert l[|l| - 1] == x;
  }

  lemma InTouched(order: seq<string>, x: string, y: string)
    requires NoDuplicates(order) && y != x && y in Touched(order, x)
    ensures y in order
  {
    TouchedKeeps(order, x);
    assert y in Elements(Touched(order, x));
  }

  lemma SubsetSize<T>(a: set<T>, b: set<T>)
    requires a <= b
    ensures |a| <= |b|
  {
    assert b == a + (b - a);
  }

  lemma HandleKeepsBrowser(s: System, e: Event)
    requires e.ServerHandles? && Enabled(s, e) && BrowserTracksSent(s) && FlagsAreExact(s)
    ensures BrowserTracksSent(Next(s, e)) && FlagsAreExact(Next(s, e))
  {
    var n := Next(s, e);
    SentShift(s.handled, s.inTransit);
    forall k: nat | k < |n.inTransit| ensures FlagIsExact(n.handled, n.inTransit, k) {
      assert FlagIsExact(s.handled, s.inTransit, k + 1);
      SentShift(s.handled, s.inTransit[..k + 1]);
      assert s.inTransit[..k + 1][1..] == n.inTransit[..k];
    }
  }

  lemma CloseKeepsWatch(s: System, e: Event)
    requires e.PaneClosed? && Enabled(s, e) && WatchFollowsHandled(s)
    ensures WatchFollowsHandled(Next(s, e))
  {
    var n := Next(s, e);
    WithoutKeeps(s.watch, e.pane);
    forall x | x in n.watch
      ensures x in n.handled && (x in n.gone || Newer(n.watch, x) <= Newer(n.handled, x))
    {
      assert x in Elements(n.watch);
      NewerOfWithout(s.watch, x, e.pane);
    }
    forall x | x in n.handled && x !in Off(n) && |Newer(n.handled, x)| < ACTIVE_PANE_WATCH_LIMIT
      ensures x in n.watch
    {
      assert x in Elements(n.watch);
    }
  }

  /** Deaths, and changes of what is shown, touch nothing the invariant speaks of, except that more panes are gone. */
  lemma OtherStepsKeepInvariant(s: System, e: Event)
    requires Invariant(s) && (e.PaneDies? || e.HearsEnded? || e.Shows?)
    ensures Invariant(Next(s, e))
  {
    hide Sent, Last, Elements, NoDuplicates, Newer, FlagIsExact;
  }

  lemma SelectLeavesWatch(s: System, task: string, pane: string, connected: bool)
    requires WatchFollowsHandled(s)
    ensures WatchFollowsHandled(Next(s, UserSelects(task, pane, connected)))
  {
    hide NoDuplicates, Newer, SelectTask;
  }

  lemma CloseLeavesBrowser(s: System, pane: string)
    requires BrowserTracksSent(s) && FlagsAreExact(s)
    ensures BrowserTracksSent(Next(s, PaneClosed(pane))) && FlagsAreExact(Next(s, PaneClosed(pane)))
  {
    hide Sent, Last, Elements, NoDuplicates, FlagIsExact, Without;
  }

  lemma {:induction false} RunKeepsInvariant(es: seq<Event>)
    requires IsRun(es)
    ensures Invariant(After(es))
    decreases |es|
  {
    hide Next, BrowserTracksSent, FlagsAreExact, WatchFollowsHandled;
    if es == [] {
      StartIsInvariant();
    } else {
      RunKeepsInvariant(es[..|es| - 1]);
      var s, e := After(es[..|es| - 1]), es[|es| - 1];
      match e
      case UserSelects(task, pane, connected) =>
        SelectKeepsTracking(s, task, pane, connected);
        SelectKeepsFlags(s, task, pane, connected);
        SelectLeavesWatch(s, task, pane, connected);
      case ServerHandles(_) =>
        HandleKeepsWatch(s, e);
        HandleKeepsBrowser(s, e);
      case PaneClosed(pane) =>
        CloseKeepsWatch(s, e);
        CloseLeavesBrowser(s, pane);
      case PaneDies(_) => OtherStepsKeepInvariant(s, e);
      case HearsEnded(_) => OtherStepsKeepInvariant(s, e);
      case Shows(_, _) => OtherStepsKeepInvariant(s, e);
    }
  }

  lemma StartIsInvariant()
    ensures Invariant(Start())
  {
  }
}
