/**
  What the simulation of `BrowserRecency` means: how the two lists are related once all selects are
  handled, and which panes are recovered after a gap.
 */
module GapRecovery {
  import opened Wrappers
  import opened RecencyList
  import opened ConnActor
  import opened BrowserPanes
  import opened BrowserRecency

  function Live(s: seq<string>, off: set<string>): seq<string> {
    if s == [] then [] else (if s[0] in off then [] else [s[0]]) + Live(s[1..], off)
  }

  lemma {:induction false} LiveKeeps(s: seq<string>, off: set<string>)
    requires NoDuplicates(s)
    ensures NoDuplicates(Live(s, off)) && Elements(Live(s, off)) == Elements(s) - off
  {
    if s != [] {
      LiveKeeps(s[1..], off);
      assert s[0] !in Elements(s[1..]);
      ElementsConcat(if s[0] in off then [] else [s[0]], Live(s[1..], off));
      ElementsConcat([s[0]], s[1..]);
      assert s == [s[0]] + s[1..];
    }
  }

  lemma {:induction false} NewerOfLive(s: seq<string>, off: set<string>, x: string)
    requires NoDuplicates(s) && x in s && x !in off
    ensures x in Live(s, off) && Newer(Live(s, off), x) == Newer(s, x) - off
  {
    hide Elements, Newer, Live;
    LiveFirst(s, off);
    var l, r := Live(s, off), Live(s[1..], off);
    if s[0] == x {
      LiveKeeps(s[1..], off);
      NewerOfFirst(s);
      NewerOfFirst(l);
      assert l[1..] == r;
    } else {
      NewerOfLive(s[1..], off, x);
      NewerInRest(s, x);
      if s[0] !in off {
        assert l[1..] == r;
        NewerInRest(l, x);
      } else {
        assert l == r;
      }
    }
  }

  lemma LiveFirst(s: seq<string>, off: set<string>)
    requires s != []
    ensures Live(s, off) == (if s[0] in off then [] else [s[0]]) + Live(s[1..], off)
  {
  }

  /**
    Once every select in transit has been handled, the browser's list, without the panes that are gone
    or were closed, is a suffix of the server's watch list without them.
   */
  lemma BrowserListIsSuffix(es: seq<Event>)
    requires IsRun(es) && After(es).inTransit == []
    ensures var s := After(es);
      var b, w := Live(s.browser.order, Off(s)), Live(s.watch, Off(s));
      |b| <= |w| && w[|w| - |b|..] == b
  {
    hide After, IsRun, Live, Newer, IndexOf, Last;
    RunKeepsInvariant(es);
    var s := After(es);
    var off := Off(s);
    LastKeeps(s.handled, ACTIVE_PANE_CACHE_LIMIT);
    LiveKeeps(s.browser.order, off);
    LiveKeeps(s.watch, off);
    var b, w := Live(s.browser.order, off), Live(s.watch, off);
    forall x | x in b
      ensures x in w && Newer(w, x) == Newer(b, x)
    {
      assert x in Elements(b);
      NewerOfLast(s.handled, ACTIVE_PANE_CACHE_LIMIT, x);
      SameNewer(s, x);
      NewerOfLive(s.browser.order, off, x);
      NewerOfLive(s.watch, off, x);
    }
    SuffixFromNewer(w, b);
  }

  lemma SameNewer(s: System, x: string)
    requires WatchFollowsHandled(s) && x in s.handled && x !in Off(s) && |Newer(s.handled, x)| < ACTIVE_PANE_WATCH_LIMIT
    ensures x in s.watch && Newer(s.watch, x) - Off(s) == Newer(s.handled, x) - Off(s)
  {
    hide IndexOf, NoDuplicates;
    forall y | y in Newer(s.handled, x) && y !in Off(s)
      ensures y in Newer(s.watch, x)
    {
      NewerIsOrder(s.handled, x, y);
      CountNewer(s.handled, x);
      CountNewer(s.handled, y);
      if y !in Newer(s.watch, x) {
        NewerIsOrder(s.watch, x, y);
        NewerIsOrder(s.watch, y, x);
        NewerIsOrder(s.handled, y, x);
        assert false;
      }
    }
  }

  /**
    In every reachable state, the first select in transit asks for recovery of a live pane the server
    watched before and no longer watches exactly when the pane is not among the five selected last;
    only a pane the server closed while it was alive can be among them.
   */
  lemma SilentGapIff(es: seq<Event>)
    requires IsRun(es) && After(es).inTransit != []
    ensures var s := After(es);
      var first := s.inTransit[0];
      first.target in s.handled && first.target !in s.gone && first.target !in s.watch ==>
        && (first.gapRecover <==> first.target !in Last(s.handled, 5))
        && (first.target !in s.closed ==> first.gapRecover)
  {
    hide After, IsRun, Newer, IndexOf, Last;
    RunKeepsInvariant(es);
    var s := After(es);
    assert FlagIsExact(s.handled, s.inTransit, 0) && s.inTransit[..0] == [];
    if s.inTransit[0].target in s.handled {
      NewerOfLast(s.handled, ACTIVE_PANE_CACHE_LIMIT, s.inTransit[0].target);
    }
  }

  /** A pane the server never watched is not asked to be recovered. */
  lemma NoNeedlessRecovery(es: seq<Event>)
    requires IsRun(es) && After(es).inTransit != []
    ensures After(es).inTransit[0].gapRecover ==> After(es).inTransit[0].target in After(es).handled
  {
    RunKeepsInvariant(es);
    assert FlagIsExact(After(es).handled, After(es).inTransit, 0) && After(es).inTransit[..0] == [];
  }

  /**
    It does happen: a live pane is selected and closed, the browser hears that it has ended, and selecting
    its task again sends a select that does not ask for recovery.
   */
  lemma ClosedPaneIsSilent(pane: string, task: string)
    requires pane != ""
    ensures exists es :: IsRun(es) && var s := After(es);
      && s.inTransit == [Select(pane, false)]
      && pane in s.handled && pane !in s.gone && pane !in s.watch && pane in s.closed
  {
    hide After, IsRun, Next;
    RunOfNone();
    var select := UserSelects(task, pane, true);
    var e1 := [select];
    var e2 := e1 + [ServerHandles(true)];
    var e3 := e2 + [PaneClosed(pane)];
    var e4 := e3 + [HearsEnded(pane)];
    assert [] + e1 == e1;
    SelectedAndWatched(pane, task);
    RunOfOneMore([], select);
    RunOfOneMore(e1, ServerHandles(true));
    RunOfOneMore(e2, PaneClosed(pane));
    RunOfOneMore(e3, HearsEnded(pane));
    RunOfOneMore(e4, select);
    ClosedAndSelected(pane, task);
    assert IsRun(e4 + [select]);
  }

  function Watched(pane: string, task: string): System {
    System(Browser([pane], {}, task, pane, Some(pane)), [], [pane], {}, {}, [pane])
  }

  lemma SelectedAndWatched(pane: string, task: string)
    requires pane != ""
    ensures var selected := Next(Start(), UserSelects(task, pane, true));
      Enabled(selected, ServerHandles(true)) && Next(selected, ServerHandles(true)) == Watched(pane, task)
  {
    assert Touched([], pane) == [pane];
    var selected := Next(Start(), UserSelects(task, pane, true));
    assert selected == System(Browser([pane], {}, task, pane, Some(pane)), [Select(pane, false)], [], {}, {}, []);
    assert [Select(pane, false)][1..] == [];
  }

  lemma ClosedAndSelected(pane: string, task: string)
    requires pane != ""
    ensures var silent := Next(Next(Watched(pane, task), PaneClosed(pane)), HearsEnded(pane));
      var s := Next(silent, UserSelects(task, pane, true));
      && s.inTransit == [Select(pane, false)]
      && pane in s.handled && pane !in s.gone && pane !in s.watch && pane in s.closed
  {
    WithoutFirst([pane], pane);
    WithoutNothing(pane);
    assert [pane][1..] == [] && Touched([pane], pane) == [pane];
    var silent := Next(Next(Watched(pane, task), PaneClosed(pane)), HearsEnded(pane));
    assert silent == System(Browser([pane], {}, task, "", Some(pane)), [], [], {}, {pane}, [pane]);
  }

  lemma RunOfNone()
    ensures IsRun([]) && After([]) == Start()
  {
  }

  lemma RunOfOneMore(es: seq<Event>, e: Event)
    requires IsRun(es) && Enabled(After(es), e)
    ensures IsRun(es + [e]) && After(es + [e]) == Next(After(es), e)
  {
    assert (es + [e])[..|es|] == es;
  }

  /**
    In every reachable state, a live pane that was selected before, that the server does not watch and
    has not closed, has the browser's gap flag, or a select in transit, the first of which asks for
    recovery.
   */
  lemma UnwatchedIsFlagged(es: seq<Event>, x: string)
    requires IsRun(es)
    requires var s := After(es); x in s.handled && x !in Off(s) && x !in s.watch
    ensures var s := After(es);
      if exists k :: 0 <= k < |s.inTransit| && s.inTransit[k].target == x then
        exists k :: 0 <= k < |s.inTransit| && s.inTransit[k].target == x && s.inTransit[k].gapRecover
                    && forall i :: 0 <= i < k ==> s.inTransit[i].target != x
      else x in s.browser.gaps
  {
    RunKeepsInvariant(es);
    var s := After(es);
    if k: nat :| k < |s.inTransit| && s.inTransit[k].target == x {
      var f := FirstSelect(s.inTransit, x, k);
      StillNeedsRecovery(s, x, f);
      assert FlagIsExact(s.handled, s.inTransit, f);
    } else {
      StillNeedsRecovery(s, x, |s.inTransit|);
      assert s.inTransit[..|s.inTransit|] == s.inTransit;
    }
  }

  /** In every reachable state the next select of a pane asks for recovery exactly when the pane has the gap flag. */
  lemma FlagIsSent(es: seq<Event>, x: string, task: string)
    requires IsRun(es) && Sends(After(es).browser, task, x, true)
    ensures var b := After(es).browser; SelectTask(b, task, x, true).1 == Some(Select(x, x in b.gaps))
  {
    RunKeepsInvariant(es);
    var s := After(es);
    FlagIsRecovery(s.browser, Sent(s.handled, s.inTransit), x);
  }

  lemma {:induction false} FirstSelect(q: seq<Select>, x: string, k: nat) returns (f: nat)
    requires k < |q| && q[k].target == x
    ensures f <= k && q[f].target == x && forall i :: 0 <= i < f ==> q[i].target != x
  {
    f := k;
    if i: nat :| i < k && q[i].target == x {
      f := FirstSelect(q, x, i);
    }
  }

  /** An unwatched live pane is outside the five most recent, and stays there until it is selected again. */
  lemma StillNeedsRecovery(s: System, x: string, k: nat)
    requires Invariant(s) && k <= |s.inTransit| && (forall i :: 0 <= i < k ==> s.inTransit[i].target != x)
    requires x in s.handled && x !in Off(s) && x !in s.watch
    ensures NeedsRecovery(Sent(s.handled, s.inTransit[..k]), x)
  {
    var sent := Sent(s.handled, s.inTransit[..k]);
    SentKeeps(s.handled, s.inTransit[..k], x);
    SubsetSize(Newer(s.handled, x), Newer(sent, x));
    NewerOfLast(sent, ACTIVE_PANE_CACHE_LIMIT, x);
  }
}
