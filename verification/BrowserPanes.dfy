/** The browser's copy of the recency list, its gap flags, and the select requests it sends. */
module BrowserPanes {
  import opened Wrappers
  import opened RecencyList
  import opened Strings

  const ACTIVE_PANE_CACHE_LIMIT := 5

  /** A `tmux.select_pane` request. */
  datatype Select = Select(target: string, gapRecover: bool)

  datatype Browser = Browser(order: seq<string>, gaps: set<string>, selectedTask: string, selectedPane: string,
                             lastSent: Option<string>)

  function NewBrowser(): Browser {
    Browser([], {}, "", "", None)
  }

  /** Touching a pane: most recent, and the one pushed out gets the gap flag. */
  function Touch(b: Browser, pane: string): Browser {
    var t := Touched(b.order, pane);
    if |t| <= ACTIVE_PANE_CACHE_LIMIT then b.(order := t) else b.(order := t[1..], gaps := b.gaps + {t[0]})
  }

  /** Nothing is sent without a pane or a connection, nor for a repeated select in this connection. */
  predicate Sends(b: Browser, task: string, pane: string, connected: bool) {
    pane != "" && connected && !(task == b.selectedTask && pane == b.selectedPane && b.lastSent == Some(pane))
  }

  function SelectTask(b: Browser, task: string, pane: string, connected: bool): (Browser, Option<Select>) {
    if !Sends(b, task, pane, connected) then (b.(selectedTask := task, selectedPane := pane), None)
    else
      var t := Touch(b, pane);
      (t.(gaps := t.gaps - {pane}, selectedTask := task, selectedPane := pane, lastSent := Some(pane)),
       Some(Select(pane, pane in t.gaps)))
  }

  /** A pane that has ended is no longer the selected one, so that selecting its task again is no repeat. */
  function Ended(b: Browser, pane: string): Browser {
    if pane != "" && b.selectedPane == pane then b.(selectedPane := "") else b
  }

  /**
    A select request goes out exactly for a pane and over a connection, unless it repeats the task, the pane
    and the last request; a task that is selected without one changes nothing but the selection.
   */
  lemma SelectIsSentIff(b: Browser, task: string, pane: string, connected: bool)
    ensures var (n, sent) := SelectTask(b, task, pane, connected);
      && (sent.Some? <==>
        && pane != "" && connected
        && (task != b.selectedTask || pane != b.selectedPane || b.lastSent != Some(pane)))
      && n.selectedTask == task && n.selectedPane == pane
      && (sent.None? ==> n == b.(selectedTask := task, selectedPane := pane))
      && (sent.Some? ==>
        && sent.value.target == pane && n.lastSent == Some(pane) && pane !in n.gaps
        && n.order != [] && n.order[|n.order| - 1] == pane)
  {
    hide Without;
  }

  /** What was just sent is not sent again, until the pane is heard to have ended. */
  lemma RepeatIsNotSent(b: Browser, task: string, pane: string, connected: bool)
    requires SelectTask(b, task, pane, true).1.Some?
    ensures var n := SelectTask(b, task, pane, true).0;
      && SelectTask(n, task, pane, connected) == (n, None)
      && SelectTask(Ended(n, pane), task, pane, true).1.Some?
      && (forall other :: other != pane ==> Ended(n, other) == n)
  {
    hide Without;
    var n := SelectTask(b, task, pane, true).0;
    assert n.(selectedTask := task, selectedPane := pane) == n;
  }

  class BrowserPanes {
    var activePaneOrder: seq<string>
    var paneGap: set<string>
    var selectedTaskId: string
    var selectedPane: string
    var lastSelectSent: Option<string>

    ghost predicate Valid()
      reads this
    {
      NoDuplicates(activePaneOrder) && |activePaneOrder| <= ACTIVE_PANE_CACHE_LIMIT && "" !in activePaneOrder
    }

    ghost function View(): Browser
      reads this
    {
      Browser(activePaneOrder, paneGap, selectedTaskId, selectedPane, lastSelectSent)
    }

    constructor ()
      ensures Valid() && View() == NewBrowser()
    {
      activePaneOrder, paneGap, selectedTaskId, selectedPane, lastSelectSent := [], {}, "", "", None;
    }

    method TouchActivePane(paneUuid: string) returns (evicted: string)
      requires Valid()
      modifies this`activePaneOrder, this`paneGap
      ensures Valid()
      ensures JsTrim(paneUuid) == "" ==> View() == old(View()) && evicted == ""
      ensures JsTrim(paneUuid) != "" ==> View() == Touch(old(View()), JsTrim(paneUuid))
      ensures JsTrim(paneUuid) != "" ==>
        var t := Touched(old(activePaneOrder), JsTrim(paneUuid));
        evicted == if |t| > ACTIVE_PANE_CACHE_LIMIT then t[0] else ""
    {
      hide Without;
      var normalized := JsTrim(paneUuid);
      if normalized == "" {
        return "";
      }
      ghost var before := activePaneOrder;
      TouchedKeeps(before, normalized);
      if normalized in activePaneOrder {
        var existingIdx := IndexOf(activePaneOrder, normalized);
        WithoutAt(activePaneOrder, existingIdx);
        activePaneOrder := activePaneOrder[..existingIdx] + activePaneOrder[existingIdx + 1..];
      } else {
        WithoutAbsent(activePaneOrder, normalized);
      }
      activePaneOrder := activePaneOrder + [normalized];
      assert forall x :: x in activePaneOrder ==> x in Elements(activePaneOrder);
      if |activePaneOrder| <= ACTIVE_PANE_CACHE_LIMIT {
        return "";
      }
      evicted := activePaneOrder[0];
      activePaneOrder := activePaneOrder[1..];
      if evicted != "" {
        paneGap := paneGap + {evicted};
      }
    }

    /** The part of selecting a task that decides on and sends the select request. */
    method SelectPaneOfTask(taskId: string, pane: string, wsConnected: bool) returns (sent: Option<Select>)
      requires Valid() && JsTrim(pane) == pane
      modifies this
      ensures Valid() && (View(), sent) == SelectTask(old(View()), taskId, pane, wsConnected)
    {
      var prevTaskId, prevPane := selectedTaskId, selectedPane;
      selectedTaskId, selectedPane := taskId, pane;
      if pane == "" || !wsConnected {
        return None;
      }
      if taskId == prevTaskId && pane == prevPane && lastSelectSent == Some(pane) {
        return None;
      }
      var evicted := TouchActivePane(pane);
      ghost var touched := View();
      var gapRecover := false;
      if pane in paneGap {
        gapRecover := true;
        paneGap := paneGap - {pane};
      }
      lastSelectSent := Some(pane);
      assert paneGap == touched.gaps - {pane};
      return Some(Select(pane, gapRecover));
    }

    /** What hearing that a pane has ended changes of the selection. */
    method MarkPaneEnded(pane: string)
      requires Valid()
      modifies `selectedPane
      ensures Valid() && View() == Ended(old(View()), pane)
    {
      if pane == "" {
        return;
      }
      if selectedPane == pane {
        selectedPane := "";
      }
    }
  }
}
