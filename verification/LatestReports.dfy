/** What counts of the reports a pane makes: the last one, field by field, up to the row it ends up as. */
module LatestReports {
  import opened RecentText
  import opened Strings
  import opened TaskReportQueue
  import opened TaskReports
  import opened Wrappers

  /** The `n`-th event is the last report that names the pane. */
  predicate IsLastReport(events: seq<Event>, n: nat, id: string) {
    && n < |events| && events[n].Report? && Trim(events[n].r.paneID) == id
    && forall k :: n < k < |events| && events[k].Report? ==> Trim(events[k].r.paneID) != id
  }

  /**
    A report changes nothing exactly when it names no pane, or repeats the pane's latest report in all that
    is shown, white space around texts aside; any other is recorded, queued and signalled.
   */
  lemma ReportCountsIff(hash: Hash, w: World, r: PaneReport)
    ensures var n, id, latest := Next(hash, w, Report(r)), Trim(r.paneID), w.reports.latest;
      && (n == w <==>
        || id == ""
        || (id in latest
          && Trim(latest[id].paneTarget) == Trim(r.paneTarget)
          && Trim(latest[id].currentCommand) == Trim(r.currentCommand)
          && Trim(latest[id].runtimeStatus) == Trim(r.runtimeStatus)
          && latest[id].snapshot == r.snapshot
          && Trim(latest[id].snapshotHash) == Trim(r.snapshotHash)
          && latest[id].cursorX == r.cursorX
          && latest[id].cursorY == r.cursorY
          && latest[id].hasCursor == r.hasCursor))
      && (n != w ==>
        n.reports == Reports(latest[id := r.(paneID := id)], w.reports.dirty + {id},
          w.reports.queue + [r.(paneID := id)])
        && n.signalling == w.signalling + 1 && n.loop == w.loop && n.table == w.table && n.token == w.token)
  {
    hide Trim;
  }

  /** After a report that names it, a pane's latest report shows what the report shows. */
  lemma ReportIsLatest(hash: Hash, w: World, r: PaneReport)
    requires Trim(r.paneID) != ""
    ensures var id, latest := Trim(r.paneID), Next(hash, w, Report(r)).reports.latest;
      && id in latest && latest[id].snapshot == r.snapshot
      && Trim(latest[id].paneTarget) == Trim(r.paneTarget)
      && Trim(latest[id].currentCommand) == Trim(r.currentCommand)
      && Trim(latest[id].runtimeStatus) == Trim(r.runtimeStatus)
      && Trim(latest[id].snapshotHash) == Trim(r.snapshotHash)
      && latest[id].cursorX == r.cursorX && latest[id].cursorY == r.cursorY && latest[id].hasCursor == r.hasCursor
  {
    hide Trim;
  }

  /** Any other step leaves the pane's latest report alone. */
  lemma OthersLeaveLatest(hash: Hash, w: World, e: Event, id: string)
    requires e.Report? ==> Trim(e.r.paneID) != id
    ensures LatestOf(Next(hash, w, e).reports.latest, id) == LatestOf(w.reports.latest, id)
  {
    hide Trim, SamePaneContent, Replay;
  }

  function LatestOf(latest: map<string, PaneReport>, id: string): Option<PaneReport> {
    if id in latest then Some(latest[id]) else None
  }

  /** In every run, a pane's latest report shows what the last report that names the pane shows. */
  lemma {:induction false} LatestIsLastReport(hash: Hash, table: Table, events: seq<Event>, n: nat)
    requires n < |events| && events[n].Report? && Trim(events[n].r.paneID) != ""
    requires IsLastReport(events, n, Trim(events[n].r.paneID))
    ensures var id, r, latest := Trim(events[n].r.paneID), events[n].r, Run(hash, Start(table), events).reports.latest;
      && id in latest && latest[id].snapshot == r.snapshot
      && Trim(latest[id].paneTarget) == Trim(r.paneTarget)
      && Trim(latest[id].currentCommand) == Trim(r.currentCommand)
      && Trim(latest[id].runtimeStatus) == Trim(r.runtimeStatus)
      && Trim(latest[id].snapshotHash) == Trim(r.snapshotHash)
      && latest[id].cursorX == r.cursorX && latest[id].cursorY == r.cursorY && latest[id].hasCursor == r.hasCursor
  {
    hide Next, Trim;
    var init := events[..|events| - 1];
    if n == |init| {
      ReportIsLatest(hash, Run(hash, Start(table), init), events[n].r);
    } else {
      LatestIsLastReport(hash, table, init, n);
      OthersLeaveLatest(hash, Run(hash, Start(table), init), events[|init|], Trim(events[n].r.paneID));
    }
  }

  /** And a pane that no report names has none. */
  lemma {:induction false} UnnamedHasNone(hash: Hash, table: Table, events: seq<Event>, id: string)
    requires forall k :: 0 <= k < |events| && events[k].Report? ==> Trim(events[k].r.paneID) != id
    ensures id !in Run(hash, Start(table), events).reports.latest
  {
    hide Next, Trim;
    if events != [] {
      var init := events[..|events| - 1];
      UnnamedHasNone(hash, table, init, id);
      OthersLeaveLatest(hash, Run(hash, Start(table), init), events[|init|], id);
    }
  }

  /** The latest report of a pane is one that was made, under the pane's trimmed name. */
  lemma {:induction false} LatestWasReported(hash: Hash, table: Table, events: seq<Event>, id: string)
    requires id in Run(hash, Start(table), events).reports.latest
    ensures exists k ::
      && 0 <= k < |events| && events[k].Report? && Trim(events[k].r.paneID) == id
      && Run(hash, Start(table), events).reports.latest[id] == events[k].r.(paneID := id)
  {
    hide Next, Trim;
    if events != [] {
      var init, e := events[..|events| - 1], events[|events| - 1];
      var w := Run(hash, Start(table), init);
      if e.Report? && Trim(e.r.paneID) == id {
        ReportCountsIff(hash, w, e.r);
      } else {
        OthersLeaveLatest(hash, w, e, id);
      }
      if LatestOf(w.reports.latest, id) == LatestOf(Next(hash, w, e).reports.latest, id) {
        LatestWasReported(hash, table, init, id);
      }
    }
  }

  /** The row a report is stored as holds its values, the snapshot cut to its last 2000 lines and hashed again. */
  lemma ImageShows(hash: Hash, r: PaneReport)
    ensures var row := Image(hash, r);
      && row.paneID == r.paneID && row.paneTarget == r.paneTarget && row.updatedAt == r.updatedAt
      && row.currentCommand == r.currentCommand && row.runtimeStatus == r.runtimeStatus
      && row.snapshot == Recent(r.snapshot, 2000) && row.snapshotHash == hash(row.snapshot)
      && row.cursorX == r.cursorX && row.cursorY == r.cursorY && row.hasCursor == r.hasCursor
  {
    hide Recent;
  }

  /**
    Once everything is written, the row of a pane shows what the last report that names the pane showed:
    its texts but for white space around them, the last 2000 lines of its snapshot, and its cursor.
   */
  lemma {:induction false} LastReportIsShown(hash: Hash, table: Table, events: seq<Event>, store: Event, next: Event,
      n: nat)
    requires NeverFails(events + [store, next]) && NameThemselves(events)
    requires var w := Run(hash, Start(table), events);
      AreStores(hash, w, store, next) && StaySteady(hash, table, events + Wrapup(w, store, next))
    requires n < |events| && events[n].Report? && Trim(events[n].r.paneID) != ""
    requires IsLastReport(events, n, Trim(events[n].r.paneID))
    ensures var w, id, r := Run(hash, Start(table), events), Trim(events[n].r.paneID), events[n].r;
      var rows := Run(hash, w, Wrapup(w, store, next)).table;
      && id in rows && rows[id].paneID == id
      && Trim(rows[id].paneTarget) == Trim(r.paneTarget)
      && Trim(rows[id].currentCommand) == Trim(r.currentCommand)
      && Trim(rows[id].runtimeStatus) == Trim(r.runtimeStatus)
      && rows[id].snapshot == Recent(r.snapshot, 2000) && rows[id].snapshotHash == hash(rows[id].snapshot)
      && rows[id].cursorX == r.cursorX && rows[id].cursorY == r.cursorY && rows[id].hasCursor == r.hasCursor
  {
    hide Next, Run, Trim, Image, Recent, IsLastReport, AreStores, StaySteady, NeverFails, NameThemselves;
    var w, id := Run(hash, Start(table), events), Trim(events[n].r.paneID);
    EverythingIsWritten(hash, table, events, store, next);
    LatestIsLastReport(hash, table, events, n);
    LatestWasReported(hash, table, events, id);
    ImageShows(hash, w.reports.latest[id]);
  }
}
