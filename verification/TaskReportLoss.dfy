/**
  What the report queue loses: reports whose store fails, rows of a pane that several repositories write,
  and the runs in which that happens.
 */
module TaskReportLoss {
  import opened Strings
  import opened TaskFlush
  import opened TaskReportQueue
  import opened TaskReports
  import opened Wrappers

  // ---------------------------------------------------------------------------------------------
  // Failures.

  /** The row of a pane in `table` after everything pending, by the last report that decides it. */
  lemma {:induction false} PendingAt(hash: Hash, w: World, id: string)
    ensures At(Pending(hash, w), id)
      == Or(LastRow(Rows(hash, w.reports.queue), id), Or(LastRow(Rows(hash, InFlight(w)), id), At(w.table, id)))
  {
    hide Replay, LastRow, Rows;
    ReplayAt(w.table, Rows(hash, InFlight(w)), id);
    ReplayAt(Replay(w.table, Rows(hash, InFlight(w))), Rows(hash, w.reports.queue), id);
  }

  lemma NoLastRow(hash: Hash, id: string)
    ensures LastRow(Rows(hash, []), id) == None
  {
  }

  lemma {:induction false} HasLastRow(hash: Hash, reports: seq<PaneReport>, id: string)
    ensures LastRow(Rows(hash, reports), id).Some? <==> id in PaneIDs(reports)
  {
    hide LastRow, Rows, Image;
    if reports == [] {
      NoLastRow(hash, id);
    } else {
      var n := |reports| - 1;
      HasLastRow(hash, reports[..n], id);
      assert reports == reports[..n] + [reports[n]];
      RowsOneMore(hash, reports[..n], reports[n]);
      ImageNamesPane(hash, reports[n]);
      LastRowOneMore(Rows(hash, reports[..n]), Image(hash, reports[n]), id);
      assert PaneIDs(reports) == PaneIDs(reports[..n]) + {reports[n].paneID};
    }
  }

  /** A report is harmless to lose when a newer one is queued, or when the table already holds its pane's latest row. */
  ghost predicate Superseded(hash: Hash, w: World, r: PaneReport)
    requires r.paneID in w.reports.latest
  {
    r.paneID in w.reports.dirty || At(w.table, r.paneID) == Some(Image(hash, w.reports.latest[r.paneID]))
  }

  lemma {:induction false} RoutedHas(site: Site, jobs: seq<Job>, repos: set<string>, r: PaneReport)
    requires site.projects != []
    ensures r in Routed(site, jobs, repos) <==> exists j :: j in jobs && j.report == r && Route(site, j) in repos
  {
    hide Route;
    if jobs != [] {
      var init, last := jobs[..|jobs| - 1], jobs[|jobs| - 1];
      RoutedHas(site, init, repos, r);
      assert forall j :: j in jobs <==> j in init || j == last;
    }
  }

  lemma JobsHave(reports: seq<PaneReport>, loads: seq<seq<Option<Bindings>>>)
    ensures forall j :: j in Jobs(reports, loads) ==> j.report in reports
    ensures forall r :: r in reports ==> exists j :: j in Jobs(reports, loads) && j.report == r
  {
    forall r | r in reports ensures exists j :: j in Jobs(reports, loads) && j.report == r {
      var i :| 0 <= i < |reports| && reports[i] == r;
      assert Jobs(reports, loads)[i] in Jobs(reports, loads);
    }
  }

  /** Of a pane with reports in flight, either all are written or none is. */
  lemma WrittenAt(hash: Hash, site: Site, jobs: seq<Job>, j: Job)
    requires OneRoutePerPane(site, jobs) && j in jobs
    ensures LastRow(Rows(hash, Written(site, jobs)), j.report.paneID)
      == if j.report in Written(site, jobs) then LastRow(Rows(hash, ReportsOf(jobs)), j.report.paneID) else None
  {
    hide Route, Routed, Rows, LastRow, Writing;
    if site.projects != [] {
      RoutedHas(site, jobs, Writing(site), j.report);
      LastRouted(hash, site, jobs, Writing(site), j.report.paneID, Route(site, j));
    } else {
      HasLastRow(hash, [], j.report.paneID);
    }
  }

  lemma {:induction false} NothingWrittenAt(hash: Hash, site: Site, jobs: seq<Job>, id: string)
    requires id !in PaneIDs(ReportsOf(jobs))
    ensures LastRow(Rows(hash, Written(site, jobs)), id) == None == LastRow(Rows(hash, ReportsOf(jobs)), id)
  {
    hide Route, Routed, Rows, LastRow, Writing;
    HasLastRow(hash, ReportsOf(jobs), id);
    HasLastRow(hash, Written(site, jobs), id);
    if site.projects != [] {
      forall r | r in Written(site, jobs) ensures r in ReportsOf(jobs) {
        RoutedHas(site, jobs, Writing(site), r);
        var j :| j in jobs && j.report == r;
        var i :| 0 <= i < |jobs| && jobs[i] == j;
        assert ReportsOf(jobs)[i] == r;
      }
    }
  }

  /** After storing, a pane's pending row is the expected one exactly when its lost reports are superseded. */
  lemma StoredAt(hash: Hash, table: Table, w: World, e: Event, id: string)
    requires Consistent(w) && Agrees(hash, table, w) && w.loop.Storing? && IsStore(w, e)
    requires OneRoutePerPane(e.site, Jobs(w.loop.reports, e.loads))
    ensures At(Pending(hash, Next(hash, w, e)), id) == At(Expected(hash, table, w), id)
      <==> forall r :: r in w.loop.reports && r.paneID == id && r !in Written(e.site, Jobs(w.loop.reports, e.loads)) ==>
        Superseded(hash, w, r)
  {
    hide Replay, LastRow, Rows, Image, Written, Flushed, OneRoutePerPane, IsWriteOrder, Jobs;
    var n, site := Next(hash, w, e), e.site;
    var reports, jobs := w.loop.reports, Jobs(w.loop.reports, e.loads);
    ReportsOfJobs(reports, e.loads);
    JobsHave(reports, e.loads);
    OrderDoesNotMatter(hash, site, jobs, e.order, w.table);
    PendingAt(hash, w, id);
    PendingAt(hash, n, id);
    HasLastRow(hash, w.reports.queue, id);
    HasLastRow(hash, [], id);
    ReplayAt(w.table, Rows(hash, Written(site, jobs)), id);
    if id in PaneIDs(reports) {
      HasLastRow(hash, reports, id);
      var some :| some in jobs && some.report.paneID == id;
      WrittenAt(hash, site, jobs, some);
      forall r | r in reports && r.paneID == id
        ensures r in Written(site, jobs) <==> some.report in Written(site, jobs)
      {
        var j :| j in jobs && j.report == r;
        WrittenAt(hash, site, jobs, j);
      }
    } else {
      NothingWrittenAt(hash, site, jobs, id);
    }
  }

  /**
    With one route per pane, storing keeps the agreement exactly when every report that is not written is
    superseded.
   */
  lemma StoreKeepsAgreementIff(hash: Hash, table: Table, w: World, e: Event)
    requires Consistent(w) && Agrees(hash, table, w) && w.loop.Storing? && IsStore(w, e)
    requires OneRoutePerPane(e.site, Jobs(w.loop.reports, e.loads))
    ensures Agrees(hash, table, Next(hash, w, e))
      <==> forall r :: r in w.loop.reports && r !in Written(e.site, Jobs(w.loop.reports, e.loads)) ==>
        Superseded(hash, w, r)
  {
    hide Replay, Rows, Image, Written, Flushed, OneRoutePerPane, Pending, IsWriteOrder, Jobs;
    var n, written := Next(hash, w, e), Written(e.site, Jobs(w.loop.reports, e.loads));
    var expected := Expected(hash, table, w);
    assert Expected(hash, table, n) == expected;
    if Agrees(hash, table, n) {
      forall r | r in w.loop.reports && r !in written ensures Superseded(hash, w, r) {
        StoredAt(hash, table, w, e, r.paneID);
      }
    } else if forall r :: r in w.loop.reports && r !in written ==> Superseded(hash, w, r) {
      forall id ensures At(Pending(hash, n), id) == At(expected, id) {
        StoredAt(hash, table, w, e, id);
      }
      SameAtAll(Pending(hash, n), expected);
    }
  }

  // ---------------------------------------------------------------------------------------------
  // Several routes.

  /** Some repository that writes leaves `row` for the pane. */
  ghost predicate CanLeave(hash: Hash, site: Site, jobs: seq<Job>, id: string, row: PaneRow) {
    site.projects != [] && exists repo :: repo in Writing(site) && RowIn(hash, site, jobs, repo, id) == Some(row)
  }

  /**
    A newer report of the pane is queued; or every repository that writes the pane leaves its latest row,
    and where none does the table holds it already.
   */
  ghost predicate Settles(hash: Hash, w: World, site: Site, jobs: seq<Job>, id: string)
    requires id in w.reports.latest
  {
    var latest := Image(hash, w.reports.latest[id]);
    || id in w.reports.dirty
    || ((forall row :: CanLeave(hash, site, jobs, id, row) ==> row == latest)
        && ((exists row :: CanLeave(hash, site, jobs, id, row)) || At(w.table, id) == Some(latest)))
  }

  /** What an order leaves for a pane is one of these rows, or none if there are none. */
  lemma OrderLeaves(hash: Hash, site: Site, jobs: seq<Job>, order: seq<string>, id: string)
    requires IsWriteOrder(site, jobs, order)
    ensures var row := LastRow(Rows(hash, Flushed(site, jobs, order)), id);
      if row.Some? then CanLeave(hash, site, jobs, id, row.value) else forall r :: !CanLeave(hash, site, jobs, id, r)
  {
    hide LastRow, Rows, InOrder, RowIn, Writing, Route;
    if site.projects == [] {
      HasLastRow(hash, [], id);
    } else {
      SomeRepoDecides(hash, site, jobs, order, id);
      forall repo | repo in Writing(site) && RowIn(hash, site, jobs, repo, id).Some? ensures repo in order {
        RowHasReport(hash, site, jobs, repo, id);
      }
    }
  }

  lemma RowHasReport(hash: Hash, site: Site, jobs: seq<Job>, repo: string, id: string)
    requires site.projects != [] && RowIn(hash, site, jobs, repo, id).Some?
    ensures exists j :: j in jobs && Route(site, j) == repo && j.report.paneID == id
  {
    hide LastRow, Rows, Route;
    HasLastRow(hash, Routed(site, jobs, {repo}), id);
    var r :| r in Routed(site, jobs, {repo}) && r.paneID == id;
    RoutedHas(site, jobs, {repo}, r);
  }

  /** And each of them is left by some order. */
  lemma SomeOrderLeaves(hash: Hash, site: Site, jobs: seq<Job>, id: string, row: PaneRow) returns (order: seq<string>)
    requires CanLeave(hash, site, jobs, id, row)
    ensures IsWriteOrder(site, jobs, order) && LastRow(Rows(hash, Flushed(site, jobs, order)), id) == Some(row)
  {
    hide LastRow, Rows, InOrder, RowIn, Writing, Route;
    var repo :| repo in Writing(site) && RowIn(hash, site, jobs, repo, id) == Some(row);
    var init := CanBeLast(site, jobs, repo);
    LastRepoWins(hash, site, jobs, init, repo, id);
    order := init + [repo];
  }

  lemma StoredRow(hash: Hash, table: Table, w: World, e: Event, id: string)
    requires Agrees(hash, table, w) && w.loop.Storing? && IsStore(w, e)
    ensures var jobs := Jobs(w.loop.reports, e.loads);
      At(Pending(hash, Next(hash, w, e)), id)
      == Or(LastRow(Rows(hash, w.reports.queue), id),
            Or(LastRow(Rows(hash, Flushed(e.site, jobs, e.order)), id), At(w.table, id)))
    ensures At(Expected(hash, table, w), id)
      == Or(LastRow(Rows(hash, w.reports.queue), id),
            Or(LastRow(Rows(hash, w.loop.reports), id), At(w.table, id)))
  {
    hide Replay, LastRow, Rows, Flushed, IsWriteOrder, Jobs, Expected;
    PendingAt(hash, w, id);
    PendingAt(hash, Next(hash, w, e), id);
    HasLastRow(hash, [], id);
    ReplayAt(w.table, Rows(hash, Flushed(e.site, Jobs(w.loop.reports, e.loads), e.order)), id);
  }

  /** One order: a pane that settles ends at its expected row. */
  lemma SettledRow(hash: Hash, table: Table, w: World, e: Event, id: string)
    requires Consistent(w) && Agrees(hash, table, w) && w.loop.Storing? && IsStore(w, e)
    requires id in PaneIDs(w.loop.reports) ==> Settles(hash, w, e.site, Jobs(w.loop.reports, e.loads), id)
    ensures At(Pending(hash, Next(hash, w, e)), id) == At(Expected(hash, table, w), id)
  {
    hide Replay, LastRow, Rows, Image, Flushed, IsWriteOrder, Jobs, CanLeave, Agrees, Pending;
    var jobs := Jobs(w.loop.reports, e.loads);
    StoredRow(hash, table, w, e, id);
    HasLastRow(hash, w.reports.queue, id);
    HasLastRow(hash, w.loop.reports, id);
    OrderLeaves(hash, e.site, jobs, e.order, id);
    if id !in PaneIDs(w.loop.reports) {
      NothingLeft(hash, e.site, w.loop.reports, e.loads, id);
    }
  }

  lemma NothingLeft(hash: Hash, site: Site, reports: seq<PaneReport>, loads: seq<seq<Option<Bindings>>>, id: string)
    requires id !in PaneIDs(reports)
    ensures forall row :: !CanLeave(hash, site, Jobs(reports, loads), id, row)
  {
    hide RowIn, Route, Jobs;
    JobsHave(reports, loads);
    if row :| CanLeave(hash, site, Jobs(reports, loads), id, row) {
      var repo :| repo in Writing(site) && RowIn(hash, site, Jobs(reports, loads), repo, id) == Some(row);
      RowHasReport(hash, site, Jobs(reports, loads), repo, id);
    }
  }

  /** A pane that does not settle misses its expected row in some order. */
  lemma UnsettledRow(hash: Hash, table: Table, w: World, site: Site, loads: seq<seq<Option<Bindings>>>, id: string)
    returns (order: seq<string>)
    requires Consistent(w) && Agrees(hash, table, w) && w.loop.Storing? && id in PaneIDs(w.loop.reports)
    requires !Settles(hash, w, site, Jobs(w.loop.reports, loads), id)
    ensures IsWriteOrder(site, Jobs(w.loop.reports, loads), order)
    ensures At(Pending(hash, Next(hash, w, Store(site, loads, order))), id) != At(Expected(hash, table, w), id)
  {
    hide Replay, LastRow, Rows, Image, Flushed, IsWriteOrder, Jobs, CanLeave, Agrees, Pending, Next;
    var jobs := Jobs(w.loop.reports, loads);
    if row :| CanLeave(hash, site, jobs, id, row) && row != Image(hash, w.reports.latest[id]) {
      order := SomeOrderLeaves(hash, site, jobs, id, row);
    } else {
      order := HasWriteOrder(site, jobs);
      OrderLeaves(hash, site, jobs, order, id);
    }
    StoredRow(hash, table, w, Store(site, loads, order), id);
    HasLastRow(hash, w.reports.queue, id);
  }

  /**
    For any routes: storing keeps the agreement, whatever the order of repositories, exactly when every
    pane with reports in flight settles.
   */
  lemma EveryOrderAgreesIff(hash: Hash, table: Table, w: World, site: Site, loads: seq<seq<Option<Bindings>>>)
    requires Consistent(w) && Agrees(hash, table, w) && w.loop.Storing?
    ensures var jobs := Jobs(w.loop.reports, loads);
      (forall order :: IsWriteOrder(site, jobs, order) ==>
        Agrees(hash, table, Next(hash, w, Store(site, loads, order))))
      <==> forall id :: id in PaneIDs(w.loop.reports) ==> Settles(hash, w, site, jobs, id)
  {
    hide Replay, Rows, Image, Flushed, Pending, IsWriteOrder, Jobs, CanLeave, Settles, LastRow;
    var jobs := Jobs(w.loop.reports, loads);
    var expected := Expected(hash, table, w);
    if forall id :: id in PaneIDs(w.loop.reports) ==> Settles(hash, w, site, jobs, id) {
      forall order | IsWriteOrder(site, jobs, order)
        ensures Agrees(hash, table, Next(hash, w, Store(site, loads, order)))
      {
        var n := Next(hash, w, Store(site, loads, order));
        assert Expected(hash, table, n) == expected;
        forall id ensures At(Pending(hash, n), id) == At(expected, id) {
          SettledRow(hash, table, w, Store(site, loads, order), id);
        }
        SameAtAll(Pending(hash, n), expected);
      }
    } else {
      var id :| id in PaneIDs(w.loop.reports) && !Settles(hash, w, site, jobs, id);
      var order := UnsettledRow(hash, table, w, site, loads, id);
      assert Expected(hash, table, Next(hash, w, Store(site, loads, order))) == expected;
    }
  }

  /**
    The agreement can be lost: with two reports of a pane in flight for two repositories, writing the newer
    one's first leaves the older row.
   */
  lemma OlderRowCanStay(hash: Hash, table: Table, w: World, site: Site, loads: seq<seq<Option<Bindings>>>,
      older: PaneReport, newer: PaneReport)
    requires Agrees(hash, table, w) && w.loop == Storing([older, newer]) && w.reports.queue == []
    requires var a, b := Jobs([older, newer], loads)[0], Jobs([older, newer], loads)[1];
      && site.projects != [] && older.paneID == newer.paneID && Route(site, a) != Route(site, b)
      && Route(site, a) in Writing(site) && Route(site, b) in Writing(site)
    requires Image(hash, older) != Image(hash, newer)
    ensures var a, b := Jobs([older, newer], loads)[0], Jobs([older, newer], loads)[1];
      var n := Next(hash, w, Store(site, loads, [Route(site, b), Route(site, a)]));
      At(n.table, older.paneID) == Some(Image(hash, older)) && !Agrees(hash, table, n)
  {
    hide Replay, Route, Image, Writing, IsWriteOrder, Flushed, LastRow, Rows, Pending;
    var jobs := Jobs([older, newer], loads);
    assert jobs == [jobs[0], jobs[1]] && jobs[0].report == older && jobs[1].report == newer;
    var order, id := [Route(site, jobs[1]), Route(site, jobs[0])], newer.paneID;
    var e := Store(site, loads, order);
    OrderCanMatter(hash, site, jobs[0], jobs[1]);
    StoredRow(hash, table, w, e, id);
    ReplayAt(w.table, Rows(hash, Flushed(site, jobs, order)), id);
    HasLastRow(hash, [], id);
    assert PaneIDs([]) == {} && [older, newer] == [older] + [newer];
    RowsOneMore(hash, [older], newer);
    ImageNamesPane(hash, newer);
    LastRowOneMore(Rows(hash, [older]), Image(hash, newer), id);
    assert Expected(hash, table, Next(hash, w, e)) == Expected(hash, table, w);
  }

  /** Two projects with a store each. */
  function TwoProjects(a: string, b: string): Site {
    Site([Project("a", a), Project("b", b)], {a, b}, {})
  }

  /** The second project binds the pane; before the second report is matched, the first one binds it too. */
  function SavedBetween(id: string): seq<seq<Option<Bindings>>> {
    var bound := Some(map["task" := Binding("", id, "")]);
    [[Some(map[]), bound], [bound, bound]]
  }

  lemma RoutesDiffer(a: string, b: string, older: PaneReport, newer: PaneReport)
    requires older.paneID == newer.paneID == Trim(older.paneID) != "" && a != b
    requires older.paneTarget == newer.paneTarget == older.paneID
    ensures var site, jobs := TwoProjects(a, b), Jobs([older, newer], SavedBetween(older.paneID));
      Route(site, jobs[0]) == b && Route(site, jobs[1]) == a
  {
    hide Trim;
    var site, jobs := TwoProjects(a, b), Jobs([older, newer], SavedBetween(older.paneID));
    assert IsBound(older, "task", jobs[0].loads[1].value);
    assert IsBound(newer, "task", jobs[1].loads[0].value);
    assert FirstFrom(site, jobs[0], 1) == Some(1);
    assert FirstFrom(site, jobs[0], 0) == Some(1);
    assert FirstFrom(site, jobs[1], 0) == Some(0);
  }

  /**
    Panes that report themselves as their target do not rule that out: a binding saved between two loads of
    one flush makes the older row stay, with nothing queued and no store failing.
   */
  lemma BindingSavedMidFlush(hash: Hash, a: string, b: string, older: PaneReport, newer: PaneReport)
    requires older.paneID == newer.paneID == Trim(older.paneID) != "" && a != b
    requires older.paneTarget == newer.paneTarget == older.paneID
    requires !SamePaneContent(older, newer) && Image(hash, older) != Image(hash, newer)
    ensures var store := Store(TwoProjects(a, b), SavedBetween(older.paneID), [a, b]);
      var events := [Report(older), Report(newer), Signal, Wake, Swap, store];
      var w := Run(hash, Start(map[]), events);
      && NeverFails(events) && NameThemselves(events)
      && w.reports.queue == [] && w.loop == Waiting
      && w.reports.latest == map[older.paneID := newer]
      && At(w.table, older.paneID) == Some(Image(hash, older)) && !Agrees(hash, map[], w)
  {
    hide Trim, SamePaneContent, Run, Image, Route, IsWriteOrder, Replay, Rows, Agrees, Flushed;
    var store := Store(TwoProjects(a, b), SavedBetween(older.paneID), [a, b]);
    var before := [Report(older), Report(newer), Signal, Wake, Swap];
    TwoInFlight(hash, older, newer);
    RunConcat(hash, Start(map[]), before, [store]);
    RunOne(hash, Run(hash, Start(map[]), before), store);
    assert before + [store] == [Report(older), Report(newer), Signal, Wake, Swap, store];
    RoutesDiffer(a, b, older, newer);
    OlderRowCanStay(hash, map[], Run(hash, Start(map[]), before), store.site, store.loads, older, newer);
    assert IsWriteOrder(store.site, Jobs([older, newer], store.loads), [a, b]) by {
      OrderCanMatter(hash, store.site, Jobs([older, newer], store.loads)[0], Jobs([older, newer], store.loads)[1]);
    }
  }

  /** Both reports are recorded before the loop takes the queue over. */
  lemma TwoInFlight(hash: Hash, older: PaneReport, newer: PaneReport)
    requires older.paneID == newer.paneID == Trim(older.paneID) != "" && !SamePaneContent(older, newer)
    ensures var w := Run(hash, Start(map[]), [Report(older), Report(newer), Signal, Wake, Swap]);
      && w == World(Reports(map[older.paneID := newer], {}, []), false, 1, Storing([older, newer]), map[])
      && Agrees(hash, map[], w)
  {
    hide Trim, SamePaneContent, Run, Image, Replay, Rows, Agrees;
    var w1 := Next(hash, Start(map[]), Report(older));
    var w2 := Next(hash, w1, Report(newer));
    var w3 := Next(hash, w2, Signal);
    var w4 := Next(hash, w3, Wake);
    RunTwo(hash, Start(map[]), Report(older), Report(newer));
    RunConcat(hash, Start(map[]), [Report(older), Report(newer)], [Signal, Wake]);
    RunTwo(hash, w2, Signal, Wake);
    RunConcat(hash, Start(map[]), [Report(older), Report(newer)] + [Signal, Wake], [Swap]);
    RunOne(hash, w4, Swap);
    assert [Report(older), Report(newer)] + [Signal, Wake] + [Swap]
      == [Report(older), Report(newer), Signal, Wake, Swap];
    assert older.(paneID := older.paneID) == older && newer.(paneID := older.paneID) == newer;
    var both := Reports(map[older.paneID := newer], {older.paneID}, [older, newer]);
    assert w1 == World(Reports(map[older.paneID := older], {older.paneID}, [older]), false, 1, Waiting, map[]);
    assert w2.reports.latest == both.latest && w2 == World(both, false, 2, Waiting, map[]);
    StartAgrees(hash, map[]);
    ReportKeepsAgreement(hash, map[], Start(map[]), older);
    ReportKeepsAgreement(hash, map[], w1, newer);
    LoopKeepsAgreement(hash, map[], w2, Signal);
    LoopKeepsAgreement(hash, map[], w3, Wake);
    LoopKeepsAgreement(hash, map[], w4, Swap);
  }

  lemma LoopKeepsAgreement(hash: Hash, table: Table, w: World, e: Event)
    requires Agrees(hash, table, w) && (e.Signal? || e.Wake? || e.Swap?)
    ensures Agrees(hash, table, Next(hash, w, e))
  {
    StepKeepsAgreement(hash, table, w, e);
  }

  /**
    Without projects the reports taken over are dropped, and the same content reported again is not
    news: the row stays missing until the pane's content changes.
   */
  lemma LostReportStaysLost(hash: Hash, r: PaneReport, site: Site)
    requires Trim(r.paneID) == r.paneID != "" && site.projects == []
    ensures var w := Run(hash, Start(map[]), [Report(r), Signal, Wake, Swap, Store(site, [], [])]);
      && w == World(Reports(map[r.paneID := r], {}, []), false, 0, Waiting, map[])
      && !Agrees(hash, map[], w)
      && forall again: PaneReport :: again.paneID == r.paneID && SamePaneContent(r, again) ==>
        Next(hash, w, Report(again)) == w
  {
    hide Trim, SamePaneContent, Run, Image;
    var start := Start(map[]);
    var signalled := Next(hash, Next(hash, start, Report(r)), Signal);
    var swapped := Next(hash, Next(hash, signalled, Wake), Swap);
    RunTwo(hash, start, Report(r), Signal);
    RunConcat(hash, start, [Report(r), Signal], [Wake, Swap]);
    RunTwo(hash, signalled, Wake, Swap);
    RunConcat(hash, start, [Report(r), Signal, Wake, Swap], [Store(site, [], [])]);
    RunOne(hash, swapped, Store(site, [], []));
    assert [Report(r), Signal] + [Wake, Swap] == [Report(r), Signal, Wake, Swap];
    assert [Report(r), Signal, Wake, Swap] + [Store(site, [], [])]
      == [Report(r), Signal, Wake, Swap, Store(site, [], [])];
    var w := World(Reports(map[r.paneID := r], {}, []), false, 0, Waiting, map[]);
    assert Next(hash, swapped, Store(site, [], [])) == w;
    assert r.paneID in Expected(hash, map[], w) && r.paneID !in Pending(hash, w);
  }
}
