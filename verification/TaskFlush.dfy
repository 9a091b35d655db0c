/** One flush of reports to the table: repositories are written in any order, each in its own batch. */
module TaskFlush {
  import opened RecencyList
  import opened TaskReports
  import opened Wrappers

  /** The reports that are written, repository by repository. */
  ghost function InOrder(site: Site, jobs: seq<Job>, order: seq<string>): seq<PaneReport>
    requires site.projects != []
  {
    if order == [] then []
    else InOrder(site, jobs, order[..|order| - 1]) + Routed(site, jobs, {order[|order| - 1]})
  }

  /** Every repository that writes and gets a report is written once, and no other that does not write. */
  ghost predicate IsWriteOrder(site: Site, jobs: seq<Job>, order: seq<string>) {
    && NoDuplicates(order)
    && (forall repo :: repo in order ==> repo in Writing(site))
    && (site.projects != [] ==> forall j :: j in jobs && Route(site, j) in Writing(site) ==> Route(site, j) in order)
  }

  /** The reports a flush writes, in the order it writes them: none without projects. */
  ghost function Flushed(site: Site, jobs: seq<Job>, order: seq<string>): seq<PaneReport> {
    if site.projects == [] then [] else InOrder(site, jobs, order)
  }

  lemma InOrderOneMore(site: Site, jobs: seq<Job>, order: seq<string>, repo: string)
    requires site.projects != []
    ensures InOrder(site, jobs, order + [repo]) == InOrder(site, jobs, order) + Routed(site, jobs, {repo})
  {
    assert (order + [repo])[..|order|] == order;
  }

  lemma {:induction false} RowsConcat(hash: Hash, a: seq<PaneReport>, b: seq<PaneReport>)
    ensures Rows(hash, a + b) == Rows(hash, a) + Rows(hash, b)
  {
  }

  /** There always is such an order. */
  lemma {:induction false} HasWriteOrder(site: Site, jobs: seq<Job>) returns (order: seq<string>)
    ensures IsWriteOrder(site, jobs, order)
  {
    hide Route;
    if jobs == [] {
      order := [];
    } else {
      var init, j := jobs[..|jobs| - 1], jobs[|jobs| - 1];
      order := HasWriteOrder(site, init);
      assert forall q :: q in jobs <==> q in init || q == j;
      if site.projects != [] && Route(site, j) in Writing(site) && Route(site, j) !in order {
        order := order + [Route(site, j)];
      }
    }
  }

  /** With one route per pane, writing one repository more adds its rows on top, whatever was written before. */
  lemma OneRepoMore(hash: Hash, site: Site, jobs: seq<Job>, done: set<string>, repo: string, id: string)
    requires site.projects != [] && OneRoutePerPane(site, jobs) && repo !in done
    ensures LastRow(Rows(hash, Routed(site, jobs, done + {repo})), id)
      == Or(LastRow(Rows(hash, Routed(site, jobs, {repo})), id),
        LastRow(Rows(hash, Routed(site, jobs, done)), id))
  {
    hide Route, LastRow, Rows, Routed;
    var route := if i :| 0 <= i < |jobs| && jobs[i].report.paneID == id then Route(site, jobs[i]) else "";
    LastRouted(hash, site, jobs, done + {repo}, id, route);
    LastRouted(hash, site, jobs, {repo}, id, route);
    LastRouted(hash, site, jobs, done, id, route);
  }

  lemma {:induction false} RoutedNowhere(site: Site, jobs: seq<Job>)
    requires site.projects != []
    ensures Routed(site, jobs, {}) == []
  {
    if jobs != [] {
      RoutedNowhere(site, jobs[..|jobs| - 1]);
    }
  }

  /** Repositories no report is routed to, and those that do not write, make no difference. */
  lemma SameLastRows(hash: Hash, site: Site, jobs: seq<Job>, done: set<string>, id: string)
    requires site.projects != [] && OneRoutePerPane(site, jobs)
    requires forall j :: j in jobs ==> (Route(site, j) in done <==> Route(site, j) in Writing(site))
    ensures LastRow(Rows(hash, Routed(site, jobs, done)), id) == LastRow(Rows(hash, Written(site, jobs)), id)
  {
    hide Route, LastRow, Rows, Routed, Writing;
    if i :| 0 <= i < |jobs| && jobs[i].report.paneID == id {
      var route := Route(site, jobs[i]);
      LastRouted(hash, site, jobs, done, id, route);
      LastRouted(hash, site, jobs, Writing(site), id, route);
    } else {
      LastRouted(hash, site, jobs, done, id, "");
      LastRouted(hash, site, jobs, Writing(site), id, "");
      assert forall r :: r in ReportsOf(jobs) ==> r.paneID != id;
      NoRow(hash, ReportsOf(jobs), id);
    }
  }

  lemma {:induction false} NoRow(hash: Hash, reports: seq<PaneReport>, id: string)
    requires forall r :: r in reports ==> r.paneID != id
    ensures LastRow(Rows(hash, reports), id) == None
  {
    if reports != [] {
      NoRow(hash, reports[..|reports| - 1], id);
      assert Rows(hash, reports)[..|reports| - 1] == Rows(hash, reports[..|reports| - 1]);
    }
  }

  lemma SameReplay(table: Table, a: seq<PaneRow>, b: seq<PaneRow>)
    requires forall id :: LastRow(a, id) == LastRow(b, id)
    ensures Replay(table, a) == Replay(table, b)
  {
    forall id ensures At(Replay(table, a), id) == At(Replay(table, b), id) {
      ReplayAt(table, a, id);
      ReplayAt(table, b, id);
    }
    SameAtAll(Replay(table, a), Replay(table, b));
  }

  /** With one route per pane, the last rows do not depend on the order of the repositories. */
  lemma {:induction false} LastInOrder(hash: Hash, site: Site, jobs: seq<Job>, order: seq<string>, id: string)
    requires site.projects != [] && OneRoutePerPane(site, jobs) && NoDuplicates(order)
    ensures LastRow(Rows(hash, InOrder(site, jobs, order)), id)
      == LastRow(Rows(hash, Routed(site, jobs, Elements(order))), id)
  {
    hide LastRow, Rows, Routed, OneRoutePerPane, InOrder, Elements;
    if order == [] {
      NothingInOrder(site, jobs);
    } else {
      var init, repo := order[..|order| - 1], order[|order| - 1];
      assert order == init + [repo];
      LastInOrder(hash, site, jobs, init, id);
      InOrderOneMore(site, jobs, init, repo);
      RowsConcat(hash, InOrder(site, jobs, init), Routed(site, jobs, {repo}));
      LastRowConcat(Rows(hash, InOrder(site, jobs, init)), Rows(hash, Routed(site, jobs, {repo})), id);
      LastIsNew(init, repo);
      OneRepoMore(hash, site, jobs, Elements(init), repo, id);
    }
  }

  lemma LastIsNew(init: seq<string>, repo: string)
    requires NoDuplicates(init + [repo])
    ensures repo !in Elements(init) && Elements(init + [repo]) == Elements(init) + {repo}
  {
    var order := init + [repo];
    assert forall i :: 0 <= i < |init| ==> order[i] != order[|init|] && order[i] == init[i];
  }

  lemma NothingInOrder(site: Site, jobs: seq<Job>)
    requires site.projects != []
    ensures InOrder(site, jobs, []) == Routed(site, jobs, Elements([]))
  {
    RoutedNowhere(site, jobs);
    assert Elements<string>([]) == {};
  }

  /**
    With one route per pane, a flush in any order leaves what replaying the written reports in their
    own order leaves.
   */
  lemma OrderDoesNotMatter(hash: Hash, site: Site, jobs: seq<Job>, order: seq<string>, table: Table)
    requires OneRoutePerPane(site, jobs) && IsWriteOrder(site, jobs, order)
    ensures Replay(table, Rows(hash, Flushed(site, jobs, order)))
      == Replay(table, Rows(hash, Written(site, jobs)))
  {
    hide LastRow, Rows, Routed, OneRoutePerPane, InOrder, Route, Replay, Writing;
    if site.projects != [] {
      forall id
        ensures LastRow(Rows(hash, InOrder(site, jobs, order)), id)
          == LastRow(Rows(hash, Written(site, jobs)), id)
      {
        LastInOrder(hash, site, jobs, order, id);
        SameLastRows(hash, site, jobs, Elements(order), id);
      }
      SameReplay(table, Rows(hash, InOrder(site, jobs, order)), Rows(hash, Written(site, jobs)));
    }
  }

  /** The row a repository's batch leaves for a pane. */
  ghost function RowIn(hash: Hash, site: Site, jobs: seq<Job>, repo: string, id: string): Option<PaneRow>
    requires site.projects != []
  {
    LastRow(Rows(hash, Routed(site, jobs, {repo})), id)
  }

  /** The repository written last decides, if it writes the pane at all. */
  lemma {:induction false} LastRepoWins(hash: Hash, site: Site, jobs: seq<Job>, order: seq<string>, repo: string,
      id: string)
    requires site.projects != []
    ensures LastRow(Rows(hash, InOrder(site, jobs, order + [repo])), id)
      == Or(RowIn(hash, site, jobs, repo, id), LastRow(Rows(hash, InOrder(site, jobs, order)), id))
  {
    hide LastRow, Rows, Routed, InOrder;
    InOrderOneMore(site, jobs, order, repo);
    RowsConcat(hash, InOrder(site, jobs, order), Routed(site, jobs, {repo}));
    LastRowConcat(Rows(hash, InOrder(site, jobs, order)), Rows(hash, Routed(site, jobs, {repo})), id);
  }

  /** In any order, the row left for a pane is one that some repository's batch leaves. */
  lemma {:induction false} SomeRepoDecides(hash: Hash, site: Site, jobs: seq<Job>, order: seq<string>, id: string)
    requires site.projects != []
    ensures var row := LastRow(Rows(hash, InOrder(site, jobs, order)), id);
      if row.None? then forall repo :: repo in order ==> RowIn(hash, site, jobs, repo, id).None?
      else exists repo :: repo in order && RowIn(hash, site, jobs, repo, id) == row
  {
    hide RowIn, LastRow, Rows, InOrder;
    if order == [] {
      NoRowsInOrder(hash, site, jobs, id);
    } else {
      var init, repo := order[..|order| - 1], order[|order| - 1];
      assert order == init + [repo];
      SomeRepoDecides(hash, site, jobs, init, id);
      LastRepoWins(hash, site, jobs, init, repo, id);
    }
  }

  lemma NoRowsInOrder(hash: Hash, site: Site, jobs: seq<Job>, id: string)
    requires site.projects != []
    ensures LastRow(Rows(hash, InOrder(site, jobs, [])), id) == None
  {
  }

  /** Any writing repository can be written last. */
  lemma CanBeLast(site: Site, jobs: seq<Job>, repo: string) returns (init: seq<string>)
    requires repo in Writing(site)
    ensures IsWriteOrder(site, jobs, init + [repo])
  {
    hide Route, Writing;
    var order := HasWriteOrder(site, jobs);
    WithoutKeeps(order, repo);
    init := Without(order, repo);
    assert forall x :: x in init <==> x in Elements(init);
    assert forall x :: x in order <==> x in Elements(order);
  }

  /** Without one route per pane, an order can leave the older of two reports. */
  lemma OrderCanMatter(hash: Hash, site: Site, older: Job, newer: Job)
    requires site.projects != [] && older.report.paneID == newer.report.paneID
    requires Route(site, older) != Route(site, newer)
    requires Route(site, older) in Writing(site) && Route(site, newer) in Writing(site)
    ensures var order, id := [Route(site, newer), Route(site, older)], older.report.paneID;
      && IsWriteOrder(site, [older, newer], order)
      && LastRow(Rows(hash, Flushed(site, [older, newer], order)), id) == Some(Image(hash, older.report))
  {
    hide Route, Image, Rows, Writing, LastRow, Routed, InOrder, RowIn;
    var a, b, id := Route(site, older), Route(site, newer), older.report.paneID;
    assert [b, a] == [b] + [a];
    LastRepoWins(hash, site, [older, newer], [b], a, id);
    OlderRow(hash, site, older, newer);
  }

  lemma OlderRow(hash: Hash, site: Site, older: Job, newer: Job)
    requires site.projects != [] && Route(site, older) != Route(site, newer)
    ensures RowIn(hash, site, [older, newer], Route(site, older), older.report.paneID)
      == Some(Image(hash, older.report))
  {
    hide Route, Image, Rows, LastRow, Routed;
    var a, id := Route(site, older), older.report.paneID;
    NothingRouted(site, {a});
    assert [older, newer] == [older] + [newer] && [older] == [] + [older];
    RoutedOneMore(site, [], {a}, older);
    RoutedOneMore(site, [older], {a}, newer);
    RowsOneMore(hash, [], older.report);
    ImageNamesPane(hash, older.report);
    LastRowOneMore(Rows(hash, []), Image(hash, older.report), id);
  }

  lemma NothingRouted(site: Site, repos: set<string>)
    requires site.projects != []
    ensures Routed(site, [], repos) == []
  {
  }
}
