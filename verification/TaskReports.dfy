/** Pane reports: queued by the panes, written behind to the runtime table by the task-state loop. */
module TaskReports {
  import opened RecentText
  import opened Strings
  import opened Wrappers

  datatype PaneReport = PaneReport(paneID: string, paneTarget: string, currentCommand: string, runtimeStatus: string,
                                   snapshot: string, snapshotHash: string, cursorX: int, cursorY: int,
                                   hasCursor: bool, updatedAt: int)

  datatype PaneRow = PaneRow(paneID: string, paneTarget: string, currentCommand: string, runtimeStatus: string,
                             snapshot: string, snapshotHash: string, cursorX: int, cursorY: int, hasCursor: bool,
                             updatedAt: int)

  datatype TaskRow = TaskRow(taskID: string, sourcePaneID: string, currentCommand: string, runtimeStatus: string,
                             snapshotHash: string, updatedAt: int)

  datatype Batch = Batch(panes: seq<PaneRow>, tasks: seq<TaskRow>)

  datatype Project = Project(projectID: string, repoRoot: string)

  datatype Binding = Binding(paneUUID: string, paneID: string, paneTarget: string)

  /** The runtime table, one row per pane for all repositories. */
  type Table = map<string, PaneRow>

  type Hash = string -> string

  const RUNTIME_SNAPSHOT_MAX_LINES := 2000

  // ---------------------------------------------------------------------------------------------
  // The queue.

  datatype Reports = Reports(latest: map<string, PaneReport>, dirty: set<string>, queue: seq<PaneReport>)

  function PaneIDs(reports: seq<PaneReport>): set<string> {
    set r | r in reports :: r.paneID
  }

  predicate SamePaneContent(a: PaneReport, b: PaneReport) {
    && Trim(a.paneTarget) == Trim(b.paneTarget)
    && Trim(a.currentCommand) == Trim(b.currentCommand)
    && Trim(a.runtimeStatus) == Trim(b.runtimeStatus)
    && a.snapshot == b.snapshot
    && Trim(a.snapshotHash) == Trim(b.snapshotHash)
    && a.cursorX == b.cursorX && a.cursorY == b.cursorY && a.hasCursor == b.hasCursor
  }

  /** A report counts when it names a pane and differs from the pane's last counted report. */
  predicate IsNews(s: Reports, r: PaneReport) {
    var id := Trim(r.paneID);
    id != "" && !(id in s.latest && SamePaneContent(s.latest[id], r))
  }

  function Recorded(s: Reports, r: PaneReport): Reports {
    if !IsNews(s, r) then s
    else
      var named := r.(paneID := Trim(r.paneID));
      Reports(s.latest[named.paneID := named], s.dirty + {named.paneID}, s.queue + [named])
  }

  function Emptied(s: Reports): Reports {
    s.(dirty := {}, queue := [])
  }

  // ---------------------------------------------------------------------------------------------
  // The table.

  /** The row a report is stored as. */
  function Image(hash: Hash, r: PaneReport): PaneRow {
    var trimmed := Recent(r.snapshot, RUNTIME_SNAPSHOT_MAX_LINES);
    PaneRow(r.paneID, r.paneTarget, r.currentCommand, r.runtimeStatus, trimmed, hash(trimmed), r.cursorX, r.cursorY,
      r.hasCursor, r.updatedAt)
  }

  lemma ImageNamesPane(hash: Hash, r: PaneReport)
    ensures Image(hash, r).paneID == r.paneID
  {
  }

  function Rows(hash: Hash, reports: seq<PaneReport>): (rows: seq<PaneRow>)
    ensures |rows| == |reports| && forall i :: 0 <= i < |rows| ==> rows[i] == Image(hash, reports[i])
  {
    if reports == [] then [] else Rows(hash, reports[..|reports| - 1]) + [Image(hash, reports[|reports| - 1])]
  }

  lemma RowsOneMore(hash: Hash, reports: seq<PaneReport>, r: PaneReport)
    ensures Rows(hash, reports + [r]) == Rows(hash, reports) + [Image(hash, r)]
  {
  }

  /** Upserts in order; the last row of a pane wins. */
  function Replay(table: Table, rows: seq<PaneRow>): Table {
    if rows == [] then table
    else
      var row := rows[|rows| - 1];
      Replay(table, rows[..|rows| - 1])[row.paneID := row]
  }

  function LastRow(rows: seq<PaneRow>, id: string): Option<PaneRow> {
    if rows == [] then None
    else if rows[|rows| - 1].paneID == id then Some(rows[|rows| - 1])
    else LastRow(rows[..|rows| - 1], id)
  }

  function At(table: Table, id: string): Option<PaneRow> {
    if id in table then Some(table[id]) else None
  }

  function Or<T>(a: Option<T>, b: Option<T>): Option<T> {
    if a.Some? then a else b
  }

  lemma {:induction false} ReplayAt(table: Table, rows: seq<PaneRow>, id: string)
    ensures At(Replay(table, rows), id) == Or(LastRow(rows, id), At(table, id))
  {
    if rows != [] {
      ReplayAt(table, rows[..|rows| - 1], id);
    }
  }

  lemma LastRowOneMore(rows: seq<PaneRow>, row: PaneRow, id: string)
    ensures LastRow(rows + [row], id) == if row.paneID == id then Some(row) else LastRow(rows, id)
  {
  }

  lemma {:induction false} LastRowConcat(a: seq<PaneRow>, b: seq<PaneRow>, id: string)
    ensures LastRow(a + b, id) == Or(LastRow(b, id), LastRow(a, id))
  {
    if b == [] {
      assert a + b == a;
    } else {
      LastRowConcat(a, b[..|b| - 1], id);
      assert (a + b)[..|a + b| - 1] == a + b[..|b| - 1];
    }
  }

  lemma {:induction false} ReplayConcat(table: Table, a: seq<PaneRow>, b: seq<PaneRow>)
    ensures Replay(table, a + b) == Replay(Replay(table, a), b)
  {
    if b == [] {
      assert a + b == a;
    } else {
      ReplayConcat(table, a, b[..|b| - 1]);
      assert (a + b)[..|a + b| - 1] == a + b[..|b| - 1];
    }
  }

  lemma SameAtAll(t: Table, u: Table)
    requires forall id :: At(t, id) == At(u, id)
    ensures t == u
  {
    assert forall id :: id in t <==> At(t, id).Some?;
    assert forall id :: id in u <==> At(u, id).Some?;
    assert forall id :: id in t ==> At(t, id).value == At(u, id).value;
  }

  // ---------------------------------------------------------------------------------------------
  // Where reports go.

  type Bindings = map<string, Binding>

  /** The projects, the repositories that have a store, and the stores that refuse to write. */
  datatype Site = Site(projects: seq<Project>, stores: set<string>, failing: set<string>)

  /**
    A report to be written, and what loading the bindings of each project answers while a task is sought
    for it: the bindings are loaded again for every report, and can have changed.
   */
  datatype Job = Job(report: PaneReport, loads: seq<Option<Bindings>>)

  /** The reports with their loads; a load that is not given fails. */
  function Jobs(reports: seq<PaneReport>, loads: seq<seq<Option<Bindings>>>): seq<Job> {
    seq(|reports|, i requires 0 <= i < |reports| => Job(reports[i], if i < |loads| then loads[i] else []))
  }

  predicate Names(name: string, b: Binding) {
    name != "" && (name == Trim(b.paneID) || name == Trim(b.paneTarget) || name == Trim(b.paneUUID))
  }

  predicate Matches(r: PaneReport, b: Binding) {
    Names(Trim(r.paneID), b) || Names(Trim(r.paneTarget), b)
  }

  predicate IsBound(r: PaneReport, taskID: string, bindings: Bindings) {
    taskID in bindings && Matches(r, bindings[taskID])
  }

  /** The `k`-th project has a store, and its bindings load. */
  predicate Loads(site: Site, j: Job, k: nat) {
    k < |site.projects| && site.projects[k].repoRoot in site.stores && k < |j.loads| && j.loads[k].Some?
  }

  ghost predicate HasBinding(site: Site, j: Job, k: nat) {
    Loads(site, j, k) && exists taskID :: IsBound(j.report, taskID, j.loads[k].value)
  }

  /** The first project, from the `k`-th on, with a task bound to the reported pane. */
  ghost function FirstFrom(site: Site, j: Job, k: nat): (first: Option<nat>)
    requires k <= |site.projects|
    ensures first.Some? ==> HasBinding(site, j, first.value)
    decreases |site.projects| - k
  {
    if k == |site.projects| then None
    else if HasBinding(site, j, k) then Some(k)
    else FirstFrom(site, j, k + 1)
  }

  ghost function FirstBound(site: Site, j: Job): (first: Option<nat>)
    ensures first.Some? ==> HasBinding(site, j, first.value)
  {
    FirstFrom(site, j, 0)
  }

  /** The repository of that project. */
  ghost function BoundRepo(site: Site, j: Job): Option<string> {
    var k := FirstBound(site, j);
    if k.Some? then Some(site.projects[k.value].repoRoot) else None
  }

  /** A pane no task is bound to goes to the first project. */
  ghost function Route(site: Site, j: Job): string
    requires site.projects != []
  {
    var bound := BoundRepo(site, j);
    if bound.Some? then bound.value else site.projects[0].repoRoot
  }

  /** The reports routed to one of `repos`, in order. */
  ghost function Routed(site: Site, jobs: seq<Job>, repos: set<string>): seq<PaneReport>
    requires site.projects != []
  {
    if jobs == [] then []
    else
      var j := jobs[|jobs| - 1];
      Routed(site, jobs[..|jobs| - 1], repos) + if Route(site, j) in repos then [j.report] else []
  }

  function Writing(site: Site): set<string> {
    set repo | repo in site.stores && repo !in site.failing
  }

  /** The reports that reach the table: none without projects, and none of a store that is missing or fails. */
  ghost function Written(site: Site, jobs: seq<Job>): seq<PaneReport> {
    if site.projects == [] then [] else Routed(site, jobs, Writing(site))
  }

  /** All reports of one pane go to the same repository. */
  ghost predicate OneRoutePerPane(site: Site, jobs: seq<Job>) {
    site.projects != [] ==>
      forall i, k :: 0 <= i < |jobs| && 0 <= k < |jobs| && jobs[i].report.paneID == jobs[k].report.paneID ==>
        Route(site, jobs[i]) == Route(site, jobs[k])
  }

  /** The bindings of the `k`-th project load, and one of them names the pane. */
  ghost predicate NamesPane(site: Site, j: Job, k: nat) {
    Loads(site, j, k)
    && exists taskID :: taskID in j.loads[k].value && Names(Trim(j.report.paneID), j.loads[k].value[taskID])
  }

  /** Between two reports of a pane, no project gains its first or loses its last binding of that pane. */
  ghost predicate AreSteady(site: Site, jobs: seq<Job>) {
    forall i, k, n: nat ::
      0 <= i < |jobs| && 0 <= k < |jobs| && jobs[i].report.paneID == jobs[k].report.paneID ==>
        (NamesPane(site, jobs[i], n) <==> NamesPane(site, jobs[k], n))
  }

  /** Nothing changes, in particular, if all loads of a flush answer the same. */
  lemma UnchangedIsSteady(site: Site, jobs: seq<Job>)
    requires forall i, k :: 0 <= i < |jobs| && 0 <= k < |jobs| ==> jobs[i].loads == jobs[k].loads
    ensures AreSteady(site, jobs)
  {
    hide Trim, Names;
  }

  lemma BoundMeansNamed(site: Site, j: Job, n: nat)
    requires Trim(j.report.paneTarget) == Trim(j.report.paneID)
    ensures HasBinding(site, j, n) <==> NamesPane(site, j, n)
  {
    hide Trim, Names;
    if Loads(site, j, n) {
      assert forall taskID :: IsBound(j.report, taskID, j.loads[n].value) <==>
        taskID in j.loads[n].value && Names(Trim(j.report.paneID), j.loads[n].value[taskID]);
    }
  }

  /** Where a report of a pane that names itself goes depends on which projects bind that name. */
  lemma {:induction false} BoundByName(site: Site, j: Job, k: Job, n: nat)
    requires n <= |site.projects| && j.report.paneID == k.report.paneID
    requires Trim(j.report.paneTarget) == Trim(j.report.paneID) && Trim(k.report.paneTarget) == Trim(k.report.paneID)
    requires forall n: nat :: NamesPane(site, j, n) <==> NamesPane(site, k, n)
    ensures FirstFrom(site, j, n) == FirstFrom(site, k, n)
    decreases |site.projects| - n
  {
    hide Trim, Names;
    if n < |site.projects| {
      BoundMeansNamed(site, j, n);
      BoundMeansNamed(site, k, n);
      BoundByName(site, j, k, n + 1);
    }
  }

  /** Reports of panes that name themselves as their target, under steady bindings, have one route per pane. */
  lemma PanesHaveOneRoute(site: Site, jobs: seq<Job>)
    requires forall j :: j in jobs ==> Trim(j.report.paneTarget) == Trim(j.report.paneID)
    requires AreSteady(site, jobs)
    ensures OneRoutePerPane(site, jobs)
  {
    hide NamesPane;
    if site.projects != [] {
      forall i, k | 0 <= i < |jobs| && 0 <= k < |jobs| && jobs[i].report.paneID == jobs[k].report.paneID
        ensures Route(site, jobs[i]) == Route(site, jobs[k])
      {
        assert jobs[i] in jobs && jobs[k] in jobs;
        BoundByName(site, jobs[i], jobs[k], 0);
      }
    }
  }

  lemma RoutedOneMore(site: Site, jobs: seq<Job>, repos: set<string>, j: Job)
    requires site.projects != []
    ensures Routed(site, jobs + [j], repos)
      == if Route(site, j) in repos then Routed(site, jobs, repos) + [j.report] else Routed(site, jobs, repos)
  {
  }

  function ReportsOf(jobs: seq<Job>): seq<PaneReport> {
    seq(|jobs|, i requires 0 <= i < |jobs| => jobs[i].report)
  }

  lemma ReportsOfJobs(reports: seq<PaneReport>, loads: seq<seq<Option<Bindings>>>)
    ensures ReportsOf(Jobs(reports, loads)) == reports
  {
  }

  lemma NoReports(hash: Hash, site: Site, repos: set<string>, id: string)
    requires site.projects != []
    ensures LastRow(Rows(hash, Routed(site, [], repos)), id) == LastRow(Rows(hash, []), id) == None
  {
  }

  /** Of a pane with one route, the reports routed to `repos` leave the same last row, or none. */
  lemma {:induction false} LastRouted(hash: Hash, site: Site, jobs: seq<Job>, repos: set<string>, id: string,
      route: string)
    requires site.projects != []
    requires forall j :: j in jobs && j.report.paneID == id ==> Route(site, j) == route
    ensures LastRow(Rows(hash, Routed(site, jobs, repos)), id)
      == if route in repos then LastRow(Rows(hash, ReportsOf(jobs)), id) else None
  {
    hide LastRow, Rows, Image, Route, Routed;
    if jobs == [] {
      NoReports(hash, site, repos, id);
      assert ReportsOf(jobs) == [];
    } else {
      var init, j := jobs[..|jobs| - 1], jobs[|jobs| - 1];
      assert forall q :: q in init ==> q in jobs;
      assert j in jobs;
      LastRouted(hash, site, init, repos, id, route);
      var rest := Routed(site, init, repos);
      assert jobs == init + [j] && ReportsOf(jobs) == ReportsOf(init) + [j.report];
      ImageNamesPane(hash, j.report);
      RoutedOneMore(site, init, repos, j);
      RowsOneMore(hash, rest, j.report);
      RowsOneMore(hash, ReportsOf(init), j.report);
      LastRowOneMore(Rows(hash, rest), Image(hash, j.report), id);
      LastRowOneMore(Rows(hash, ReportsOf(init)), Image(hash, j.report), id);
    }
  }
}
