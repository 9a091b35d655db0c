/**
  The task-state actor: records jobs, takes them over and writes them to the runtime table, and
  sends out how the task trees of the projects changed.
 */
module TaskStateActor {
  import opened RecencyList
  import opened Strings
  import opened TaskFlush
  import opened TaskReports
  import opened Wrappers

  import TaskTree

  /** The reports of the panes bound to a task of `repo`. */
  ghost function BoundIn(site: Site, jobs: seq<Job>, repo: string): seq<Job> {
    if jobs == [] then []
    else
      var j := jobs[|jobs| - 1];
      BoundIn(site, jobs[..|jobs| - 1], repo) + if BoundRepo(site, j) == Some(repo) then [j] else []
  }

  /** A task row names a task the first matching bindings bind to the pane, and carries the report's values. */
  ghost predicate IsTaskRow(site: Site, j: Job, row: TaskRow) {
    var k, r := FirstBound(site, j), j.report;
    && k.Some? && IsBound(r, row.taskID, j.loads[k.value].value)
    && row == TaskRow(row.taskID, r.paneID, r.currentCommand, r.runtimeStatus, r.snapshotHash, r.updatedAt)
  }

  ghost predicate AreTaskRows(site: Site, repo: string, jobs: seq<Job>, rows: seq<TaskRow>) {
    var bound := BoundIn(site, jobs, repo);
    |rows| == |bound| && forall i :: 0 <= i < |rows| ==> IsTaskRow(site, bound[i], rows[i])
  }

  /** The task rows of the reports: one for every report bound in a repository that writes, and no others. */
  ghost predicate CoverTasks(site: Site, jobs: seq<Job>, rows: seq<TaskRow>) {
    && (forall j :: j in jobs && BoundRepo(site, j).Some? && BoundRepo(site, j).value in Writing(site) ==>
          exists row :: row in rows && IsTaskRow(site, j, row))
    && (forall row :: row in rows ==>
          exists j :: j in jobs && BoundRepo(site, j).Some? && BoundRepo(site, j).value in Writing(site)
                      && IsTaskRow(site, j, row))
  }

  function BatchAt(batches: map<string, Batch>, repo: string): Batch {
    if repo in batches then batches[repo] else Batch([], [])
  }

  /** The batch of a repository: the rows routed there, in order, and the rows of their tasks. */
  ghost predicate IsBatch(hash: Hash, site: Site, jobs: seq<Job>, repo: string, batch: Batch)
    requires site.projects != []
  {
    batch.panes == Rows(hash, Routed(site, jobs, {repo})) && AreTaskRows(site, repo, jobs, batch.tasks)
  }

  /** Some task bound to the pane, in whatever order the bindings are visited. */
  method FindTask(r: PaneReport, bindings: map<string, Binding>) returns (taskID: Option<string>)
    ensures taskID.Some? ==> IsBound(r, taskID.value, bindings)
    ensures taskID.None? ==> forall id :: !IsBound(r, id, bindings)
  {
    var left := bindings.Keys;
    while left != {}
      invariant left <= bindings.Keys
      invariant forall id :: id in bindings.Keys - left ==> !Matches(r, bindings[id])
    {
      var id :| id in left;
      left := left - {id};
      if Matches(r, bindings[id]) {
        return Some(id);
      }
    }
    return None;
  }

  /** The first project with a task bound to the pane, and such a task; the bindings are loaded on the way. */
  method FindBinding(site: Site, j: Job) returns (repo: Option<string>, taskID: string)
    ensures repo == BoundRepo(site, j)
    ensures repo.Some? ==> IsBound(j.report, taskID, j.loads[FirstBound(site, j).value].value)
  {
    for k := 0 to |site.projects|
      invariant FirstFrom(site, j, k) == FirstBound(site, j)
    {
      if site.projects[k].repoRoot !in site.stores {
        continue;
      }
      if k >= |j.loads| || j.loads[k].None? {
        continue;
      }
      var found := FindTask(j.report, j.loads[k].value);
      if found.Some? {
        return Some(site.projects[k].repoRoot), found.value;
      }
    }
    return None, "";
  }

  /** One report more adds its row to the batch it is routed to, and its task to the batch it is bound in. */
  lemma BatchStep(hash: Hash, site: Site, jobs: seq<Job>, n: nat, repo: string, batch: Batch,
                  panes: seq<PaneRow>, tasks: seq<TaskRow>)
    requires site.projects != [] && n < |jobs| && IsBatch(hash, site, jobs[..n], repo, batch)
    requires panes == if Route(site, jobs[n]) == repo then [Image(hash, jobs[n].report)] else []
    requires if BoundRepo(site, jobs[n]) == Some(repo)
             then |tasks| == 1 && IsTaskRow(site, jobs[n], tasks[0]) else tasks == []
    ensures IsBatch(hash, site, jobs[..n + 1], repo, Batch(batch.panes + panes, batch.tasks + tasks))
  {
    hide IsTaskRow, Rows, Routed, BoundIn, BoundRepo, Route;
    LastReport(hash, site, jobs, n, repo);
    if BoundRepo(site, jobs[n]) != Some(repo) {
      assert batch.tasks + [] == batch.tasks;
    }
  }

  /** What the last report adds to a repository's rows and to its bound reports. */
  lemma LastReport(hash: Hash, site: Site, jobs: seq<Job>, n: nat, repo: string)
    requires site.projects != [] && n < |jobs|
    ensures Rows(hash, Routed(site, jobs[..n + 1], {repo}))
      == Rows(hash, Routed(site, jobs[..n], {repo}))
        + if Route(site, jobs[n]) == repo then [Image(hash, jobs[n].report)] else []
    ensures BoundIn(site, jobs[..n + 1], repo)
      == BoundIn(site, jobs[..n], repo)
        + if BoundRepo(site, jobs[n]) == Some(repo) then [jobs[n]] else []
  {
    hide Route, BoundRepo, Image;
    assert jobs[..n + 1][..n] == jobs[..n];
    var rest := Routed(site, jobs[..n], {repo});
    assert rest + [] == rest && Rows(hash, rest) + [] == Rows(hash, rest);
    RowsOneMore(hash, rest, jobs[n].report);
  }

  lemma RouteIsBoundRepo(site: Site, j: Job)
    requires site.projects != [] && BoundRepo(site, j).Some?
    ensures Route(site, j) == BoundRepo(site, j).value
  {
  }

  ghost predicate AreBatches(hash: Hash, site: Site, jobs: seq<Job>, batches: map<string, Batch>)
    requires site.projects != []
  {
    && (forall repo :: IsBatch(hash, site, jobs, repo, BatchAt(batches, repo)))
    && (forall j :: j in jobs ==> Route(site, j) in batches)
  }

  lemma BatchesOfNothing(hash: Hash, site: Site)
    requires site.projects != []
    ensures AreBatches(hash, site, [], map[])
  {
  }

  /** Adding one report to the batch it is routed to. */
  lemma BatchesStep(hash: Hash, site: Site, jobs: seq<Job>, n: nat, batches: map<string, Batch>,
                    repo: string, tasks: seq<TaskRow>)
    requires site.projects != [] && n < |jobs| && AreBatches(hash, site, jobs[..n], batches)
    requires repo == Route(site, jobs[n])
    requires if BoundRepo(site, jobs[n]).Some?
             then |tasks| == 1 && IsTaskRow(site, jobs[n], tasks[0]) else tasks == []
    ensures var batch := BatchAt(batches, repo);
      AreBatches(hash, site, jobs[..n + 1],
                 batches[repo := Batch(batch.panes + [Image(hash, jobs[n].report)], batch.tasks + tasks)])
  {
    hide Image, IsBatch, IsTaskRow, BoundRepo;
    if BoundRepo(site, jobs[n]).Some? {
      RouteIsBoundRepo(site, jobs[n]);
    }
    var batch := BatchAt(batches, repo);
    var next := batches[repo := Batch(batch.panes + [Image(hash, jobs[n].report)], batch.tasks + tasks)];
    forall other ensures IsBatch(hash, site, jobs[..n + 1], other, BatchAt(next, other)) {
      if other == repo {
        BatchStep(hash, site, jobs, n, other, batch, [Image(hash, jobs[n].report)], tasks);
      } else {
        var same := BatchAt(batches, other);
        BatchStep(hash, site, jobs, n, other, same, [], []);
        assert same.panes + [] == same.panes && same.tasks + [] == same.tasks;
      }
    }
    assert jobs[..n + 1] == jobs[..n] + [jobs[n]];
  }

  lemma AreBatchesOfAll(hash: Hash, site: Site, jobs: seq<Job>, batches: map<string, Batch>)
    requires site.projects != [] && AreBatches(hash, site, jobs[..|jobs|], batches)
    ensures forall repo :: IsBatch(hash, site, jobs, repo, BatchAt(batches, repo))
    ensures forall j :: j in jobs ==> Route(site, j) in batches
  {
    assert jobs[..|jobs|] == jobs;
  }

  method CollectBatches(hash: Hash, site: Site, jobs: seq<Job>) returns (batches: map<string, Batch>)
    requires site.projects != []
    ensures forall repo :: IsBatch(hash, site, jobs, repo, BatchAt(batches, repo))
    ensures forall j :: j in jobs ==> Route(site, j) in batches
  {
    hide Image, IsBatch, FirstBound, AreBatches;
    batches := map[];
    assert jobs[..0] == [];
    BatchesOfNothing(hash, site);
    for n := 0 to |jobs|
      invariant AreBatches(hash, site, jobs[..n], batches)
    {
      var r := jobs[n].report;
      var repo, taskID := FindBinding(site, jobs[n]);
      var target := if repo.Some? then repo.value else site.projects[0].repoRoot;
      var batch := BatchAt(batches, target);
      var tasks :=
        if repo.Some? then
          [TaskRow(taskID, r.paneID, r.currentCommand, r.runtimeStatus, r.snapshotHash, r.updatedAt)]
        else [];
      BatchesStep(hash, site, jobs, n, batches, target, tasks);
      batches := batches[target := Batch(batch.panes + [Image(hash, r)], batch.tasks + tasks)];
    }
    AreBatchesOfAll(hash, site, jobs, batches);
  }

  /** What has been merged once the batches of the repositories in `order` are written. */
  ghost predicate IsProgress(hash: Hash, site: Site, jobs: seq<Job>, batches: map<string, Batch>,
                             order: seq<string>, merged: Batch)
    requires site.projects != []
  {
    && NoDuplicates(order) && (forall repo :: repo in order ==> repo in batches && repo in Writing(site))
    && (forall repo, row :: repo in order && row in batches[repo].tasks ==> row in merged.tasks)
    && (forall row :: row in merged.tasks ==> exists repo :: repo in order && row in batches[repo].tasks)
    && merged.panes == Rows(hash, InOrder(site, jobs, order))
  }

  lemma NothingWritten(hash: Hash, site: Site, jobs: seq<Job>, batches: map<string, Batch>, table: Table)
    requires site.projects != []
    ensures IsProgress(hash, site, jobs, batches, [], Batch([], [])) && Replay(table, []) == table
  {
  }

  lemma OneBatchMore(hash: Hash, site: Site, jobs: seq<Job>, batches: map<string, Batch>,
                     order: seq<string>, merged: Batch, repo: string)
    requires site.projects != [] && repo in batches && repo in Writing(site) && repo !in order
    requires IsBatch(hash, site, jobs, repo, batches[repo])
      && IsProgress(hash, site, jobs, batches, order, merged)
    ensures IsProgress(hash, site, jobs, batches, order + [repo],
      Batch(merged.panes + batches[repo].panes, merged.tasks + batches[repo].tasks))
  {
    hide Rows, Routed, AreTaskRows, InOrder, Writing;
    InOrderOneMore(site, jobs, order, repo);
    RowsConcat(hash, InOrder(site, jobs, order), Routed(site, jobs, {repo}));
    assert forall x :: x in order + [repo] <==> x in order || x == repo;
  }

  /** The batches are written in any order of repositories; a missing or failing store skips its batch. */
  method WriteBatches(hash: Hash, site: Site, ghost jobs: seq<Job>, batches: map<string, Batch>, table: Table)
    returns (merged: Batch, newTable: Table, ghost order: seq<string>)
    requires site.projects != []
    requires forall repo :: IsBatch(hash, site, jobs, repo, BatchAt(batches, repo))
    requires forall j :: j in jobs ==> Route(site, j) in batches
    ensures IsWriteOrder(site, jobs, order)
    ensures merged.panes == Rows(hash, Flushed(site, jobs, order)) && CoverTasks(site, jobs, merged.tasks)
    ensures newTable == Replay(table, merged.panes)
  {
    hide IsProgress, Replay, IsBatch, CoverTasks, Rows, InOrder, Route;
    merged, newTable, order := Batch([], []), table, [];
    var left := batches.Keys;
    NothingWritten(hash, site, jobs, batches, table);
    while left != {}
      invariant left <= batches.Keys
      invariant forall repo :: repo in order <==> repo in batches.Keys - left && repo in Writing(site)
      invariant newTable == Replay(table, merged.panes)
      invariant IsProgress(hash, site, jobs, batches, order, merged)
    {
      var repo :| repo in left;
      left := left - {repo};
      if repo !in site.stores || repo in site.failing {
        continue;
      }
      var batch := batches[repo];
      assert batch == BatchAt(batches, repo);
      ReplayConcat(table, merged.panes, batch.panes);
      OneBatchMore(hash, site, jobs, batches, order, merged, repo);
      newTable := Replay(newTable, batch.panes);
      merged := Batch(merged.panes + batch.panes, merged.tasks + batch.tasks);
      order := order + [repo];
    }
    AllWritten(hash, site, jobs, batches, order, merged);
  }

  /** Once the batches of all repositories that write are written, the flush is complete. */
  lemma AllWritten(hash: Hash, site: Site, jobs: seq<Job>, batches: map<string, Batch>,
                   order: seq<string>, merged: Batch)
    requires site.projects != []
    requires forall repo :: IsBatch(hash, site, jobs, repo, BatchAt(batches, repo))
    requires forall j :: j in jobs ==> Route(site, j) in batches
    requires IsProgress(hash, site, jobs, batches, order, merged)
    requires forall repo :: repo in order <==> repo in batches && repo in Writing(site)
    ensures IsWriteOrder(site, jobs, order)
    ensures merged.panes == Rows(hash, Flushed(site, jobs, order)) && CoverTasks(site, jobs, merged.tasks)
  {
    hide Route, Rows, InOrder, IsBatch, Writing, CoverTasks;
    BatchesCoverTasks(hash, site, jobs, batches, merged.tasks);
  }

  lemma {:induction false} BoundInHas(site: Site, jobs: seq<Job>, repo: string, j: Job)
    ensures j in BoundIn(site, jobs, repo) <==> j in jobs && BoundRepo(site, j) == Some(repo)
  {
    hide BoundRepo;
    if jobs != [] {
      BoundInHas(site, jobs[..|jobs| - 1], repo, j);
    }
  }

  /** A bound report is routed where it is bound. */
  lemma BatchesCoverTasks(hash: Hash, site: Site, jobs: seq<Job>, batches: map<string, Batch>,
      rows: seq<TaskRow>)
    requires site.projects != []
    requires forall repo :: IsBatch(hash, site, jobs, repo, BatchAt(batches, repo))
    requires forall j :: j in jobs ==> Route(site, j) in batches
    requires forall repo, row :: repo in batches && repo in Writing(site) && row in batches[repo].tasks ==> row in rows
    requires forall row :: row in rows ==>
      exists repo :: repo in batches && repo in Writing(site) && row in batches[repo].tasks
    ensures CoverTasks(site, jobs, rows)
  {
    hide IsTaskRow, BoundRepo, BoundIn, Routed, Rows;
    forall j | j in jobs && BoundRepo(site, j).Some? && BoundRepo(site, j).value in Writing(site)
      ensures exists row :: row in rows && IsTaskRow(site, j, row)
    {
      var repo := BoundRepo(site, j).value;
      BoundInHas(site, jobs, repo, j);
      assert IsBatch(hash, site, jobs, repo, BatchAt(batches, repo));
      var i :| 0 <= i < |BoundIn(site, jobs, repo)| && BoundIn(site, jobs, repo)[i] == j;
      assert IsTaskRow(site, j, BatchAt(batches, repo).tasks[i]);
    }
    forall row | row in rows
      ensures exists j :: j in jobs && BoundRepo(site, j).Some? && BoundRepo(site, j).value in Writing(site)
                          && IsTaskRow(site, j, row)
    {
      var repo :| repo in batches && repo in Writing(site) && row in batches[repo].tasks;
      assert IsBatch(hash, site, jobs, repo, BatchAt(batches, repo));
      var i :| 0 <= i < |batches[repo].tasks| && batches[repo].tasks[i] == row;
      var j := BoundIn(site, jobs, repo)[i];
      BoundInHas(site, jobs, repo, j);
      assert IsTaskRow(site, j, row);
    }
  }

  lemma NothingFlushed(site: Site, jobs: seq<Job>)
    requires jobs == [] || site.projects == []
    ensures IsWriteOrder(site, jobs, []) && Flushed(site, jobs, []) == []
  {
  }

  class TaskStateActor {
    var paneLatest: map<string, PaneReport>
    var dirtyPaneIDs: set<string>
    var reportQueue: seq<PaneReport>
    /** The one slot of the wake-up channel is taken. */
    var triggered: bool
    var projectCache: TaskTree.Caches

    ghost function State(): Reports
      reads `paneLatest, `dirtyPaneIDs, `reportQueue
    {
      Reports(paneLatest, dirtyPaneIDs, reportQueue)
    }

    constructor ()
      ensures State() == Reports(map[], {}, []) && !triggered && projectCache == map[]
    {
      paneLatest, dirtyPaneIDs, reportQueue, triggered, projectCache := map[], {}, [], false, map[];
    }

    /** The locked half of taking a report. */
    method Record(r: PaneReport) returns (queued: bool)
      modifies `paneLatest, `dirtyPaneIDs, `reportQueue
      ensures State() == Recorded(old(State()), r) && queued == IsNews(old(State()), r)
    {
      var paneID := Trim(r.paneID);
      if paneID == "" {
        return false;
      }
      var named := r.(paneID := paneID);
      if paneID in paneLatest && SamePaneContent(paneLatest[paneID], named) {
        return false;
      }
      paneLatest := paneLatest[paneID := named];
      dirtyPaneIDs := dirtyPaneIDs + {paneID};
      reportQueue := reportQueue + [named];
      return true;
    }

    /** The send that never blocks: a second token is dropped. */
    method Signal()
      modifies `triggered
      ensures triggered
    {
      if !triggered {
        triggered := true;
      }
    }

    method OnPaneReport(r: PaneReport)
      modifies `paneLatest, `dirtyPaneIDs, `reportQueue, `triggered
      ensures State() == Recorded(old(State()), r)
      ensures triggered == (old(triggered) || IsNews(old(State()), r))
    {
      var queued := Record(r);
      if queued {
        Signal();
      }
    }

    method SwapDirtyReports() returns (reports: seq<PaneReport>)
      modifies `dirtyPaneIDs, `reportQueue
      ensures reports == old(reportQueue)
      ensures State() == if old(reportQueue) == [] then old(State()) else Emptied(old(State()))
    {
      if reportQueue == [] {
        return [];
      }
      reports := reportQueue;
      reportQueue := [];
      dirtyPaneIDs := {};
    }

    /**
      What is emitted is what was stored: the reports taken over, repository by repository.  `loads` is
      what loading the bindings answers, report by report and project by project.
     */
    method FlushDirtyRuntime(hash: Hash, site: Site, loads: seq<seq<Option<Bindings>>>, table: Table)
      returns (merged: Batch, newTable: Table, ghost order: seq<string>)
      modifies `dirtyPaneIDs, `reportQueue
      ensures State() == if old(reportQueue) == [] then old(State()) else Emptied(old(State()))
      ensures var jobs := Jobs(old(reportQueue), loads);
        && IsWriteOrder(site, jobs, order)
        && merged.panes == Rows(hash, Flushed(site, jobs, order))
        && CoverTasks(site, if site.projects == [] then [] else jobs, merged.tasks)
        && newTable == Replay(table, merged.panes)
        && (OneRoutePerPane(site, jobs) ==> newTable == Replay(table, Rows(hash, Written(site, jobs))))
    {
      hide OneRoutePerPane, Written, InOrder;
      var reports := SwapDirtyReports();
      var jobs := Jobs(reports, loads);
      if reports == [] || site.projects == [] {
        order := [];
        NothingFlushed(site, jobs);
        merged, newTable := Batch([], []), table;
      } else {
        var batches := CollectBatches(hash, site, jobs);
        merged, newTable, order := WriteBatches(hash, site, jobs, batches, table);
      }
      if OneRoutePerPane(site, jobs) {
        OrderDoesNotMatter(hash, site, jobs, order, table);
      }
    }

    /** The projects are read one after the other; each reading is one step of the tree's cache. */
    method DiffProjectsTree(readings: seq<TaskTree.Reading>)
      returns (deltas: seq<TaskTree.Delta>, ghost steps: seq<TaskTree.Step>)
      modifies `projectCache
      ensures |steps| == |readings| && forall n :: 0 <= n < |steps| ==> steps[n].reading == readings[n]
      ensures TaskTree.AreSteps(old(projectCache), steps)
      ensures projectCache == TaskTree.CachesAfter(old(projectCache), steps)
      ensures deltas == TaskTree.DeltasSent(steps)
    {
      deltas, steps := [], [];
      for n := 0 to |readings|
        invariant |steps| == n && forall k :: 0 <= k < n ==> steps[k].reading == readings[k]
        invariant TaskTree.AreSteps(old(projectCache), steps)
        invariant projectCache == TaskTree.CachesAfter(old(projectCache), steps)
        invariant deltas == TaskTree.DeltasSent(steps)
      {
        hide TaskTree.IsDelta, TaskTree.ByID, TaskTree.AreSteps;
        var r := readings[n];
        ghost var sent := None;
        var caches := projectCache;
        if r.maxLastModified.None? {
        } else if r.projectID in projectCache && projectCache[r.projectID].maxLastModified == r.maxLastModified.value {
        } else if r.rows.None? {
        } else {
          var before := if r.projectID in projectCache then projectCache[r.projectID].rows else map[];
          var delta := TaskTree.DiffTaskRows(r.projectID, before, r.rows.value);
          if TaskTree.HasChanges(delta) {
            deltas := deltas + [delta];
            sent := Some(delta);
          }
          var rows := TaskTree.TaskRowsByID(r.rows.value);
          projectCache := projectCache[r.projectID := TaskTree.Cache(r.maxLastModified.value, rows)];
        }
        TaskTree.OneMoreStep(old(projectCache), steps, TaskTree.Step(r, sent));
        steps := steps + [TaskTree.Step(r, sent)];
      }
    }
  }
}
