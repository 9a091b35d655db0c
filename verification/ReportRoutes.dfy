/** Where a report goes and what its task rows say, in terms of projects, stores and bindings alone. */
module ReportRoutes {
  import opened Strings
  import opened TaskFlush
  import opened TaskReports
  import opened TaskStateActor
  import opened Wrappers

  /** A binding matches a report when they share a name; empty names do not count. */
  lemma MatchesIff(r: PaneReport, b: Binding)
    ensures Matches(r, b) <==>
      {Trim(r.paneID), Trim(r.paneTarget)} * {Trim(b.paneID), Trim(b.paneTarget), Trim(b.paneUUID)} - {""} != {}
  {
    hide Trim;
    var shared := {Trim(r.paneID), Trim(r.paneTarget)} * {Trim(b.paneID), Trim(b.paneTarget), Trim(b.paneUUID)} - {""};
    if Names(Trim(r.paneID), b) {
      assert Trim(r.paneID) in shared;
    }
    if Names(Trim(r.paneTarget), b) {
      assert Trim(r.paneTarget) in shared;
    }
    if name :| name in shared {
      assert Names(name, b);
    }
  }

  /** The `k`-th project has a store, its bindings load, and the task's binding matches the report. */
  predicate Takes(site: Site, j: Job, k: nat, taskID: string) {
    && k < |site.projects| && site.projects[k].repoRoot in site.stores
    && k < |j.loads| && j.loads[k].Some?
    && taskID in j.loads[k].value && Matches(j.report, j.loads[k].value[taskID])
  }

  ghost predicate CanTake(site: Site, j: Job, k: nat) {
    exists taskID :: Takes(site, j, k, taskID)
  }

  lemma CanTakeIff(site: Site, j: Job, k: nat)
    requires k < |site.projects|
    ensures CanTake(site, j, k) <==> HasBinding(site, j, k)
  {
    hide Matches;
    if HasBinding(site, j, k) {
      var taskID :| IsBound(j.report, taskID, j.loads[k].value);
      assert Takes(site, j, k, taskID);
    }
    if CanTake(site, j, k) {
      var taskID :| Takes(site, j, k, taskID);
      assert IsBound(j.report, taskID, j.loads[k].value);
    }
  }

  lemma {:induction false} FirstFromIs(site: Site, j: Job, i: nat)
    requires i <= |site.projects|
    ensures var k := FirstFrom(site, j, i);
      if k.Some? then
        i <= k.value < |site.projects| && CanTake(site, j, k.value)
        && forall m :: i <= m < k.value ==> !CanTake(site, j, m)
      else forall m :: i <= m < |site.projects| ==> !CanTake(site, j, m)
    decreases |site.projects| - i
  {
    hide CanTake, HasBinding;
    if i < |site.projects| {
      CanTakeIff(site, j, i);
      FirstFromIs(site, j, i + 1);
    }
  }

  /** A report goes to the first project that can take it, and to the first of all if none can. */
  lemma RouteIs(site: Site, j: Job, k: nat)
    requires k < |site.projects| && forall m :: 0 <= m < k ==> !CanTake(site, j, m)
    ensures CanTake(site, j, k) ==>
      Route(site, j) == site.projects[k].repoRoot && BoundRepo(site, j) == Some(site.projects[k].repoRoot)
    ensures k == |site.projects| - 1 && !CanTake(site, j, k) ==>
      Route(site, j) == site.projects[0].repoRoot && BoundRepo(site, j).None?
  {
    hide CanTake;
    FirstFromIs(site, j, 0);
  }

  predicate ShowsReport(row: TaskRow, r: PaneReport) {
    && row.sourcePaneID == r.paneID && row.currentCommand == r.currentCommand && row.runtimeStatus == r.runtimeStatus
    && row.snapshotHash == r.snapshotHash && row.updatedAt == r.updatedAt
  }

  /** The `k`-th project writes, and is the first that can take the report. */
  ghost predicate IsTaken(site: Site, j: Job, k: nat) {
    && k < |site.projects| && site.projects[k].repoRoot in site.stores && site.projects[k].repoRoot !in site.failing
    && CanTake(site, j, k) && forall m :: 0 <= m < k ==> !CanTake(site, j, m)
  }

  /**
    The task rows a flush emits: each has the values of a report that was taken over and names a task bound
    to it in the first project that can take it, and every report so taken has such a row.
   */
  lemma TaskRowsShowReports(site: Site, jobs: seq<Job>, rows: seq<TaskRow>)
    requires CoverTasks(site, jobs, rows)
    ensures forall row :: row in rows ==> exists j, k: nat ::
      j in jobs && IsTaken(site, j, k) && Takes(site, j, k, row.taskID) && ShowsReport(row, j.report)
    ensures forall j, k: nat :: j in jobs && IsTaken(site, j, k) ==> exists row ::
      row in rows && Takes(site, j, k, row.taskID) && ShowsReport(row, j.report)
  {
    hide BoundRepo, IsTaskRow, IsTaken, Takes, ShowsReport;
    forall row | row in rows
      ensures exists j, k: nat ::
        j in jobs && IsTaken(site, j, k) && Takes(site, j, k, row.taskID) && ShowsReport(row, j.report)
    {
      var j :| j in jobs && BoundRepo(site, j).Some? && BoundRepo(site, j).value in Writing(site)
        && IsTaskRow(site, j, row);
      var k := TakenWhereBound(site, j);
      TaskRowIff(site, j, k, row);
    }
    forall j, k: nat | j in jobs && IsTaken(site, j, k)
      ensures exists row :: row in rows && Takes(site, j, k, row.taskID) && ShowsReport(row, j.report)
    {
      BoundWhereTaken(site, j, k);
      var row :| row in rows && IsTaskRow(site, j, row);
      TaskRowIff(site, j, k, row);
    }
  }

  lemma TakenWhereBound(site: Site, j: Job) returns (k: nat)
    requires BoundRepo(site, j).Some? && BoundRepo(site, j).value in Writing(site)
    ensures IsTaken(site, j, k)
  {
    hide CanTake;
    FirstFromIs(site, j, 0);
    k := FirstBound(site, j).value;
  }

  lemma BoundWhereTaken(site: Site, j: Job, k: nat)
    requires IsTaken(site, j, k)
    ensures FirstBound(site, j) == Some(k)
    ensures BoundRepo(site, j).Some? && BoundRepo(site, j).value in Writing(site)
  {
    hide CanTake;
    FirstFromIs(site, j, 0);
  }

  lemma TaskRowIff(site: Site, j: Job, k: nat, row: TaskRow)
    requires IsTaken(site, j, k)
    ensures IsTaskRow(site, j, row) <==> Takes(site, j, k, row.taskID) && ShowsReport(row, j.report)
  {
    hide FirstBound, Matches, CanTake;
    BoundWhereTaken(site, j, k);
    CanTakeIff(site, j, k);
  }
}
