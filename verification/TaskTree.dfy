/** The server's half of the task tree: cached rows, and the delta between two readings of them. */
module TaskTree {
  import opened StringOrder
  import opened Strings
  import opened Wrappers

  datatype Row = Row(taskID: string, parentTaskID: string, title: string, currentCommand: string, description: string,
                     flag: string, flagDesc: string, checked: bool, status: string, lastModified: int)

  type Rows = map<string, Row>

  /** Rows filed under their own ids. */
  ghost predicate AreFiled(rows: Rows) {
    forall id :: id in rows ==> rows[id].taskID == id
  }

  /** A task as it is sent: an empty text is left out. */
  datatype WireNode = WireNode(taskID: string, parentTaskID: Option<string>, title: string,
                               currentCommand: Option<string>, description: Option<string>, flag: Option<string>,
                               flagDesc: Option<string>, checked: bool, status: Option<string>, lastModified: int)

  datatype Reparent = Reparent(taskID: string, oldParentTaskID: Option<string>, newParentTaskID: Option<string>)

  datatype Delta = Delta(projectID: string, added: seq<WireNode>, removed: seq<string>, updated: seq<WireNode>,
                         reparented: seq<Reparent>)

  function Sent(s: string): Option<string> {
    if s == "" then None else Some(s)
  }

  function NodeOf(row: Row): WireNode {
    WireNode(row.taskID, Sent(row.parentTaskID), row.title, Sent(row.currentCommand), Sent(row.description),
             Sent(row.flag), Sent(row.flagDesc), row.checked, Sent(row.status), row.lastModified)
  }

  function ReparentOf(prev: Row, row: Row): Reparent {
    Reparent(row.taskID, Sent(prev.parentTaskID), Sent(row.parentTaskID))
  }

  predicate HasChanges(d: Delta) {
    d.added != [] || d.removed != [] || d.updated != [] || d.reparented != []
  }

  predicate HasRowContentChanged(prev: Row, row: Row) {
    || Trim(prev.title) != Trim(row.title)
    || Trim(prev.currentCommand) != Trim(row.currentCommand)
    || Trim(prev.status) != Trim(row.status)
    || Trim(prev.description) != Trim(row.description)
    || Trim(prev.flag) != Trim(row.flag)
    || Trim(prev.flagDesc) != Trim(row.flagDesc)
    || prev.checked != row.checked
    || prev.lastModified != row.lastModified
  }

  predicate HasMoved(prev: Row, row: Row) {
    Trim(prev.parentTaskID) != Trim(row.parentTaskID)
  }

  // ---------------------------------------------------------------------------------------------
  // What a delta is: four lists, each of exactly the tasks concerned, in ascending order of their ids.

  function NodeKey(n: WireNode): string { n.taskID }

  function IDKey(id: string): string { id }

  function ReparentKey(r: Reparent): string { r.taskID }

  predicate IsAdded(before: Rows, after: Rows, n: WireNode) {
    n.taskID in after && n.taskID !in before && n == NodeOf(after[n.taskID])
  }

  predicate IsUpdated(before: Rows, after: Rows, n: WireNode) {
    n.taskID in after && n.taskID in before && HasRowContentChanged(before[n.taskID], after[n.taskID])
      && n == NodeOf(after[n.taskID])
  }

  predicate IsReparented(before: Rows, after: Rows, r: Reparent) {
    && r.taskID in after && r.taskID in before && HasMoved(before[r.taskID], after[r.taskID])
    && r == ReparentOf(before[r.taskID], after[r.taskID])
  }

  ghost predicate IsDelta(projectID: string, before: Rows, after: Rows, d: Delta) {
    && d.projectID == projectID
    && Ascending(d.added, NodeKey) && (forall n :: n in d.added <==> IsAdded(before, after, n))
    && Ascending(d.updated, NodeKey) && (forall n :: n in d.updated <==> IsUpdated(before, after, n))
    && Ascending(d.removed, IDKey) && (forall id :: id in d.removed <==> id in before && id !in after)
    && Ascending(d.reparented, ReparentKey) && (forall r :: r in d.reparented <==> IsReparented(before, after, r))
  }

  /** The delta does not depend on the order in which the rows were visited. */
  lemma DeltaIsUnique(projectID: string, before: Rows, after: Rows, d: Delta, e: Delta)
    requires IsDelta(projectID, before, after, d) && IsDelta(projectID, before, after, e)
    ensures d == e
  {
    hide Ascending, NodeOf, ReparentOf, HasRowContentChanged, HasMoved;
    AscendingIsUnique(d.added, e.added, NodeKey);
    AscendingIsUnique(d.updated, e.updated, NodeKey);
    AscendingIsUnique(d.removed, e.removed, IDKey);
    AscendingIsUnique(d.reparented, e.reparented, ReparentKey);
  }

  /** The last row of an id counts. */
  function ByID(rows: seq<Row>): Rows {
    if rows == [] then map[]
    else
      var row := rows[|rows| - 1];
      ByID(rows[..|rows| - 1])[row.taskID := row]
  }

  lemma {:induction false} ByIDFiles(rows: seq<Row>)
    ensures AreFiled(ByID(rows)) && forall id :: id in ByID(rows) <==> exists row :: row in rows && row.taskID == id
  {
    if rows != [] {
      ByIDFiles(rows[..|rows| - 1]);
      forall id ensures id in ByID(rows) <==> exists row :: row in rows && row.taskID == id {
        var row := rows[|rows| - 1];
        assert row in rows && forall r :: r in rows <==> r == row || r in rows[..|rows| - 1];
      }
    }
  }

  method TaskRowsByID(rows: seq<Row>) returns (out: Rows)
    ensures out == ByID(rows)
  {
    out := map[];
    for n := 0 to |rows|
      invariant out == ByID(rows[..n])
    {
      out := out[rows[n].taskID := rows[n]];
      assert rows[..n + 1][..n] == rows[..n];
    }
    assert rows[..|rows|] == rows;
  }

  /** Items with distinct keys. */
  ghost predicate Distinct<T(!new)>(s: seq<T>, key: T -> string) {
    forall i, j :: 0 <= i < j < |s| ==> key(s[i]) != key(s[j])
  }

  lemma DistinctMore<T(!new)>(s: seq<T>, x: T, key: T -> string)
    requires Distinct(s, key) && forall y :: y in s ==> key(y) != key(x)
    ensures Distinct(s + [x], key) && forall y :: y in s + [x] <==> y in s || y == x
  {
  }

  /** The new rows, visited in any order. */
  method CompareRows(before: Rows, after: Rows)
    returns (added: seq<WireNode>, updated: seq<WireNode>, reparented: seq<Reparent>)
    requires AreFiled(after)
    ensures Distinct(added, NodeKey) && forall n :: n in added <==> IsAdded(before, after, n)
    ensures Distinct(updated, NodeKey) && forall n :: n in updated <==> IsUpdated(before, after, n)
    ensures Distinct(reparented, ReparentKey) && forall r :: r in reparented <==> IsReparented(before, after, r)
  {
    added, updated, reparented := [], [], [];
    var left := after.Keys;
    while left != {}
      invariant left <= after.Keys
      invariant Distinct(added, NodeKey) && forall n :: n in added <==> IsAdded(before, after, n) && n.taskID !in left
      invariant Distinct(updated, NodeKey)
      invariant forall n :: n in updated <==> IsUpdated(before, after, n) && n.taskID !in left
      invariant Distinct(reparented, ReparentKey)
      invariant forall r :: r in reparented <==> IsReparented(before, after, r) && r.taskID !in left
    {
      hide Distinct, HasMoved, HasRowContentChanged, Sent;
      var id :| id in left;
      left := left - {id};
      var row := after[id];
      if id !in before {
        DistinctMore(added, NodeOf(row), NodeKey);
        added := added + [NodeOf(row)];
        continue;
      }
      var prev := before[id];
      if HasMoved(prev, row) {
        DistinctMore(reparented, ReparentOf(prev, row), ReparentKey);
        reparented := reparented + [ReparentOf(prev, row)];
      }
      if HasRowContentChanged(prev, row) {
        DistinctMore(updated, NodeOf(row), NodeKey);
        updated := updated + [NodeOf(row)];
      }
    }
  }

  /** The old rows, visited in any order. */
  method RemovedIDs(before: Rows, after: Rows) returns (removed: seq<string>)
    ensures Distinct(removed, IDKey) && forall id :: id in removed <==> id in before && id !in after
  {
    removed := [];
    var left := before.Keys;
    while left != {}
      invariant left <= before.Keys
      invariant Distinct(removed, IDKey) && forall id :: id in removed <==> id in before && id !in after && id !in left
    {
      hide Distinct;
      var id :| id in left;
      left := left - {id};
      if id !in after {
        DistinctMore(removed, id, IDKey);
        removed := removed + [id];
      }
    }
  }

  method DiffTaskRows(projectID: string, before: Rows, newRows: seq<Row>) returns (d: Delta)
    ensures IsDelta(projectID, before, ByID(newRows), d)
  {
    hide IsAdded, IsUpdated, IsReparented, Ascending;
    var after := TaskRowsByID(newRows);
    ByIDFiles(newRows);
    var added, updated, reparented := CompareRows(before, after);
    var removed := RemovedIDs(before, after);
    SortBySorts(added, NodeKey);
    SortBySorts(updated, NodeKey);
    SortBySorts(removed, IDKey);
    SortBySorts(reparented, ReparentKey);
    d := Delta(projectID, SortBy(added, NodeKey), SortBy(removed, IDKey), SortBy(updated, NodeKey),
      SortBy(reparented, ReparentKey));
  }

  // ---------------------------------------------------------------------------------------------
  // Reading the projects.

  datatype Cache = Cache(maxLastModified: int, rows: Rows)

  type Caches = map<string, Cache>

  /** What the store of a project answered: nothing where it is missing or fails. */
  datatype Reading = Reading(projectID: string, maxLastModified: Option<int>, rows: Option<seq<Row>>)

  function CachedRows(caches: Caches, projectID: string): Rows {
    if projectID in caches then caches[projectID].rows else map[]
  }

  /** A project is passed over when its store fails, or when nothing was modified since it was cached. */
  predicate IsSkipped(caches: Caches, r: Reading) {
    || r.maxLastModified.None?
    || (r.projectID in caches && caches[r.projectID].maxLastModified == r.maxLastModified.value)
    || r.rows.None?
  }

  function Cached(caches: Caches, r: Reading): Caches {
    if IsSkipped(caches, r) then caches
    else caches[r.projectID := Cache(r.maxLastModified.value, ByID(r.rows.value))]
  }

  function NoChange(projectID: string): Delta {
    Delta(projectID, [], [], [], [])
  }

  /** One project's reading, with the delta sent for it, if any. */
  datatype Step = Step(reading: Reading, sent: Option<Delta>)

  ghost predicate IsStep(caches: Caches, s: Step) {
    var r := s.reading;
    if IsSkipped(caches, r) then s.sent == None
    else
      && IsDelta(r.projectID, CachedRows(caches, r.projectID), ByID(r.rows.value),
                 if s.sent.Some? then s.sent.value else NoChange(r.projectID))
      && (s.sent.Some? ==> HasChanges(s.sent.value))
  }

  function CachesAfter(caches: Caches, steps: seq<Step>): Caches {
    if steps == [] then caches else Cached(CachesAfter(caches, steps[..|steps| - 1]), steps[|steps| - 1].reading)
  }

  ghost predicate AreSteps(caches: Caches, steps: seq<Step>) {
    forall n :: 0 <= n < |steps| ==> IsStep(CachesAfter(caches, steps[..n]), steps[n])
  }

  /** The deltas sent, in order. */
  function DeltasSent(steps: seq<Step>): seq<Delta> {
    if steps == [] then []
    else
      var sent := steps[|steps| - 1].sent;
      DeltasSent(steps[..|steps| - 1]) + if sent.Some? then [sent.value] else []
  }

  lemma {:induction false} OneMoreStep(caches: Caches, steps: seq<Step>, s: Step)
    ensures CachesAfter(caches, steps + [s]) == Cached(CachesAfter(caches, steps), s.reading)
    ensures DeltasSent(steps + [s]) == DeltasSent(steps) + if s.sent.Some? then [s.sent.value] else []
    ensures AreSteps(caches, steps + [s]) <==> AreSteps(caches, steps) && IsStep(CachesAfter(caches, steps), s)
  {
    hide IsStep, Cached, AreSteps;
    assert (steps + [s])[..|steps|] == steps;
    OneMoreIsStep(caches, steps, s);
  }

  lemma {:induction false} OneMoreIsStep(caches: Caches, steps: seq<Step>, s: Step)
    ensures AreSteps(caches, steps + [s]) <==> AreSteps(caches, steps) && IsStep(CachesAfter(caches, steps), s)
  {
    hide IsStep, CachesAfter;
    var all := steps + [s];
    assert all[..|steps|] == steps && all[|steps|] == s;
    forall n | 0 <= n < |steps|
      ensures IsStep(CachesAfter(caches, all[..n]), all[n]) <==> IsStep(CachesAfter(caches, steps[..n]), steps[n])
    {
      assert all[..n] == steps[..n];
    }
  }
}
