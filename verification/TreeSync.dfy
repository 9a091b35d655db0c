/** Runs of the task tree: the deltas keep the browser's nodes in step with the server's cached rows. */
module TreeSync {
  import opened StringOrder
  import opened Strings
  import opened TaskNodes
  import opened TaskTree
  import opened Wrappers

  function Lookup(nodes: seq<Node>, id: string): Option<Node> {
    var i := FindIndex(nodes, id);
    if i.Some? then Some(nodes[i.value]) else None
  }

  /** The node shows the row, up to white space of either language around the texts. */
  predicate Shows(n: Node, row: Row) {
    && n.taskID == row.taskID
    && Strip(OrEmpty(n.parentTaskID)) == Strip(row.parentTaskID)
    && Strip(n.title) == Strip(row.title)
    && Strip(n.currentCommand) == Strip(row.currentCommand)
    && Strip(n.description) == Strip(row.description)
    && Strip(OrEmpty(n.flag)) == Strip(row.flag)
    && Strip(n.flagDesc) == Strip(row.flagDesc)
    && n.checked == row.checked
    && Strip(OrEmpty(n.status)) == Strip(row.status)
  }

  predicate AgreeAt(nodes: seq<Node>, rows: Rows, id: string) {
    && (Lookup(nodes, id).Some? <==> id in rows)
    && (id in rows ==> Shows(Lookup(nodes, id).value, rows[id]))
  }

  /** Each task of the rows, and no other, has one node, and the node shows the row. */
  ghost predicate Agree(nodes: seq<Node>, rows: Rows) {
    HasDistinctIDs(nodes) && forall id :: AgreeAt(nodes, rows, id)
  }

  ghost predicate HasDistinctIDs(nodes: seq<Node>) {
    forall i, j :: 0 <= i < j < |nodes| ==> nodes[i].taskID != nodes[j].taskID
  }

  /** An id the browser's trimming leaves alone. */
  predicate IsPlain(id: string) {
    JsTrim(id) == id != ""
  }

  ghost predicate AllPlain(ids: set<string>) {
    forall id :: id in ids ==> IsPlain(id)
  }

  ghost predicate ArePlain(rows: Rows) {
    forall id :: id in rows ==> IsPlain(id) && rows[id].taskID == id
  }

  // ---------------------------------------------------------------------------------------------
  // One delta.

  lemma {:induction false} KeepLookup(nodes: seq<Node>, removed: set<string>, id: string)
    ensures Lookup(Keep(nodes, removed), id) == if id in removed then None else Lookup(nodes, id)
  {
    hide Lookup, Keep;
    if nodes == [] {
      NothingKept(removed, id);
    } else {
      var rest := Keep(nodes[1..], removed);
      KeepLookup(nodes[1..], removed, id);
      KeepFirst(nodes, removed);
      LookupFirst(nodes[0], nodes[1..], id);
      LookupFirst(nodes[0], rest, id);
      assert [nodes[0]] + nodes[1..] == nodes;
    }
  }

  lemma NothingKept(removed: set<string>, id: string)
    ensures Lookup(Keep([], removed), id) == Lookup([], id) == None
  {
  }

  lemma KeepFirst(nodes: seq<Node>, removed: set<string>)
    requires nodes != []
    ensures Keep(nodes, removed)
      == if nodes[0].taskID in removed then Keep(nodes[1..], removed) else [nodes[0]] + Keep(nodes[1..], removed)
  {
  }

  lemma LookupFirst(n: Node, rest: seq<Node>, id: string)
    ensures Lookup([n] + rest, id) == if n.taskID == id then Some(n) else Lookup(rest, id)
  {
    assert ([n] + rest)[1..] == rest;
  }

  /** The node put in place of, or after, what was there. */
  function Over(prev: Option<Node>, node: Node): Node {
    if prev.Some? then Merged(prev.value, node) else node
  }

  lemma UpsertLookup(nodes: seq<Node>, node: Node, id: string)
    ensures Lookup(Upserted(nodes, node), id) ==
      if id == node.taskID then Some(Over(Lookup(nodes, id), node)) else Lookup(nodes, id)
  {
    var i, r := FindIndex(nodes, node.taskID), Upserted(nodes, node);
    var k := FindIndex(nodes, id);
    if k.Some? {
      assert r[k.value].taskID == id && r[k.value] in r;
    } else if id == node.taskID {
      assert r[|nodes|].taskID == id && r[|nodes|] in r;
    }
    var m := FindIndex(r, id);
    if m.Some? && m.value < |nodes| {
      assert nodes[m.value].taskID == id && nodes[m.value] in nodes;
    }
  }

  lemma {:induction false} UpsertAllLookup(nodes: seq<Node>, wire: seq<WireNode>, id: string)
    requires Ascending(wire, NodeKey)
    ensures (forall n :: n in wire ==> n.taskID != id) ==> Lookup(UpsertedAll(nodes, wire), id) == Lookup(nodes, id)
    ensures forall n :: n in wire && n.taskID == id ==>
      Lookup(UpsertedAll(nodes, wire), id) == Some(Over(Lookup(nodes, id), ToTaskNode(n)))
  {
    hide Lookup, Upserted, Over, Less;
    if wire != [] {
      var init, last := wire[..|wire| - 1], wire[|wire| - 1];
      UpsertAllLookup(nodes, init, id);
      UpsertLookup(UpsertedAll(nodes, init), ToTaskNode(last), id);
      assert forall n :: n in wire <==> n in init || n == last;
      forall n | n in init ensures n.taskID != last.taskID {
        var i :| 0 <= i < |init| && init[i] == n;
        assert Less(NodeKey(wire[i]), NodeKey(last));
        LessIsTotal(n.taskID, last.taskID);
      }
    }
  }

  lemma MoveLookup(nodes: seq<Node>, r: Reparent, id: string)
    requires IsPlain(r.taskID)
    ensures Lookup(Moved(nodes, r), id)
      == if id == r.taskID && Lookup(nodes, id).Some?
         then Some(Lookup(nodes, id).value.(parentTaskID := Sent(JsTrim(OrEmpty(r.newParentTaskID)))))
         else Lookup(nodes, id)
  {
    var i, t := FindIndex(nodes, r.taskID), Moved(nodes, r);
    var k := FindIndex(nodes, id);
    if k.Some? {
      assert t[k.value].taskID == id && t[k.value] in t;
    }
    var m := FindIndex(t, id);
    if m.Some? {
      assert nodes[m.value].taskID == id && nodes[m.value] in nodes;
    }
  }

  lemma {:induction false} MoveAllLookup(nodes: seq<Node>, rs: seq<Reparent>, id: string)
    requires Ascending(rs, ReparentKey) && forall r :: r in rs ==> IsPlain(r.taskID)
    ensures Lookup(nodes, id).None? || (forall r :: r in rs ==> r.taskID != id) ==>
      Lookup(MovedAll(nodes, rs), id) == Lookup(nodes, id)
    ensures forall r :: r in rs && r.taskID == id && Lookup(nodes, id).Some? ==>
      Lookup(MovedAll(nodes, rs), id)
        == Some(Lookup(nodes, id).value.(parentTaskID := Sent(JsTrim(OrEmpty(r.newParentTaskID)))))
  {
    hide Lookup, Moved, Less, JsTrim;
    if rs != [] {
      var init, last := rs[..|rs| - 1], rs[|rs| - 1];
      assert last in rs && forall r :: r in rs <==> r in init || r == last;
      MoveAllLookup(nodes, init, id);
      MoveLookup(MovedAll(nodes, init), last, id);
      forall r | r in init ensures r.taskID != last.taskID {
        var i :| 0 <= i < |init| && init[i] == r;
        assert Less(ReparentKey(rs[i]), ReparentKey(last));
        LessIsTotal(r.taskID, last.taskID);
      }
    }
  }

  lemma PlainIDsAreNamed(ids: seq<string>)
    requires forall id :: id in ids ==> IsPlain(id)
    ensures forall id :: id in NamedIDs(ids) <==> id in ids
  {
  }

  lemma NewNodeShows(prev: Option<Node>, row: Row)
    ensures Shows(Over(prev, ToTaskNode(NodeOf(row))), row)
  {
  }

  lemma SameTrimSameStrip(a: string, b: string)
    ensures Trim(a) == Trim(b) ==> Strip(a) == Strip(b)
  {
    hide Trim, JsTrim, Strip;
    StripHidesTrim(a);
    StripHidesTrim(b);
  }

  /** The node of a row whose content did not change shows the new row as well, up to the parent. */
  lemma UnchangedShows(n: Node, prev: Row, row: Row)
    requires Shows(n, prev) && prev.taskID == row.taskID && !HasRowContentChanged(prev, row)
    ensures !HasMoved(prev, row) ==> Shows(n, row)
    ensures Shows(n.(parentTaskID := Sent(JsTrim(row.parentTaskID))), row)
  {
    hide Trim, JsTrim, Strip;
    SameTrimSameStrip(prev.parentTaskID, row.parentTaskID);
    SameTrimSameStrip(prev.title, row.title);
    SameTrimSameStrip(prev.currentCommand, row.currentCommand);
    SameTrimSameStrip(prev.status, row.status);
    SameTrimSameStrip(prev.description, row.description);
    SameTrimSameStrip(prev.flag, row.flag);
    SameTrimSameStrip(prev.flagDesc, row.flagDesc);
    StripHidesTrim(row.parentTaskID);
  }

  /** What the browser looks up after a delta, list by list. */
  lemma PatchedLookup(nodes: seq<Node>, before: Rows, after: Rows, d: Delta, projectID: string, id: string)
    requires ArePlain(before) && ArePlain(after) && IsDelta(projectID, before, after, d)
    ensures id in before && id !in after ==> Lookup(Patched(nodes, d), id) == None
    ensures id !in before && id !in after ==> Lookup(Patched(nodes, d), id) == Lookup(nodes, id)
    ensures id in after && id !in before ==>
      Lookup(Patched(nodes, d), id) == Some(Over(Lookup(nodes, id), ToTaskNode(NodeOf(after[id]))))
    ensures id in after && id in before ==>
      var node := ToTaskNode(NodeOf(after[id]));
      var base :=
        if HasRowContentChanged(before[id], after[id]) then Some(Over(Lookup(nodes, id), node))
        else Lookup(nodes, id);
      Lookup(Patched(nodes, d), id)
        == if HasMoved(before[id], after[id]) && base.Some?
           then Some(base.value.(parentTaskID := Sent(JsTrim(after[id].parentTaskID)))) else base
  {
    hide Lookup, Keep, UpsertedAll, MovedAll, HasRowContentChanged, HasMoved, JsTrim, Over, ToTaskNode, Ascending;
    var kept := Keep(nodes, NamedIDs(d.removed));
    var grown := UpsertedAll(kept, d.added);
    var changed := UpsertedAll(grown, d.updated);
    PlainIDsAreNamed(d.removed);
    KeepLookup(nodes, NamedIDs(d.removed), id);
    UpsertAllLookup(kept, d.added, id);
    UpsertAllLookup(grown, d.updated, id);
    MoveAllLookup(changed, d.reparented, id);
    if id in after {
      var node := NodeOf(after[id]);
      assert node in d.added <==> IsAdded(before, after, node);
      assert node in d.updated <==> IsUpdated(before, after, node);
      if id in before {
        var r := ReparentOf(before[id], after[id]);
        assert r.taskID == id && OrEmpty(r.newParentTaskID) == after[id].parentTaskID;
        assert r in d.reparented <==> IsReparented(before, after, r);
      }
    }
  }

  lemma PatchAgreesAt(nodes: seq<Node>, before: Rows, after: Rows, d: Delta, projectID: string, id: string)
    requires ArePlain(before) && ArePlain(after) && IsDelta(projectID, before, after, d) && AgreeAt(nodes, before, id)
    ensures AgreeAt(Patched(nodes, d), after, id)
  {
    hide Lookup, Patched, IsDelta, HasRowContentChanged, HasMoved, JsTrim, Over, ToTaskNode, NodeOf, Shows;
    PatchedLookup(nodes, before, after, d, projectID, id);
    if id in after {
      NewNodeShows(Lookup(nodes, id), after[id]);
      if id in before {
        if HasRowContentChanged(before[id], after[id]) {
          MovedShows(Over(Lookup(nodes, id), ToTaskNode(NodeOf(after[id]))), after[id]);
        } else {
          UnchangedShows(Lookup(nodes, id).value, before[id], after[id]);
        }
      }
    }
  }

  lemma MovedShows(n: Node, row: Row)
    requires Shows(n, row)
    ensures Shows(n.(parentTaskID := Sent(JsTrim(row.parentTaskID))), row)
  {
    hide Trim, JsTrim, Strip;
    StripHidesTrim(row.parentTaskID);
  }

  // ---------------------------------------------------------------------------------------------
  // No duplicates.

  lemma {:induction false} KeepDistinct(nodes: seq<Node>, removed: set<string>)
    requires HasDistinctIDs(nodes)
    ensures HasDistinctIDs(Keep(nodes, removed)) && forall n :: n in Keep(nodes, removed) ==> n in nodes
  {
    if nodes != [] {
      KeepDistinct(nodes[1..], removed);
      var r := Keep(nodes[1..], removed);
      forall j | 0 <= j < |r| ensures r[j].taskID != nodes[0].taskID {
        assert r[j] in nodes[1..];
      }
    }
  }

  lemma {:induction false} UpsertAllDistinct(nodes: seq<Node>, wire: seq<WireNode>)
    requires HasDistinctIDs(nodes)
    ensures HasDistinctIDs(UpsertedAll(nodes, wire))
  {
    if wire != [] {
      UpsertAllDistinct(nodes, wire[..|wire| - 1]);
    }
  }

  lemma {:induction false} MoveAllDistinct(nodes: seq<Node>, rs: seq<Reparent>)
    requires HasDistinctIDs(nodes)
    ensures HasDistinctIDs(MovedAll(nodes, rs))
  {
    if rs != [] {
      MoveAllDistinct(nodes, rs[..|rs| - 1]);
    }
  }

  /** One delta keeps the browser in step. */
  lemma PatchAgrees(nodes: seq<Node>, before: Rows, after: Rows, d: Delta, projectID: string)
    requires ArePlain(before) && ArePlain(after) && IsDelta(projectID, before, after, d) && Agree(nodes, before)
    ensures Agree(Patched(nodes, d), after)
  {
    hide AgreeAt, ArePlain, IsDelta, Keep, UpsertedAll, MovedAll;
    forall id ensures AgreeAt(Patched(nodes, d), after, id) {
      PatchAgreesAt(nodes, before, after, d, projectID, id);
    }
    var kept := Keep(nodes, NamedIDs(d.removed));
    KeepDistinct(nodes, NamedIDs(d.removed));
    UpsertAllDistinct(kept, d.added);
    UpsertAllDistinct(UpsertedAll(kept, d.added), d.updated);
    MoveAllDistinct(UpsertedAll(UpsertedAll(kept, d.added), d.updated), d.reparented);
  }

  /** Sending nothing stands for sending the delta without changes. */
  lemma NoChangePatches(nodes: seq<Node>, projectID: string)
    ensures Patched(nodes, NoChange(projectID)) == nodes
  {
    KeepAll(nodes);
    assert NamedIDs([]) == {};
  }

  // ---------------------------------------------------------------------------------------------
  // Runs.

  /** Readings of given projects whose rows have given ids. */
  predicate ReadsOver(projects: set<string>, ids: set<string>, r: Reading) {
    && r.projectID in projects
    && (r.rows.Some? ==> forall row :: row in r.rows.value ==> row.taskID in ids)
  }

  ghost predicate IsRunOver(projects: set<string>, ids: set<string>, steps: seq<Step>) {
    AreSteps(map[], steps) && forall s :: s in steps ==> ReadsOver(projects, ids, s.reading)
  }

  /** Every project's nodes, as the deltas sent have left them, show the rows the server has cached. */
  ghost predicate InStep(steps: seq<Step>) {
    forall projectID ::
      Agree(Nodes(AppliedAll(map[], DeltasSent(steps)), projectID), CachedRows(CachesAfter(map[], steps), projectID))
  }

  ghost predicate CachesArePlain(caches: Caches) {
    forall projectID :: projectID in caches ==> ArePlain(caches[projectID].rows)
  }

  lemma RowsArePlain(ids: set<string>, rows: seq<Row>)
    requires AllPlain(ids)
    requires forall row :: row in rows ==> row.taskID in ids
    ensures ArePlain(ByID(rows))
  {
  }

  /** One reading keeps the project in step, and leaves the others alone. */
  lemma StepAgrees(projects: set<string>, ids: set<string>, caches: Caches, trees: Trees, s: Step, projectID: string)
    requires AllPlain(projects) && AllPlain(ids) && ReadsOver(projects, ids, s.reading)
    requires IsStep(caches, s) && CachesArePlain(caches)
    requires Agree(Nodes(trees, projectID), CachedRows(caches, projectID))
    ensures Agree(Nodes(if s.sent.Some? then Applied(trees, s.sent.value) else trees, projectID),
                  CachedRows(Cached(caches, s.reading), projectID))
  {
    hide Agree, ArePlain, Patched, ByID;
    var r := s.reading;
    if !IsSkipped(caches, r) {
      RowsArePlain(ids, r.rows.value);
      EmptyIsPlain();
      if r.projectID == projectID {
        var d := if s.sent.Some? then s.sent.value else NoChange(projectID);
        PatchAgrees(Nodes(trees, projectID), CachedRows(caches, projectID), ByID(r.rows.value), d, projectID);
        NoChangePatches(Nodes(trees, projectID), projectID);
      }
    }
  }

  lemma EmptyIsPlain()
    ensures ArePlain(map[])
  {
  }

  lemma {:induction false} CachesStayPlain(projects: set<string>, ids: set<string>, steps: seq<Step>)
    requires AllPlain(ids) && forall s :: s in steps ==> ReadsOver(projects, ids, s.reading)
    ensures CachesArePlain(CachesAfter(map[], steps))
  {
    hide ArePlain, ByID;
    if steps != [] {
      var init, r := steps[..|steps| - 1], steps[|steps| - 1].reading;
      assert steps[|steps| - 1] in steps && forall s :: s in init ==> s in steps;
      CachesStayPlain(projects, ids, init);
      if !IsSkipped(CachesAfter(map[], init), r) {
        RowsArePlain(ids, r.rows.value);
      }
    }
  }

  /** From empty views, with every delta delivered in order, the browser shows the cached rows after any run. */
  lemma {:induction false} BrowserShowsCachedRows(projects: set<string>, ids: set<string>, steps: seq<Step>)
    requires AllPlain(projects) && AllPlain(ids) && IsRunOver(projects, ids, steps)
    ensures InStep(steps)
  {
    hide Agree, ReadsOver, IsStep, Applied, Cached, CachesArePlain;
    if steps == [] {
      NothingAgrees();
    } else {
      var init, s := steps[..|steps| - 1], steps[|steps| - 1];
      assert steps == init + [s];
      OneMoreStep(map[], init, s);
      assert s in steps && forall x :: x in init ==> x in steps;
      BrowserShowsCachedRows(projects, ids, init);
      CachesStayPlain(projects, ids, init);
      var trees := AppliedAll(map[], DeltasSent(init));
      SentApplied(map[], DeltasSent(init), s.sent);
      forall projectID
        ensures Agree(Nodes(AppliedAll(map[], DeltasSent(steps)), projectID),
          CachedRows(CachesAfter(map[], steps), projectID))
      {
        StepAgrees(projects, ids, CachesAfter(map[], init), trees, s, projectID);
      }
    }
  }

  lemma NothingAgrees()
    ensures Agree([], map[])
  {
  }

  lemma SentApplied(trees: Trees, deltas: seq<Delta>, sent: Option<Delta>)
    ensures var more := if sent.Some? then [sent.value] else [];
      AppliedAll(trees, deltas + more) ==
      if sent.Some? then Applied(AppliedAll(trees, deltas), sent.value) else AppliedAll(trees, deltas)
  {
    if sent.Some? {
      assert (deltas + [sent.value])[..|deltas|] == deltas;
    } else {
      assert deltas + [] == deltas;
    }
  }
}
