/** What deltas say, field by field, and what they leave of the browser's own marks. */
module DeltaContents {
  import opened StringOrder
  import opened Strings
  import opened TaskNodes
  import opened TaskTree
  import opened TreeSync
  import opened Wrappers

  /** An empty text is left out, any other is sent as it is. */
  predicate Carries(sent: Option<string>, text: string) {
    if text == "" then sent.None? else sent == Some(text)
  }

  /** The node has every field of the row. */
  predicate HasFieldsOf(n: WireNode, row: Row) {
    && n.taskID == row.taskID && Carries(n.parentTaskID, row.parentTaskID)
    && n.title == row.title
    && Carries(n.currentCommand, row.currentCommand)
    && Carries(n.description, row.description)
    && Carries(n.flag, row.flag) && Carries(n.flagDesc, row.flagDesc)
    && n.checked == row.checked
    && Carries(n.status, row.status)
    && n.lastModified == row.lastModified
  }

  lemma NodeHasFields(row: Row)
    ensures HasFieldsOf(NodeOf(row), row)
  {
  }

  /**
    A task is in a list of the delta exactly when it came, went, got another parent, or differs in a field
    that is compared, white space around texts aside; and what is sent of it are its new fields.
   */
  lemma DeltaListsIff(projectID: string, before: Rows, after: Rows, d: Delta, id: string)
    requires IsDelta(projectID, before, after, d) && AreFiled(before) && AreFiled(after)
    ensures (exists n :: n in d.added && n.taskID == id) <==> id in after && id !in before
    ensures id in d.removed <==> id in before && id !in after
    ensures (exists n :: n in d.updated && n.taskID == id) <==>
      && id in before && id in after
      && (|| Trim(before[id].title) != Trim(after[id].title)
          || Trim(before[id].currentCommand) != Trim(after[id].currentCommand)
          || Trim(before[id].status) != Trim(after[id].status)
          || Trim(before[id].description) != Trim(after[id].description)
          || Trim(before[id].flag) != Trim(after[id].flag)
          || Trim(before[id].flagDesc) != Trim(after[id].flagDesc)
          || before[id].checked != after[id].checked
          || before[id].lastModified != after[id].lastModified)
    ensures (exists r :: r in d.reparented && r.taskID == id) <==>
      id in before && id in after && Trim(before[id].parentTaskID) != Trim(after[id].parentTaskID)
    ensures forall n :: n in d.added || n in d.updated ==> n.taskID in after && HasFieldsOf(n, after[n.taskID])
    ensures forall r :: r in d.reparented ==>
      && r.taskID in before && r.taskID in after
      && Carries(r.oldParentTaskID, before[r.taskID].parentTaskID)
      && Carries(r.newParentTaskID, after[r.taskID].parentTaskID)
  {
    hide Trim, Ascending, HasFieldsOf, NodeOf;
    forall n | n in d.added || n in d.updated
      ensures n.taskID in after && HasFieldsOf(n, after[n.taskID])
    {
      assert IsAdded(before, after, n) || IsUpdated(before, after, n);
      NodeHasFields(after[n.taskID]);
    }
    if id in after {
      var n := NodeOf(after[id]);
      NodeIsFiled(after[id]);
      assert n in d.added <==> IsAdded(before, after, n);
      assert n in d.updated <==> IsUpdated(before, after, n);
      if id in before {
        var r := ReparentOf(before[id], after[id]);
        assert r in d.reparented <==> IsReparented(before, after, r);
      }
    }
  }

  lemma NodeIsFiled(row: Row)
    ensures NodeOf(row).taskID == row.taskID
  {
  }

  /** Rows that are the same but for white space around their texts make no delta. */
  lemma SameRowsSendNothing(projectID: string, before: Rows, after: Rows, d: Delta)
    requires IsDelta(projectID, before, after, d) && before.Keys == after.Keys
    requires forall id :: id in before ==>
      !HasRowContentChanged(before[id], after[id]) && !HasMoved(before[id], after[id])
    ensures !HasChanges(d)
  {
    hide Ascending, HasRowContentChanged, HasMoved;
    Empty(d.added);
    Empty(d.updated);
    Empty(d.removed);
    Empty(d.reparented);
  }

  lemma Empty<T(!new)>(s: seq<T>)
    ensures s == [] || exists x :: x in s
  {
    if s != [] {
      assert s[0] in s;
    }
  }

  /** Of several rows of a task the last one counts, and no other task has one. */
  lemma {:induction false} LastRowCounts(rows: seq<Row>, k: nat)
    requires k < |rows| && forall i :: k < i < |rows| ==> rows[i].taskID != rows[k].taskID
    ensures rows[k].taskID in ByID(rows) && ByID(rows)[rows[k].taskID] == rows[k]
    ensures forall id :: id in ByID(rows) <==> exists row :: row in rows && row.taskID == id
  {
    ByIDFiles(rows);
    if k < |rows| - 1 {
      LastRowCounts(rows[..|rows| - 1], k);
    }
  }

  /**
    The rows of a reading are cached exactly when the store answered and something was modified since the
    project was cached; otherwise every project's cache stays, and other projects' always do.
   */
  lemma ReadingIsCachedIff(caches: Caches, r: Reading, other: string)
    requires other != r.projectID
    ensures var n := Cached(caches, r);
      && (other in n <==> other in caches) && (other in caches ==> n[other] == caches[other])
      && (if r.maxLastModified.Some? && r.rows.Some?
             && !(r.projectID in caches && caches[r.projectID].maxLastModified == r.maxLastModified.value)
          then r.projectID in n && n[r.projectID] == Cache(r.maxLastModified.value, ByID(r.rows.value))
          else n == caches)
  {
  }

  // ---------------------------------------------------------------------------------------------
  // The browser's own marks.

  function ReadMark(nodes: seq<Node>, id: string): Option<bool> {
    if Lookup(nodes, id).Some? then Lookup(nodes, id).value.flagReaded else None
  }

  /** A task that is sent loses its archived mark and keeps its read mark. */
  lemma {:induction false} UpsertMarks(nodes: seq<Node>, wire: seq<WireNode>, id: string)
    ensures var n := UpsertedAll(nodes, wire);
      && ReadMark(n, id) == ReadMark(nodes, id)
      && (Lookup(n, id).Some? <==> Lookup(nodes, id).Some? || exists w :: w in wire && w.taskID == id)
      && (Lookup(n, id).Some? ==>
        (Lookup(n, id).value.archived <==>
          Lookup(nodes, id).Some? && Lookup(nodes, id).value.archived && forall w :: w in wire ==> w.taskID != id))
  {
    hide Lookup, Upserted;
    if wire != [] {
      var init, last := wire[..|wire| - 1], wire[|wire| - 1];
      UpsertMarks(nodes, init, id);
      UpsertLookup(UpsertedAll(nodes, init), ToTaskNode(last), id);
      assert forall w :: w in wire <==> w in init || w == last;
    }
  }

  lemma MoveMarks(nodes: seq<Node>, r: Reparent, id: string)
    ensures Lookup(Moved(nodes, r), id).Some? <==> Lookup(nodes, id).Some?
    ensures Lookup(nodes, id).Some? ==>
      && Lookup(Moved(nodes, r), id).value.flagReaded == Lookup(nodes, id).value.flagReaded
      && Lookup(Moved(nodes, r), id).value.archived == Lookup(nodes, id).value.archived
  {
    hide JsTrim;
    var t := Moved(nodes, r);
    assert |t| == |nodes| && forall k :: 0 <= k < |nodes| ==>
      t[k].taskID == nodes[k].taskID && t[k].flagReaded == nodes[k].flagReaded && t[k].archived == nodes[k].archived;
    SameIDsFound(nodes, t, id);
  }

  lemma {:induction false} SameIDsFound(a: seq<Node>, b: seq<Node>, id: string)
    requires |a| == |b| && forall k :: 0 <= k < |a| ==> a[k].taskID == b[k].taskID
    ensures FindIndex(a, id) == FindIndex(b, id)
  {
    if a != [] {
      SameIDsFound(a[1..], b[1..], id);
    }
  }

  lemma {:induction false} MoveAllMarks(nodes: seq<Node>, rs: seq<Reparent>, id: string)
    ensures Lookup(MovedAll(nodes, rs), id).Some? <==> Lookup(nodes, id).Some?
    ensures Lookup(nodes, id).Some? ==>
      && Lookup(MovedAll(nodes, rs), id).value.flagReaded == Lookup(nodes, id).value.flagReaded
      && Lookup(MovedAll(nodes, rs), id).value.archived == Lookup(nodes, id).value.archived
  {
    hide Lookup, Moved;
    if rs != [] {
      MoveAllMarks(nodes, rs[..|rs| - 1], id);
      MoveMarks(MovedAll(nodes, rs[..|rs| - 1]), rs[|rs| - 1], id);
    }
  }

  /** Whatever a delta says, a task that it does not remove keeps its read mark; a removed one loses it. */
  lemma PatchKeepsReadMark(nodes: seq<Node>, d: Delta, id: string)
    ensures ReadMark(Patched(nodes, d), id) == if id in NamedIDs(d.removed) then None else ReadMark(nodes, id)
    ensures var n, sent := Patched(nodes, d), exists w :: (w in d.added || w in d.updated) && w.taskID == id;
      Lookup(n, id).Some? ==>
        (Lookup(n, id).value.archived <==> !sent && Lookup(nodes, id).Some? && Lookup(nodes, id).value.archived)
  {
    hide Lookup, Keep, UpsertedAll, MovedAll, NamedIDs;
    var kept := Keep(nodes, NamedIDs(d.removed));
    var grown := UpsertedAll(kept, d.added);
    KeepLookup(nodes, NamedIDs(d.removed), id);
    UpsertMarks(kept, d.added, id);
    UpsertMarks(grown, d.updated, id);
    MoveAllMarks(UpsertedAll(grown, d.updated), d.reparented, id);
  }

  /** Over any run of deltas, a task keeps its read mark while no delta of its project removes it. */
  lemma {:induction false} ReadMarkStays(trees: Trees, deltas: seq<Delta>, projectID: string, id: string)
    requires forall d :: d in deltas && JsTrim(d.projectID) == projectID ==> id !in NamedIDs(d.removed)
    ensures ReadMark(Nodes(AppliedAll(trees, deltas), projectID), id) == ReadMark(Nodes(trees, projectID), id)
  {
    hide ReadMark, Patched, JsTrim, NamedIDs;
    if deltas != [] {
      var init, d := deltas[..|deltas| - 1], deltas[|deltas| - 1];
      assert d in deltas && forall e :: e in init ==> e in deltas;
      ReadMarkStays(trees, init, projectID, id);
      PatchKeepsReadMark(Nodes(AppliedAll(trees, init), projectID), d, id);
    }
  }
}
