/** Where the browser's task tree does not follow the server: ids with white space, and the time of the last change. */
module TreeLimits {
  import opened Strings
  import opened TaskNodes
  import opened TaskTree
  import opened TreeSync
  import opened Wrappers

  function Bare(id: string): Row {
    Row(id, "", "", "", "", "", "", false, "", 0)
  }

  function Come(p: string, id: string): Step {
    Step(Reading(p, Some(1), Some([Bare(id)])), Some(Delta(p, [NodeOf(Bare(id))], [], [], [])))
  }

  function Go(p: string, id: string): Step {
    Step(Reading(p, Some(2), Some([])), Some(Delta(p, [], [id], [], [])))
  }

  lemma ComeIsStep(p: string, id: string)
    ensures IsStep(map[], Come(p, id)) && Cached(map[], Come(p, id).reading) == map[p := Cache(1, map[id := Bare(id)])]
  {
    hide Trim, HasRowContentChanged, HasMoved;
    assert [Bare(id)][..0] == [] && ByID([Bare(id)]) == map[id := Bare(id)];
    assert IsDelta(p, map[], map[id := Bare(id)], Come(p, id).sent.value);
  }

  lemma GoIsStep(p: string, id: string)
    ensures var caches := map[p := Cache(1, map[id := Bare(id)])];
      IsStep(caches, Go(p, id)) && Cached(caches, Go(p, id).reading) == map[p := Cache(2, map[])]
  {
    hide Trim, HasRowContentChanged, HasMoved;
    assert IsDelta(p, map[id := Bare(id)], map[], Go(p, id).sent.value);
  }

  /** A task that comes, and one that comes and goes, are runs. */
  lemma ComeAndGoAreRuns(projects: set<string>, ids: set<string>, p: string, id: string)
    requires p in projects && id in ids
    ensures IsRunOver(projects, ids, [Come(p, id)]) && IsRunOver(projects, ids, [Come(p, id), Go(p, id)])
    ensures CachesAfter(map[], [Come(p, id)]) == map[p := Cache(1, map[id := Bare(id)])]
    ensures CachesAfter(map[], [Come(p, id), Go(p, id)]) == map[p := Cache(2, map[])]
    ensures DeltasSent([Come(p, id)]) == [Come(p, id).sent.value]
    ensures DeltasSent([Come(p, id), Go(p, id)]) == [Come(p, id).sent.value, Go(p, id).sent.value]
  {
    hide IsStep, Cached;
    ComeIsStep(p, id);
    GoIsStep(p, id);
    assert [] + [Come(p, id)] == [Come(p, id)] && [Come(p, id)] + [Go(p, id)] == [Come(p, id), Go(p, id)];
    OneMoreStep(map[], [], Come(p, id));
    OneMoreStep(map[], [Come(p, id)], Go(p, id));
  }

  lemma PatchesCome(p: string, id: string)
    ensures Patched([], Come(p, id).sent.value) == [ToTaskNode(NodeOf(Bare(id)))]
  {
    hide JsTrim, ToTaskNode, NodeOf;
    var wire := [NodeOf(Bare(id))];
    KeepAll([]);
    assert NamedIDs([]) == {} && wire[..0] == [];
    assert UpsertedAll([], wire) == [ToTaskNode(wire[0])];
  }

  lemma PatchesGo(p: string, id: string)
    requires !IsPlain(id)
    ensures var node := ToTaskNode(NodeOf(Bare(id))); Patched([node], Go(p, id).sent.value) == [node]
  {
    hide JsTrim;
    var node := ToTaskNode(NodeOf(Bare(id)));
    assert id !in NamedIDs([id]) && [node][1..] == [];
    assert Keep([node], NamedIDs([id])) == [node];
  }

  lemma AppliedTwo(trees: Trees, d: Delta, e: Delta)
    ensures AppliedAll(trees, [d]) == Applied(trees, d) && AppliedAll(trees, [d, e]) == Applied(Applied(trees, d), e)
  {
    hide Applied;
    assert [d][..0] == [] && [d, e][..1] == [d];
  }

  /** The browser strips the ids it removes: another id than the one on the list, or none. */
  lemma OddIDStays(projects: set<string>, ids: set<string>, p: string, id: string)
    requires p in projects && id in ids && IsPlain(p) && !IsPlain(id)
    ensures !InStep([Come(p, id), Go(p, id)])
  {
    hide JsTrim, Patched, AppliedAll, DeltasSent, CachesAfter, ToTaskNode, NodeOf;
    var come, go, node := Come(p, id).sent.value, Go(p, id).sent.value, ToTaskNode(NodeOf(Bare(id)));
    ComeAndGoAreRuns(projects, ids, p, id);
    PatchesCome(p, id);
    PatchesGo(p, id);
    AppliedTwo(map[], come, go);
    assert AppliedAll(map[], [come, go])[p] == [node];
    NodeOfBare(id);
    assert !AgreeAt([node], map[], id);
    assert CachedRows(CachesAfter(map[], [Come(p, id), Go(p, id)]), p) == map[];
    assert !Agree([node], map[]);
  }

  lemma NodeOfBare(id: string)
    ensures ToTaskNode(NodeOf(Bare(id))).taskID == id && Lookup([ToTaskNode(NodeOf(Bare(id)))], id).Some?
  {
  }

  /** The browser strips the project's id too, and files the tasks under what is left, or nowhere. */
  lemma OddProjectIsMissed(projects: set<string>, ids: set<string>, p: string, id: string)
    requires p in projects && id in ids && !IsPlain(p)
    ensures !InStep([Come(p, id)])
  {
    hide JsTrim, Patched, AppliedAll, DeltasSent, CachesAfter;
    var come := Come(p, id).sent.value;
    ComeAndGoAreRuns(projects, ids, p, id);
    AppliedTwo(map[], come, come);
    assert Nodes(AppliedAll(map[], [come]), p) == [];
    assert !AgreeAt([], map[id := Bare(id)], id);
  }

  /**
    The browser follows every run over given projects and tasks exactly when their ids are not empty
    and its own trimming leaves them alone.
   */
  lemma StaysInStepIff(projects: set<string>, ids: set<string>)
    requires projects != {} && ids != {}
    ensures (forall steps :: IsRunOver(projects, ids, steps) ==> InStep(steps)) <==> AllPlain(projects) && AllPlain(ids)
  {
    hide IsRunOver, InStep, Come, Go, IsPlain;
    if AllPlain(projects) && AllPlain(ids) {
      forall steps | IsRunOver(projects, ids, steps) ensures InStep(steps) {
        BrowserShowsCachedRows(projects, ids, steps);
      }
    } else if !AllPlain(projects) {
      var p :| p in projects && !IsPlain(p);
      var id :| id in ids;
      ComeAndGoAreRuns(projects, ids, p, id);
      OddProjectIsMissed(projects, ids, p, id);
    } else {
      var id :| id in ids && !IsPlain(id);
      var p :| p in projects;
      ComeAndGoAreRuns(projects, ids, p, id);
      OddIDStays(projects, ids, p, id);
    }
  }

  // ---------------------------------------------------------------------------------------------
  // The time of the last change.

  ghost predicate AreUndated(nodes: seq<Node>) {
    forall n :: n in nodes ==> n.updatedAt == 0
  }

  lemma {:induction false} KeepUndated(nodes: seq<Node>, removed: set<string>)
    requires AreUndated(nodes)
    ensures AreUndated(Keep(nodes, removed))
  {
    if nodes != [] {
      assert nodes[0] in nodes && forall n :: n in nodes[1..] ==> n in nodes;
      KeepUndated(nodes[1..], removed);
    }
  }

  lemma {:induction false} UpsertUndated(nodes: seq<Node>, wire: seq<WireNode>)
    requires AreUndated(nodes)
    ensures AreUndated(UpsertedAll(nodes, wire))
  {
    if wire != [] {
      UpsertUndated(nodes, wire[..|wire| - 1]);
      assert ToTaskNode(wire[|wire| - 1]).updatedAt == 0;
    }
  }

  lemma {:induction false} MoveUndated(nodes: seq<Node>, rs: seq<Reparent>)
    requires AreUndated(nodes)
    ensures AreUndated(MovedAll(nodes, rs))
  {
    hide JsTrim;
    if rs != [] {
      MoveUndated(nodes, rs[..|rs| - 1]);
    }
  }

  lemma PatchUndated(nodes: seq<Node>, d: Delta)
    requires AreUndated(nodes)
    ensures AreUndated(Patched(nodes, d))
  {
    hide AreUndated, Keep, UpsertedAll, MovedAll;
    KeepUndated(nodes, NamedIDs(d.removed));
    UpsertUndated(Keep(nodes, NamedIDs(d.removed)), d.added);
    UpsertUndated(UpsertedAll(Keep(nodes, NamedIDs(d.removed)), d.added), d.updated);
    MoveUndated(UpsertedAll(UpsertedAll(Keep(nodes, NamedIDs(d.removed)), d.added), d.updated), d.reparented);
  }

  /** Whatever deltas come, no node of the browser ever has a time. */
  lemma {:induction false} NodesAreUndated(deltas: seq<Delta>, projectID: string)
    ensures AreUndated(Nodes(AppliedAll(map[], deltas), projectID))
  {
    hide AreUndated, Patched, JsTrim;
    if deltas == [] {
      NothingIsUndated();
    } else {
      var init, d := deltas[..|deltas| - 1], deltas[|deltas| - 1];
      NodesAreUndated(init, projectID);
      NodesAreUndated(init, JsTrim(d.projectID));
      PatchUndated(Nodes(AppliedAll(map[], init), JsTrim(d.projectID)), d);
    }
  }

  lemma NothingIsUndated()
    ensures AreUndated([])
  {
  }

  /** So a node shows the time its row was last modified exactly when the row has none either. */
  lemma TimeIsShownIff(projects: set<string>, ids: set<string>, steps: seq<Step>, projectID: string, id: string)
    requires AllPlain(projects) && AllPlain(ids) && IsRunOver(projects, ids, steps)
    requires id in CachedRows(CachesAfter(map[], steps), projectID)
    ensures var nodes, row := Nodes(AppliedAll(map[], DeltasSent(steps)), projectID),
      CachedRows(CachesAfter(map[], steps), projectID)[id];
      Lookup(nodes, id).Some? && (Lookup(nodes, id).value.updatedAt == row.lastModified <==> row.lastModified == 0)
  {
    hide AppliedAll, CachesAfter, DeltasSent, IsRunOver, Shows, FindIndex;
    BrowserShowsCachedRows(projects, ids, steps);
    var nodes := Nodes(AppliedAll(map[], DeltasSent(steps)), projectID);
    NodesAreUndated(DeltasSent(steps), projectID);
    assert AgreeAt(nodes, CachedRows(CachesAfter(map[], steps), projectID), id);
    assert Lookup(nodes, id).value in nodes;
  }
}
