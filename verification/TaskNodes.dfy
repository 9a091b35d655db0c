/** The browser's half of the task tree: the node lists of the projects, patched by deltas. */
module TaskNodes {
  import opened Strings
  import opened TaskTree
  import opened Wrappers

  /** A task as shown; `flagReaded` belongs to the browser. */
  datatype Node = Node(taskID: string, parentTaskID: Option<string>, title: string, currentCommand: string,
                       description: string, flag: Option<string>, flagDesc: string, flagReaded: Option<bool>,
                       checked: bool, archived: bool, status: Option<string>, updatedAt: int)

  type Trees = map<string, seq<Node>>

  function OrEmpty(s: Option<string>): string {
    if s.Some? then s.value else ""
  }

  /**
    Deltas do not carry the read mark.  They carry the time of the last change as `last_modified`; the
    browser looks for `updated_at`, and takes 0 where there is none.
   */
  function ToTaskNode(n: WireNode): Node {
    Node(n.taskID, n.parentTaskID, n.title, OrEmpty(n.currentCommand), OrEmpty(n.description),
         n.flag, OrEmpty(n.flagDesc), None, n.checked, false, n.status, 0)
  }

  /** The fields of `node` over those of `prev`; a read mark that was not sent stays. */
  function Merged(prev: Node, node: Node): Node {
    if node.flagReaded.Some? then node else node.(flagReaded := prev.flagReaded)
  }

  function FindIndex(nodes: seq<Node>, id: string): (i: Option<nat>)
    ensures i.Some? ==>
      && i.value < |nodes| && nodes[i.value].taskID == id
      && forall k :: 0 <= k < i.value ==> nodes[k].taskID != id
    ensures i.None? ==> forall n :: n in nodes ==> n.taskID != id
  {
    if nodes == [] then None
    else if nodes[0].taskID == id then Some(0)
    else
      var rest := FindIndex(nodes[1..], id);
      if rest.Some? then Some(rest.value + 1) else None
  }

  function Keep(nodes: seq<Node>, removed: set<string>): seq<Node> {
    if nodes == [] then []
    else (if nodes[0].taskID in removed then [] else [nodes[0]]) + Keep(nodes[1..], removed)
  }

  function NamedIDs(ids: seq<string>): set<string> {
    (set id | id in ids :: JsTrim(id)) - {""}
  }

  function Upserted(nodes: seq<Node>, node: Node): seq<Node> {
    var i := FindIndex(nodes, node.taskID);
    if i.Some? then nodes[i.value := Merged(nodes[i.value], node)] else nodes + [node]
  }

  function UpsertedAll(nodes: seq<Node>, wire: seq<WireNode>): seq<Node> {
    if wire == [] then nodes else Upserted(UpsertedAll(nodes, wire[..|wire| - 1]), ToTaskNode(wire[|wire| - 1]))
  }

  function Moved(nodes: seq<Node>, r: Reparent): seq<Node> {
    var id := JsTrim(r.taskID);
    var i := FindIndex(nodes, id);
    if id == "" || i.None? then nodes
    else nodes[i.value := nodes[i.value].(parentTaskID := Sent(JsTrim(OrEmpty(r.newParentTaskID))))]
  }

  function MovedAll(nodes: seq<Node>, reparented: seq<Reparent>): seq<Node> {
    if reparented == [] then nodes
    else Moved(MovedAll(nodes, reparented[..|reparented| - 1]), reparented[|reparented| - 1])
  }

  function Patched(nodes: seq<Node>, d: Delta): seq<Node> {
    MovedAll(UpsertedAll(UpsertedAll(Keep(nodes, NamedIDs(d.removed)), d.added), d.updated), d.reparented)
  }

  function Nodes(trees: Trees, projectID: string): seq<Node> {
    if projectID in trees then trees[projectID] else []
  }

  function Applied(trees: Trees, d: Delta): Trees {
    var projectID := JsTrim(d.projectID);
    if projectID == "" then trees else trees[projectID := Patched(Nodes(trees, projectID), d)]
  }

  function AppliedAll(trees: Trees, deltas: seq<Delta>): Trees {
    if deltas == [] then trees else Applied(AppliedAll(trees, deltas[..|deltas| - 1]), deltas[|deltas| - 1])
  }

  method UpsertNodes(before: seq<Node>, wire: seq<WireNode>) returns (nodes: seq<Node>)
    ensures nodes == UpsertedAll(before, wire)
  {
    nodes := before;
    for n := 0 to |wire|
      invariant nodes == UpsertedAll(before, wire[..n])
    {
      var node := ToTaskNode(wire[n]);
      var i := FindIndex(nodes, node.taskID);
      if i.Some? {
        nodes := nodes[i.value := Merged(nodes[i.value], node)];
      } else {
        nodes := nodes + [node];
      }
      assert wire[..n + 1][..n] == wire[..n];
    }
    assert wire[..|wire|] == wire;
  }

  method MoveNodes(before: seq<Node>, reparented: seq<Reparent>) returns (nodes: seq<Node>)
    ensures nodes == MovedAll(before, reparented)
  {
    nodes := before;
    for n := 0 to |reparented|
      invariant nodes == MovedAll(before, reparented[..n])
    {
      assert reparented[..n + 1][..n] == reparented[..n];
      var taskID := JsTrim(reparented[n].taskID);
      if taskID == "" {
        continue;
      }
      var i := FindIndex(nodes, taskID);
      if i.None? {
        continue;
      }
      nodes := nodes[i.value := nodes[i.value].(parentTaskID := Sent(JsTrim(OrEmpty(reparented[n].newParentTaskID))))];
    }
    assert reparented[..|reparented|] == reparented;
  }

  method PatchNodes(before: seq<Node>, delta: Delta) returns (nodes: seq<Node>)
    ensures nodes == Patched(before, delta)
  {
    hide UpsertedAll, MovedAll, NamedIDs, Keep;
    nodes := before;
    var removed := NamedIDs(delta.removed);
    KeepAll(nodes);
    if removed != {} {
      nodes := Keep(nodes, removed);
    }
    nodes := UpsertNodes(nodes, delta.added);
    nodes := UpsertNodes(nodes, delta.updated);
    nodes := MoveNodes(nodes, delta.reparented);
  }

  lemma OneMoreApplied(trees: Trees, deltas: seq<Delta>, n: nat)
    requires n < |deltas|
    ensures AppliedAll(trees, deltas[..n + 1]) == Applied(AppliedAll(trees, deltas[..n]), deltas[n])
  {
    assert deltas[..n + 1][..n] == deltas[..n];
  }

  class Shell {
    var treesByProject: Trees

    constructor ()
      ensures treesByProject == map[]
    {
      treesByProject := map[];
    }

    method ApplyTreeDelta(deltas: seq<Delta>)
      modifies this
      ensures treesByProject == AppliedAll(old(treesByProject), deltas)
    {
      for n := 0 to |deltas|
        invariant treesByProject == AppliedAll(old(treesByProject), deltas[..n])
      {
        hide Patched, JsTrim, AppliedAll;
        OneMoreApplied(old(treesByProject), deltas, n);
        var delta := deltas[n];
        var projectID := JsTrim(delta.projectID);
        if projectID == "" {
          continue;
        }
        var nodes := PatchNodes(if projectID in treesByProject then treesByProject[projectID] else [], delta);
        treesByProject := treesByProject[projectID := nodes];
      }
      assert deltas[..|deltas|] == deltas;
    }
  }

  lemma {:induction false} KeepAll(nodes: seq<Node>)
    ensures Keep(nodes, {}) == nodes
  {
    if nodes != [] {
      KeepAll(nodes[1..]);
    }
  }
}
