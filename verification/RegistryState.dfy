/** The registry's state as values: who watches what, who is subscribed where, over runs of operations. */
module RegistryState {
  import opened RecencyList
  import opened ConnActor

  /** Watch order per connection, subscriber set per pane, and the targets that have a status item. */
  datatype Registry = Registry(watch: map<string, seq<string>>, subs: map<string, set<string>>, items: set<string>)

  const Empty := Registry(map[], map[], {})

  function WatchOf(r: Registry, conn: string): seq<string> {
    if conn in r.watch then r.watch[conn] else []
  }

  function SubsOf(r: Registry, target: string): set<string> {
    if target in r.subs then r.subs[target] else {}
  }

  function WithConn(r: Registry, conn: string): Registry {
    if conn in r.watch then r else r.(watch := r.watch[conn := []])
  }

  /** A pane is created with a status item, unless there is no tmux service yet. */
  function WithPane(r: Registry, target: string, configured: bool): Registry {
    if target in r.subs || !configured then r else r.(subs := r.subs[target := {}], items := r.items + {target})
  }

  function Enrolled(r: Registry, conn: string, target: string): Registry {
    if target in r.subs then r.(subs := r.subs[target := r.subs[target] + {conn}]) else r
  }

  function Dismissed(r: Registry, conn: string, target: string): Registry {
    if target in r.subs then r.(subs := r.subs[target := r.subs[target] - {conn}]) else r
  }

  function Subscribed(r: Registry, conn: string, target: string, configured: bool): Registry {
    if conn == "" || target == "" then r
    else
      var r1 := WithConn(r, conn);
      var evicted := Evicted(r1.watch[conn], target, ACTIVE_PANE_WATCH_LIMIT);
      var r2 := r1.(watch := r1.watch[conn := Watching(r1.watch[conn], target, ACTIVE_PANE_WATCH_LIMIT)]);
      var r3 := Enrolled(WithPane(r2, target, configured), conn, target);
      if evicted != "" && evicted != target then Dismissed(r3, conn, evicted) else r3
  }

  function Closed(r: Registry, target: string): Registry {
    if target == "" || (target !in r.subs && target !in r.items) then r
    else Registry(map c | c in r.watch :: Without(r.watch[c], target), r.subs - {target}, r.items - {target})
  }

  function StatusUpdated(r: Registry, target: string): Registry {
    if target == "" then r else r.(items := r.items + {target})
  }

  /** Watching and being subscribed are the same relation, and the bookkeeping around it is sound. */
  ghost predicate Consistent(r: Registry) {
    && (forall c, t :: t in WatchOf(r, c) <==> c in SubsOf(r, t))
    && (forall c :: c in r.watch ==>
      NoDuplicates(r.watch[c]) && |r.watch[c]| <= ACTIVE_PANE_WATCH_LIMIT && "" !in r.watch[c])
    && r.subs.Keys <= r.items
  }

  lemma PaneKeeps(r: Registry, target: string, configured: bool)
    requires Consistent(r)
    ensures Consistent(WithPane(r, target, configured))
  {
    var n := WithPane(r, target, configured);
    assert forall t :: SubsOf(n, t) == SubsOf(r, t);
    assert forall c :: WatchOf(n, c) == WatchOf(r, c);
  }

  lemma ConnKeeps(r: Registry, conn: string)
    requires Consistent(r)
    ensures Consistent(WithConn(r, conn))
  {
    var n := WithConn(r, conn);
    assert forall t :: SubsOf(n, t) == SubsOf(r, t);
    assert forall c :: WatchOf(n, c) == WatchOf(r, c);
  }

  /** The connection watches what it should after a subscription, and the others what they did. */
  lemma {:induction false} SubscribedWatch(r: Registry, conn: string, target: string, configured: bool)
    requires conn != "" && target != ""
    ensures var n, next := Subscribed(r, conn, target, configured),
      Watching(WatchOf(r, conn), target, ACTIVE_PANE_WATCH_LIMIT);
      && n.watch == r.watch[conn := next]
      && n.subs.Keys <= r.subs.Keys + {target} && n.items >= r.items
      && (target in n.subs ==> target in r.subs || target in n.items)
      && (configured || target in r.subs <==> target in n.subs)
  {
    hide Watching, Evicted;
    var next := Watching(WatchOf(r, conn), target, ACTIVE_PANE_WATCH_LIMIT);
    var watched := WithConn(r, conn).(watch := WithConn(r, conn).watch[conn := next]);
    assert watched.watch == r.watch[conn := next];
    EnrolledKeys(WithPane(watched, target, configured), conn, target);
    EnrolledKeys(Enrolled(WithPane(watched, target, configured), conn, target), conn,
      Evicted(WatchOf(r, conn), target, ACTIVE_PANE_WATCH_LIMIT));
    hide Enrolled, Dismissed;
  }

  lemma EnrolledKeys(r: Registry, conn: string, target: string)
    ensures var n := Enrolled(r, conn, target); n.watch == r.watch && n.items == r.items && n.subs.Keys == r.subs.Keys
    ensures var n := Dismissed(r, conn, target); n.watch == r.watch && n.items == r.items && n.subs.Keys == r.subs.Keys
  {
  }

  /** A subscription keeps the relation exactly when its pane exists or can be created. */
  lemma SubscribeKeepsIff(r: Registry, conn: string, target: string, configured: bool)
    requires Consistent(r) && conn != "" && target != ""
    ensures Consistent(Subscribed(r, conn, target, configured)) <==> configured || target in r.subs
  {
    hide Subscribed, Watching, Evicted;
    var order, n := WatchOf(r, conn), Subscribed(r, conn, target, configured);
    var next := Watching(order, target, ACTIVE_PANE_WATCH_LIMIT);
    EvictionIsExact(order, target, ACTIVE_PANE_WATCH_LIMIT);
    SubscribedWatch(r, conn, target, configured);
    assert target in Elements(next);
    if configured || target in r.subs {
      forall c, t
        ensures t in WatchOf(n, c) <==> c in SubsOf(n, t)
      {
        WatchedThenSubscribed(r, conn, target, configured, c, t);
      }
      assert n.subs.Keys <= n.items;
    } else {
      assert target in WatchOf(n, conn) && conn !in SubsOf(n, target);
    }
  }

  lemma {:induction false} SubscribedParts(r: Registry, conn: string, target: string, configured: bool, c: string,
      t: string)
    requires conn != "" && target != "" && (configured || target in r.subs)
    requires Evicted(WatchOf(r, conn), target, ACTIVE_PANE_WATCH_LIMIT) != target
    ensures var n := Subscribed(r, conn, target, configured);
      var evicted := Evicted(WatchOf(r, conn), target, ACTIVE_PANE_WATCH_LIMIT);
      && WatchOf(n, c) ==
         (if c == conn then Watching(WatchOf(r, conn), target, ACTIVE_PANE_WATCH_LIMIT) else WatchOf(r, c))
      && SubsOf(n, t) ==
         SubsOf(r, t) + (if t == target then {conn} else {}) - (if evicted != "" && t == evicted then {conn} else {})
  {
    hide Evicted, Watching;
  }

  lemma WatchedThenSubscribed(r: Registry, conn: string, target: string, configured: bool, c: string, t: string)
    requires Consistent(r) && conn != "" && target != "" && (configured || target in r.subs)
    ensures var n := Subscribed(r, conn, target, configured);
      t in WatchOf(n, c) <==> c in SubsOf(n, t)
  {
    hide Subscribed, Watching, Evicted;
    var order := WatchOf(r, conn);
    EvictionIsExact(order, target, ACTIVE_PANE_WATCH_LIMIT);
    var next := Watching(order, target, ACTIVE_PANE_WATCH_LIMIT);
    assert t in next <==> t in Elements(next);
    assert t in order <==> t in Elements(order);
    SubscribedParts(r, conn, target, configured, c, t);
    assert t in WatchOf(r, c) <==> c in SubsOf(r, t);
  }

  lemma {:induction false} CloseKeeps(r: Registry, target: string)
    requires Consistent(r)
    ensures Consistent(Closed(r, target))
    ensures target != "" ==>
      forall c :: target !in WatchOf(Closed(r, target), c) && c !in SubsOf(Closed(r, target), target)
  {
    var n := Closed(r, target);
    if target != "" && !(target !in r.subs && target !in r.items) {
      forall c | c in r.watch
        ensures NoDuplicates(n.watch[c]) && |n.watch[c]| <= |r.watch[c]|
        ensures forall t :: t in n.watch[c] <==> t in r.watch[c] && t != target
      {
        WithoutKeeps(r.watch[c], target);
        assert forall t :: t in n.watch[c] <==> t in Elements(n.watch[c]);
      }
      forall c, t
        ensures t in WatchOf(n, c) <==> c in SubsOf(n, t)
      {
        assert t in WatchOf(r, c) <==> c in SubsOf(r, t);
      }
    }
    assert forall c :: target in WatchOf(r, c) <==> c in SubsOf(r, target);
  }

  // ---------------------------------------------------------------------------------------------
  // What the operations leave alone.

  /** `x` is somewhere before `y`. */
  predicate ComesBefore(s: seq<string>, x: string, y: string) {
    exists i, k :: 0 <= i < k < |s| && s[i] == x && s[k] == y
  }

  lemma ComesBeforeFirst(s: seq<string>, x: string, y: string)
    requires s != []
    ensures ComesBefore(s, x, y) <==> (s[0] == x && y in s[1..]) || ComesBefore(s[1..], x, y)
  {
    if i, k :| 0 <= i < k < |s| && s[i] == x && s[k] == y {
      assert s[1..][k - 1] == y && (i > 0 ==> s[1..][i - 1] == x);
    }
    if s[0] == x && y in s[1..] {
      var k :| 0 <= k < |s| - 1 && s[1..][k] == y;
      assert s[0] == x && s[k + 1] == y;
    }
    if i, k :| 0 <= i < k < |s| - 1 && s[1..][i] == x && s[1..][k] == y {
      assert s[i + 1] == x && s[k + 1] == y;
    }
  }

  /** Taking `t` out keeps the others, in their order. */
  lemma {:induction false} WithoutLeaves(s: seq<string>, t: string, x: string, y: string)
    requires x != t && y != t
    ensures y in Without(s, t) <==> y in s
    ensures ComesBefore(Without(s, t), x, y) <==> ComesBefore(s, x, y)
  {
    hide ComesBefore, Without;
    if s == [] {
      WithoutNothing(t);
    } else {
      WithoutLeaves(s[1..], t, x, y);
      WithoutFirst(s, t);
      ComesBeforeFirst(s, x, y);
      var rest := Without(s[1..], t);
      if s[0] != t {
        ComesBeforeFirst([s[0]] + rest, x, y);
        assert ([s[0]] + rest)[1..] == rest;
      } else {
        assert [] + rest == rest;
      }
    }
  }

  /**
    Closing a pane takes it out of everything, and leaves alone which other panes every connection watches
    and in which order, who is subscribed to them, and their status items.
   */
  lemma {:induction false} CloseLeavesOthers(r: Registry, target: string, conn: string, x: string, y: string)
    requires x != target && y != target
    ensures var n := Closed(r, target);
      && (conn in n.watch <==> conn in r.watch)
      && (y in WatchOf(n, conn) <==> y in WatchOf(r, conn))
      && (ComesBefore(WatchOf(n, conn), x, y) <==> ComesBefore(WatchOf(r, conn), x, y))
      && (y in n.subs <==> y in r.subs) && SubsOf(n, y) == SubsOf(r, y)
      && (y in n.items <==> y in r.items)
      && (target != "" ==> target !in n.subs && target !in n.items)
  {
    hide ComesBefore;
    WithoutLeaves(WatchOf(r, conn), target, x, y);
  }

  /**
    A subscription makes its pane the last one the connection watches and keeps the order of the others; it
    leaves alone what other connections watch and where they are subscribed, and every pane but its own and
    the one pushed out.
   */
  lemma {:induction false} SubscribeLeavesOthers(r: Registry, conn: string, target: string, configured: bool,
      other: string, x: string, y: string)
    requires Consistent(r) && conn != "" && target != "" && other != conn && x != target && y != target
    ensures var n := Subscribed(r, conn, target, configured);
      var evicted := Evicted(WatchOf(r, conn), target, ACTIVE_PANE_WATCH_LIMIT);
      && WatchOf(n, other) == WatchOf(r, other) && (other in SubsOf(n, y) <==> other in SubsOf(r, y))
      && (y != evicted ==> SubsOf(n, y) == SubsOf(r, y) && (y in WatchOf(n, conn) <==> y in WatchOf(r, conn)))
      && (y in n.items <==> y in r.items)
      && WatchOf(n, conn) != [] && WatchOf(n, conn)[|WatchOf(n, conn)| - 1] == target
      && (x != evicted && y != evicted ==>
        (ComesBefore(WatchOf(n, conn), x, y) <==> ComesBefore(WatchOf(r, conn), x, y)))
  {
    hide ComesBefore, Watching, Evicted, Consistent, Subscribed;
    ConsistentOrder(r, conn);
    WatchingLeaves(WatchOf(r, conn), target, ACTIVE_PANE_WATCH_LIMIT, x, y);
    SubscribedWatch(r, conn, target, configured);
    SubscribedElsewhere(r, conn, target, configured, y);
  }

  lemma ConsistentOrder(r: Registry, conn: string)
    requires Consistent(r)
    ensures NoDuplicates(WatchOf(r, conn)) && |WatchOf(r, conn)| <= ACTIVE_PANE_WATCH_LIMIT && "" !in WatchOf(r, conn)
  {
  }

  lemma SubscribedElsewhere(r: Registry, conn: string, target: string, configured: bool, y: string)
    requires conn != "" && target != "" && y != target
    ensures var n, evicted := Subscribed(r, conn, target, configured),
      Evicted(WatchOf(r, conn), target, ACTIVE_PANE_WATCH_LIMIT);
      && SubsOf(n, y) == SubsOf(r, y) - (if evicted != "" && y == evicted then {conn} else {})
      && (y in n.items <==> y in r.items)
  {
    hide Watching, Evicted;
  }

  /** Selecting a pane makes it the last one, and keeps the others in their order but for the one pushed out. */
  lemma WatchingLeaves(order: seq<string>, target: string, limit: nat, x: string, y: string)
    requires NoDuplicates(order) && |order| <= limit && 0 < limit && "" !in order && target != ""
    requires x != target && y != target
    ensures var next, evicted := Watching(order, target, limit), Evicted(order, target, limit);
      && next != [] && next[|next| - 1] == target
      && (y != evicted ==> (y in next <==> y in order))
      && (x != evicted && y != evicted ==> (ComesBefore(next, x, y) <==> ComesBefore(order, x, y)))
  {
    hide ComesBefore, Without, Elements;
    WithoutKeeps(order, target);
    WithoutLeaves(order, target, x, y);
    WithoutLeaves(order, target, y, y);
    var kept := Without(order, target);
    AppendedOrder(kept, target, x, y);
    if |kept| + 1 > limit {
      ComesBeforeFirst(kept + [target], x, y);
      assert kept + [target] == [kept[0]] + (kept + [target])[1..];
    }
  }

  lemma AppendedOrder(s: seq<string>, t: string, x: string, y: string)
    requires x != t && y != t
    ensures y in s + [t] <==> y in s
    ensures ComesBefore(s + [t], x, y) <==> ComesBefore(s, x, y)
  {
    assert forall i :: 0 <= i < |s| ==> (s + [t])[i] == s[i];
  }

  /** A status update gives its pane a status item and changes nothing else. */
  lemma StatusLeavesOthers(r: Registry, target: string, y: string)
    ensures var n := StatusUpdated(r, target);
      n.watch == r.watch && n.subs == r.subs && (y in n.items <==> y in r.items || y == target != "")
  {
  }

  datatype Op =
    | OpenConn(conn: string)
    | OpenPane(target: string)
    | Subscribe(conn: string, target: string)
    | PaneClosed(target: string)
    | PaneStatus(target: string)

  function Apply(r: Registry, op: Op): Registry {
    match op
    case OpenConn(c) => WithConn(r, c)
    case OpenPane(t) => WithPane(r, t, true)
    case Subscribe(c, t) => Subscribed(r, c, t, true)
    case PaneClosed(t) => Closed(r, t)
    case PaneStatus(t) => StatusUpdated(r, t)
  }

  function After(ops: seq<Op>): Registry {
    if ops == [] then Empty else Apply(After(ops[..|ops| - 1]), ops[|ops| - 1])
  }

  /** With the runtime configured, every state between operations is consistent. */
  lemma {:induction false} AlwaysConsistent(ops: seq<Op>)
    ensures Consistent(After(ops))
  {
    if ops != [] {
      AlwaysConsistent(ops[..|ops| - 1]);
      var r := After(ops[..|ops| - 1]);
      match ops[|ops| - 1]
      case OpenConn(c) => ConnKeeps(r, c);
      case OpenPane(t) => PaneKeeps(r, t, true);
      case Subscribe(c, t) =>
        if c != "" && t != "" {
          SubscribeKeepsIff(r, c, t, true);
        }
      case PaneClosed(t) => CloseKeeps(r, t);
      case PaneStatus(t) =>
        assert forall x :: SubsOf(StatusUpdated(r, t), x) == SubsOf(r, x);
        assert forall c :: WatchOf(StatusUpdated(r, t), c) == WatchOf(r, c);
    }
  }

  /**
    A connection keeps watching a pane, and stays subscribed to it, through any run in which it subscribes
    to nothing and the pane is not closed, whatever other connections and panes do.
   */
  lemma {:induction false} StaysWatched(ops: seq<Op>, more: seq<Op>, conn: string, target: string)
    requires target in WatchOf(After(ops), conn)
    requires forall op :: op in more ==> !(op.Subscribe? && op.conn == conn) && op != PaneClosed(target)
    ensures target in WatchOf(After(ops + more), conn) && conn in SubsOf(After(ops + more), target)
  {
    hide Apply, Consistent;
    if more == [] {
      assert ops + more == ops;
      AlwaysConsistent(ops);
      ConsistentAt(After(ops), conn, target);
    } else {
      var init, op := more[..|more| - 1], more[|more| - 1];
      assert forall o :: o in init ==> o in more;
      StaysWatched(ops, init, conn, target);
      assert (ops + more)[..|ops + more| - 1] == ops + init;
      AlwaysConsistent(ops + init);
      AlwaysConsistent(ops + more);
      StepKeepsWatch(After(ops + init), op, conn, target);
      ConsistentAt(After(ops + more), conn, target);
    }
  }

  lemma ConsistentAt(r: Registry, conn: string, target: string)
    requires Consistent(r)
    ensures target in WatchOf(r, conn) <==> conn in SubsOf(r, target)
    ensures "" !in WatchOf(r, conn)
  {
  }

  lemma StepKeepsWatch(r: Registry, op: Op, conn: string, target: string)
    requires Consistent(r) && target in WatchOf(r, conn)
    requires !(op.Subscribe? && op.conn == conn) && op != PaneClosed(target)
    ensures target in WatchOf(Apply(r, op), conn)
  {
    hide Consistent, Watching, Evicted, ComesBefore;
    ConsistentAt(r, conn, target);
    if op.PaneClosed? {
      CloseLeavesOthers(r, op.target, conn, target, target);
    }
  }
}
