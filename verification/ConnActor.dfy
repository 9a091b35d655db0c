/** The server's per-connection watch list: which panes it streams, least recently selected first. */
module ConnActor {
  import opened RecencyList
  import opened Strings

  const ACTIVE_PANE_WATCH_LIMIT := 5

  /** The watch list after a selection that keeps at most `limit` panes. */
  function Watching(order: seq<string>, target: string, limit: nat): seq<string> {
    Last(Touched(order, target), limit)
  }

  /** The pane a selection pushes out, if any. */
  function Evicted(order: seq<string>, target: string, limit: nat): string {
    if |Touched(order, target)| > limit then Touched(order, target)[0] else ""
  }

  lemma EvictionIsExact(order: seq<string>, target: string, limit: nat)
    requires NoDuplicates(order) && |order| <= limit && 0 < limit && "" !in order && target != ""
    ensures var next := Watching(order, target, limit);
      && NoDuplicates(next) && |next| <= limit && "" !in next
      && Elements(next) == Elements(order) + {target} - {Evicted(order, target, limit)}
      && Evicted(order, target, limit) !in next
      && (Evicted(order, target, limit) != "" ==>
        Evicted(order, target, limit) in order && Evicted(order, target, limit) != target)
  {
    TouchedKeeps(order, target);
    var t := Touched(order, target);
    assert t[|t| - 1] == target;
    if |t| > limit {
      assert t == [t[0]] + t[1..];
      assert t[0] in Elements(t);
      ElementsConcat([t[0]], t[1..]);
    }
    assert "" !in Elements(t);
  }

  /** Five panes are watched: a sixth pushes out the one selected longest ago, and only a sixth does. */
  lemma FiveAreWatched(order: seq<string>, target: string)
    requires |order| <= 5 && target !in order
    ensures Watching(order, target, ACTIVE_PANE_WATCH_LIMIT)
      == (if |order| == 5 then order[1..] else order) + [target]
    ensures Evicted(order, target, ACTIVE_PANE_WATCH_LIMIT) == if |order| == 5 then order[0] else ""
  {
    hide Without;
    WithoutAbsent(order, target);
  }

  class ConnActor {
    const id: string
    var selected: string
    var watchOrder: seq<string>
    var watchSet: set<string>

    predicate Valid()
      reads this
    {
      NoDuplicates(watchOrder) && watchSet == Elements(watchOrder) && forall x :: x in watchOrder ==> Trim(x) == x != ""
    }

    constructor (connID: string)
      ensures Valid() && id == Trim(connID) && watchOrder == [] && selected == ""
    {
      id := Trim(connID);
      selected, watchOrder, watchSet := "", [], {};
    }

    /** The search-and-splice half of a selection. */
    method MoveToBack(t: string)
      requires Valid() && Trim(t) == t != ""
      modifies this`watchOrder, this`watchSet
      ensures Valid() && watchOrder == Touched(old(watchOrder), t)
    {
      ghost var before := watchOrder;
      TouchedKeeps(before, t);
      if t in watchSet {
        var i := 0;
        while watchOrder[i] != t
          invariant i < |watchOrder| && t !in watchOrder[..i] && watchOrder == before && watchSet == old(watchSet)
          decreases |watchOrder| - i
        {
          i := i + 1;
        }
        WithoutAt(watchOrder, i);
        watchOrder := watchOrder[..i] + watchOrder[i + 1..];
      } else {
        WithoutAbsent(watchOrder, t);
      }
      watchOrder := watchOrder + [t];
      watchSet := watchSet + {t};
      assert forall x :: x in watchOrder ==> x in Elements(watchOrder);
    }

    /** The eviction loop of a selection; reports the first pane dropped. */
    method EvictDownTo(limit: nat) returns (evicted: string)
      requires Valid() && limit > 0
      modifies this`watchOrder, this`watchSet
      ensures Valid() && watchOrder == Last(old(watchOrder), limit)
      ensures evicted == if |old(watchOrder)| > limit then old(watchOrder)[0] else ""
    {
      hide Trim, NoDuplicates, Elements;
      evicted := "";
      ghost var full := watchOrder;
      while |watchOrder| > limit
        invariant |full| >= |watchOrder| && (|watchOrder| >= limit || watchOrder == full)
        invariant watchOrder == full[|full| - |watchOrder|..]
        invariant watchSet == Elements(watchOrder) && NoDuplicates(watchOrder)
        invariant evicted == if |watchOrder| < |full| then full[0] else ""
        invariant forall x :: x in full ==> x != "" && Trim(x) == x
      {
        var dropped := watchOrder[0];
        assert full[0] in full;
        WithoutFirstElement(watchOrder);
        watchOrder := watchOrder[1..];
        watchSet := watchSet - {dropped};
        if evicted == "" {
          evicted := dropped;
        }
      }
      assert forall x :: x in watchOrder ==> x in full;
    }

    method SelectAndWatch(target: string, limit: int) returns (evicted: string)
      requires Valid()
      modifies this
      ensures Valid()
      ensures Trim(target) == "" ==> evicted == "" && selected == old(selected) && watchOrder == old(watchOrder)
      ensures Trim(target) != "" ==>
        var cap := if limit <= 0 then 1 else limit;
        && selected == Trim(target)
        && watchOrder == Watching(old(watchOrder), Trim(target), cap)
        && evicted == Evicted(old(watchOrder), Trim(target), cap)
    {
      var t := Trim(target);
      if t == "" {
        return "";
      }
      TrimIsIdempotent(target);
      var cap := if limit <= 0 then 1 else limit;
      selected := t;
      MoveToBack(t);
      evicted := EvictDownTo(cap);
    }

    method DropWatch(target: string)
      requires Valid()
      modifies this
      ensures Valid()
      ensures Trim(target) == "" ==> selected == old(selected) && watchOrder == old(watchOrder)
      ensures Trim(target) != "" ==>
        && watchOrder == Without(old(watchOrder), Trim(target))
        && selected == if Trim(old(selected)) != Trim(target) then old(selected)
                       else if watchOrder == [] then "" else watchOrder[|watchOrder| - 1]
    {
      hide Trim, Without;
      var t := Trim(target);
      if t == "" {
        return;
      }
      ghost var before := watchOrder;
      WithoutKeeps(before, t);
      WithoutNothing(t);
      watchSet := watchSet - {t};
      if |watchOrder| > 0 {
        var nextOrder := [];
        for i := 0 to |watchOrder|
          invariant watchOrder == before && nextOrder == Without(before[..i], t)
          invariant selected == old(selected) && watchSet == Elements(before) - {t}
        {
          assert before[..i + 1] == before[..i] + [before[i]];
          WithoutConcat(before[..i], [before[i]], t);
          WithoutFirst([before[i]], t);
          assert [before[i]][1..] == [] && before[i] in before;
          if Trim(watchOrder[i]) != t {
            nextOrder := nextOrder + [watchOrder[i]];
          }
        }
        assert before[..|before|] == before;
        watchOrder := nextOrder;
      }
      assert forall x :: x in watchOrder ==> x in Elements(watchOrder);
      if Trim(selected) == t {
        selected := "";
        if |watchOrder| > 0 {
          selected := watchOrder[|watchOrder| - 1];
        }
      }
    }
  }
}
