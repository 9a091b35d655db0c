/**
  The registry's maps, with each connection's watch list and each pane's subscriber set stored under
  its id, and the operations that update them.
 */
module RegistryActor {
  import opened RecencyList
  import opened Strings
  import opened ConnActor
  import R = RegistryState

  class RegistryActor {
    var conns: map<string, seq<string>>
    var panes: map<string, set<string>>
    var paneItems: set<string>
    var configured: bool

    ghost function View(): R.Registry
      reads this
    {
      R.Registry(conns, panes, paneItems)
    }

    constructor ()
      ensures View() == R.Empty && !configured
    {
      conns, panes, paneItems, configured := map[], map[], {}, false;
    }

    method ConfigureRuntime()
      modifies this`configured
      ensures configured
    {
      configured := true;
    }

    method GetOrCreateConn(connID: string)
      modifies this`conns
      ensures View() == if Trim(connID) == "" then old(View()) else R.WithConn(old(View()), Trim(connID))
    {
      var id := Trim(connID);
      if id == "" || id in conns {
        return;
      }
      conns := conns[id := []];
    }

    method GetOrCreatePane(target: string)
      modifies this`panes, this`paneItems
      ensures View() == if Trim(target) == "" then old(View()) else R.WithPane(old(View()), Trim(target), configured)
    {
      var t := Trim(target);
      if t == "" || t in panes {
        return;
      }
      if !configured {
        return;
      }
      TrimIsIdempotent(target);
      panes := panes[t := {}];
      SeedPaneStatus(t);
    }

    method SeedPaneStatus(target: string)
      modifies this`paneItems
      ensures paneItems == old(paneItems) + (if Trim(target) == "" then {} else {Trim(target)})
    {
      var t := Trim(target);
      if t == "" || t in paneItems {
        return;
      }
      paneItems := paneItems + {t};
    }

    method Subscribe(connID: string, target: string)
      modifies this`conns, this`panes, this`paneItems
      ensures View() == R.Subscribed(old(View()), Trim(connID), Trim(target), configured)
    {
      var id, t := Trim(connID), Trim(target);
      if id == "" || t == "" {
        return;
      }
      TrimIsIdempotent(connID);
      TrimIsIdempotent(target);
      hide Trim, Watching, Evicted;
      GetOrCreateConn(id);
      var evictedTarget := Evicted(conns[id], t, ACTIVE_PANE_WATCH_LIMIT);
      conns := conns[id := Watching(conns[id], t, ACTIVE_PANE_WATCH_LIMIT)];
      GetOrCreatePane(t);
      if t in panes {
        panes := panes[t := panes[t] + {id}];
      }
      if evictedTarget != "" && evictedTarget != t {
        if evictedTarget in panes {
          panes := panes[evictedTarget := panes[evictedTarget] - {id}];
        }
      }
    }

    /** Every connection drops its watch of the pane, one after the other. */
    method OnPaneClosed(target: string)
      modifies this`conns, this`panes, this`paneItems
      ensures View() == R.Closed(old(View()), Trim(target))
    {
      var t := Trim(target);
      if t == "" {
        return;
      }
      var hadPane, hadItem := t in panes, t in paneItems;
      panes := panes - {t};
      paneItems := paneItems - {t};
      if !hadPane && !hadItem {
        assert panes == old(panes) && paneItems == old(paneItems);
        return;
      }
      var left := conns.Keys;
      while left != {}
        invariant left <= conns.Keys == old(conns).Keys
        invariant forall c :: c in conns ==> conns[c] == if c in left then old(conns)[c] else Without(old(conns)[c], t)
        invariant panes == old(panes) - {t} && paneItems == old(paneItems) - {t}
        decreases left
      {
        var c :| c in left;
        conns := conns[c := Without(conns[c], t)];
        left := left - {c};
      }
    }

    method OnPaneStatusUpdate(target: string)
      modifies this`paneItems
      ensures View() == R.StatusUpdated(old(View()), Trim(target))
    {
      var t := Trim(target);
      if t == "" {
        return;
      }
      paneItems := paneItems + {t};
    }
  }
}
