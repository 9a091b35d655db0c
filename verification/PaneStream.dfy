/**
  The subscriber side of a pane: who subscribes, whose reset is still pending, and the live output kept
  back for them meanwhile.  Each method is one lock section.
 */
module PaneStream {
  import opened Protocol
  import opened RecencyList
  import opened Strings

  const PENDING_APPEND_LIMIT := 64

  /** One connection's share of the state. */
  datatype Buffer = Buffer(subscribed: bool, resetPending: bool, pending: seq<Message>)

  const Absent := Buffer(false, false, [])

  function Opened(b: Buffer): Buffer {
    Buffer(true, true, [])
  }

  /** A full buffer loses its oldest entry. */
  function Buffered(b: Buffer, m: Message): Buffer {
    b.(pending := Last(b.pending, PENDING_APPEND_LIMIT - 1) + [m])
  }

  /** Live output is kept back only while the reset is pending. */
  predicate KeepsBack(b: Buffer, m: Message) {
    IsAppendTermOutput(m) && b.resetPending
  }

  class PaneStream {
    const target: string
    var subscribers: set<string>
    var resetPendingByConn: set<string>
    var pendingAppendByConn: map<string, seq<Message>>

    ghost predicate Valid()
      reads this
    {
      && "" !in subscribers
      && forall c :: c in pendingAppendByConn ==> |pendingAppendByConn[c]| <= PENDING_APPEND_LIMIT
    }

    ghost function View(connID: string): Buffer
      reads this
    {
      Buffer(connID in subscribers, connID in resetPendingByConn,
             if connID in pendingAppendByConn then pendingAppendByConn[connID] else [])
    }

    constructor (target: string)
      ensures Valid() && this.target == target && subscribers == {} && forall c :: View(c) == Absent
    {
      this.target := target;
      subscribers, resetPendingByConn, pendingAppendByConn := {}, {}, map[];
    }

    method BeginSubscribe(connID: string)
      requires Valid()
      modifies this
      ensures Valid()
      ensures subscribers == old(subscribers) + (if Trim(connID) == "" then {} else {Trim(connID)})
      ensures forall c :: View(c) == if c == Trim(connID) != "" then Opened(old(View(c))) else old(View(c))
    {
      var id := Trim(connID);
      if id == "" {
        return;
      }
      subscribers := subscribers + {id};
      resetPendingByConn := resetPendingByConn + {id};
      pendingAppendByConn := pendingAppendByConn - {id};
    }

    method Unsubscribe(connID: string)
      requires Valid()
      modifies this
      ensures Valid()
      ensures subscribers == old(subscribers) - {Trim(connID)}
      ensures forall c :: View(c) == if c == Trim(connID) != "" then Absent else old(View(c))
    {
      var id := Trim(connID);
      if id == "" {
        return;
      }
      subscribers := subscribers - {id};
      resetPendingByConn := resetPendingByConn - {id};
      pendingAppendByConn := pendingAppendByConn - {id};
    }

    method ClearResetPending(connID: string)
      requires Valid()
      modifies this
      ensures Valid()
      ensures forall c ::
        View(c) == if c == Trim(connID) != "" then old(View(c)).(resetPending := false) else old(View(c))
    {
      var id := Trim(connID);
      if id != "" {
        resetPendingByConn := resetPendingByConn - {id};
      }
    }

    /** Keeps a live message back, or answers false. */
    method AppendPending(connID: string, m: Message) returns (kept: bool)
      requires Valid()
      modifies this
      ensures Valid() && kept == (Trim(connID) != "" && KeepsBack(old(View(Trim(connID))), m))
      ensures forall c :: View(c) == if kept && c == Trim(connID) then Buffered(old(View(c)), m) else old(View(c))
    {
      hide Trim, IsAppendTermOutput;
      if !IsAppendTermOutput(m) {
        return false;
      }
      var id := Trim(connID);
      if id == "" {
        return false;
      }
      if id !in resetPendingByConn {
        return false;
      }
      var queue := if id in pendingAppendByConn then pendingAppendByConn[id] else [];
      if |queue| >= PENDING_APPEND_LIMIT {
        queue := queue[1..];
      }
      queue := queue + [m];
      pendingAppendByConn := pendingAppendByConn[id := queue];
      return true;
    }

    /** The lock section of a flush, and of discarding for gap recovery: the queue is taken out. */
    method TakePendingAppends(connID: string) returns (queue: seq<Message>)
      requires Valid()
      modifies this
      ensures Valid() && queue == if Trim(connID) == "" then [] else old(View(Trim(connID))).pending
      ensures forall c :: View(c) == if c == Trim(connID) != "" then old(View(c)).(pending := []) else old(View(c))
    {
      var id := Trim(connID);
      if id == "" {
        return [];
      }
      queue := if id in pendingAppendByConn then pendingAppendByConn[id] else [];
      pendingAppendByConn := pendingAppendByConn - {id};
    }
  }
}
