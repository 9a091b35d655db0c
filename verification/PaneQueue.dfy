/** The bounded channel between a pane and one connection, under backpressure. */
module PaneQueue {
  import opened Protocol

  /** The queue and the answer after offering `m`, if nothing else happens to the channel meanwhile. */
  function Enqueued(q: seq<Message>, capacity: nat, m: Message): (seq<Message>, bool) {
    if |q| < capacity then (q + [m], true)
    else if IsAppendTermOutput(m) || q == [] then (q, false)
    else if IsAppendTermOutput(q[0]) then (q[1..] + [m], true)
    else (q[1..] + [q[0]], false)
  }

  class Channel {
    const capacity: nat
    var queue: seq<Message>

    predicate Valid()
      reads this
    {
      |queue| <= capacity
    }

    constructor (capacity: nat)
      ensures Valid() && queue == [] && this.capacity == capacity
    {
      this.capacity := capacity;
      queue := [];
    }

    /** A send that does not block. */
    method TrySend(m: Message) returns (sent: bool)
      requires Valid()
      modifies this
      ensures Valid() && sent == (|old(queue)| < capacity)
      ensures queue == if sent then old(queue) + [m] else old(queue)
    {
      sent := |queue| < capacity;
      if sent {
        queue := queue + [m];
      }
    }

    method Receive() returns (m: Message)
      requires Valid() && queue != []
      modifies this
      ensures Valid() && m == old(queue)[0] && queue == old(queue)[1..]
    {
      m := queue[0];
      queue := queue[1..];
    }

    method EnqueuePaneMessage(m: Message) returns (accepted: bool)
      requires Valid()
      modifies this
      ensures Valid() && (queue, accepted) == Enqueued(old(queue), capacity, m)
    {
      accepted := TrySend(m);
      if accepted {
        return;
      }
      if IsAppendTermOutput(m) {
        return false;
      }
      if queue != [] {
        var dropped := Receive();
        if !IsAppendTermOutput(dropped) {
          var resent := TrySend(dropped);
          return false;
        }
      }
      accepted := TrySend(m);
    }
  }

  // ---------------------------------------------------------------------------------------------
  // A reset is one message that is no append, followed by appends.

  /** The queue after offering `ms` in a row, and how many were accepted. */
  function Offered(q: seq<Message>, capacity: nat, ms: seq<Message>): (seq<Message>, nat)
    decreases |ms|
  {
    if ms == [] then (q, 0)
    else
      var (r, ok) := Enqueued(q, capacity, ms[0]);
      var (last, n) := Offered(r, capacity, ms[1..]);
      (last, if ok then n + 1 else n)
  }

  function Room(q: seq<Message>, capacity: nat, count: nat): nat
    requires |q| <= capacity
  {
    if count <= capacity - |q| then count else capacity - |q|
  }

  /** Appends fill the queue; those that find it full are lost. */
  lemma {:induction false} AppendsFill(q: seq<Message>, capacity: nat, ms: seq<Message>)
    requires |q| <= capacity && forall m :: m in ms ==> IsAppendTermOutput(m)
    ensures var k := Room(q, capacity, |ms|); Offered(q, capacity, ms) == (q + ms[..k], k)
    decreases |ms|
  {
    if ms == [] {
      assert q + ms[..0] == q;
    } else {
      var (r, ok) := Enqueued(q, capacity, ms[0]);
      AppendsFill(r, capacity, ms[1..]);
      var k := Room(r, capacity, |ms| - 1);
      if ok {
        assert ms[..k + 1] == [ms[0]] + ms[1..][..k];
        assert q + [ms[0]] + ms[1..][..k] == q + ms[..k + 1];
      } else {
        assert k == 0 && q + ms[1..][..0] == q + ms[..0];
      }
    }
  }

  /**
    A reset of a first message and further frames arrives whole, while nothing is received, exactly when
    there is room for all of it, or it is one message that displaces an append.  Otherwise a reset that
    displaces the head of a full queue keeps its first message and loses every other.
   */
  lemma ResetArrivesIff(q: seq<Message>, capacity: nat, first: Message, frames: seq<Message>)
    requires |q| <= capacity && !IsAppendTermOutput(first) && forall m :: m in frames ==> IsAppendTermOutput(m)
    ensures var displaces := |q| == capacity && q != [] && IsAppendTermOutput(q[0]);
      && (Offered(q, capacity, [first] + frames).1 == 1 + |frames| <==>
          |q| + 1 + |frames| <= capacity || (displaces && frames == []))
      && (displaces ==> Offered(q, capacity, [first] + frames) == (q[1..] + [first], 1))
  {
    var (r, ok) := Enqueued(q, capacity, first);
    AppendsFill(r, capacity, frames);
    assert ([first] + frames)[1..] == frames;
    assert r + frames[..0] == r;
  }
}
