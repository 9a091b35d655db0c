/**
  The channel when no two sends are under way at once: nothing is lost, and the order of messages that are
  no appends is kept exactly when no send rotates the queue.  The connection still receives at any time.
 */
module SerialSends {
  import opened ChannelRuns
  import opened PaneQueue
  import opened Protocol
  import opened Sequences

  /** No sender is between two selects. */
  predicate IsIdle(r: Run) {
    r.freeing == r.retrying == r.putting == multiset{}
  }

  /** A message is offered only when no other send is under way. */
  ghost predicate IsSerial(capacity: nat, es: seq<Event>) {
    forall k :: 0 <= k < |es| && es[k].Offer? ==> IsIdle(After(capacity, es[..k]))
  }

  predicate IsFreeing(r: Run, m: Message) {
    r.freeing == multiset{m} && r.retrying == r.putting == multiset{}
  }

  predicate IsRetrying(r: Run, m: Message) {
    r.retrying == multiset{m} && r.freeing == r.putting == multiset{}
  }

  predicate IsPutting(r: Run, m: Message) {
    r.putting == multiset{m} && r.freeing == r.retrying == multiset{}
  }

  /** The one send under way is about to make room, to offer `m` again, or to put `m` back. */
  predicate IsBusyWith(r: Run, m: Message) {
    IsFreeing(r, m) || IsRetrying(r, m) || IsPutting(r, m)
  }

  /** At most one send is under way, and there is room for what it holds. */
  ghost predicate HasOneSender(r: Run, capacity: nat) {
    && |r.queue| <= capacity && r.lost == multiset{}
    && (r.putting != multiset{} ==> |r.queue| < capacity)
    && (IsIdle(r) || exists m :: IsBusyWith(r, m) && !IsAppendTermOutput(m))
  }

  lemma IdleStep(r: Run, capacity: nat, e: Event)
    requires HasOneSender(r, capacity) && IsIdle(r)
    ensures HasOneSender(Next(r, capacity, e), capacity)
  {
    hide IsAppendTermOutput;
    if e.Offer? {
      assert IsIdle(Next(r, capacity, e)) || IsFreeing(Next(r, capacity, e), e.m);
    }
  }

  lemma FreeingStep(r: Run, capacity: nat, m: Message, e: Event)
    requires HasOneSender(r, capacity) && IsFreeing(r, m) && !IsAppendTermOutput(m) && !e.Offer?
    ensures HasOneSender(Next(r, capacity, e), capacity)
  {
    hide IsAppendTermOutput;
    var n := Next(r, capacity, e);
    if e == MakeRoom(m) {
      if r.queue == [] || IsAppendTermOutput(r.queue[0]) {
        assert IsRetrying(n, m);
      } else {
        assert IsPutting(n, r.queue[0]);
      }
    } else {
      assert IsFreeing(n, m);
    }
  }

  lemma RetryingStep(r: Run, capacity: nat, m: Message, e: Event)
    requires HasOneSender(r, capacity) && IsRetrying(r, m) && !IsAppendTermOutput(m) && !e.Offer?
    ensures HasOneSender(Next(r, capacity, e), capacity)
  {
    hide IsAppendTermOutput;
    assert IsIdle(Next(r, capacity, e)) || IsRetrying(Next(r, capacity, e), m);
  }

  lemma PuttingStep(r: Run, capacity: nat, m: Message, e: Event)
    requires HasOneSender(r, capacity) && IsPutting(r, m) && !IsAppendTermOutput(m) && !e.Offer?
    ensures HasOneSender(Next(r, capacity, e), capacity)
  {
    hide IsAppendTermOutput;
    assert IsIdle(Next(r, capacity, e)) || IsPutting(Next(r, capacity, e), m);
  }

  lemma StepKeepsOneSender(r: Run, capacity: nat, e: Event)
    requires HasOneSender(r, capacity) && (e.Offer? ==> IsIdle(r))
    ensures HasOneSender(Next(r, capacity, e), capacity)
  {
    hide IsAppendTermOutput, Next, IsFreeing, IsRetrying, IsPutting;
    if IsIdle(r) {
      IdleStep(r, capacity, e);
    } else {
      var m :| IsBusyWith(r, m) && !IsAppendTermOutput(m);
      if IsFreeing(r, m) {
        FreeingStep(r, capacity, m, e);
      } else if IsRetrying(r, m) {
        RetryingStep(r, capacity, m, e);
      } else {
        PuttingStep(r, capacity, m, e);
      }
    }
  }

  /** So nothing is lost, whatever the connection receives in between. */
  lemma {:induction false} SerialSendsLoseNothing(capacity: nat, es: seq<Event>)
    requires IsSerial(capacity, es)
    ensures HasOneSender(After(capacity, es), capacity) && After(capacity, es).lost == multiset{}
  {
    hide Next;
    if es != [] {
      var n := |es| - 1;
      assert forall k :: 0 <= k < n ==> es[..n][..k] == es[..k];
      SerialSendsLoseNothing(capacity, es[..n]);
      StepKeepsOneSender(After(capacity, es[..n]), capacity, es[n]);
    }
  }

  /**
    What the connection has received and will receive, messages that are no appends, is what was accepted,
    in that order.  A message being put back goes behind all that are queued.
   */
  predicate IsInOrder(r: Run) {
    if r.putting == multiset{} then Others(r.taken) + Others(r.queue) == Others(r.accepted)
    else forall d :: d in r.putting ==> Others(r.taken) + Others(r.queue) + [d] == Others(r.accepted)
  }

  /** The second select takes out a message that is no append while a different one, no append either, waits. */
  predicate Rotates(r: Run, e: Event) {
    && e.MakeRoom? && e.m in r.freeing && r.queue != [] && !IsAppendTermOutput(r.queue[0])
    && exists x :: x in Others(r.queue) && x != r.queue[0]
  }

  /** Moving the head to the back changes the order unless all messages that are no appends equal it. */
  lemma {:induction false} HeadToBack(q: seq<Message>)
    requires q != [] && !IsAppendTermOutput(q[0])
    ensures Others(q[1..] + [q[0]]) == Others(q) <==> forall x :: x in Others(q) ==> x == q[0]
  {
    hide Others;
    SplitHead(q);
    SplitSnoc(q[1..], q[0]);
    var rest := Others(q[1..]);
    RotationIsConstant(rest, q[0], q[0]);
    assert Others(q) == [q[0]] + rest;
    assert forall x :: x in [q[0]] + rest <==> x == q[0] || x in rest;
  }

  lemma OnlyOne(r: Run, capacity: nat, m: Message)
    requires HasOneSender(r, capacity) && (m in r.freeing || m in r.retrying || m in r.putting)
    ensures IsBusyWith(r, m)
  {
  }

  /** Taking the head out, to put it back later, keeps the order exactly when it does not rotate. */
  lemma TakingOutKeepsIff(r: Run, capacity: nat, m: Message)
    requires HasOneSender(r, capacity) && IsInOrder(r) && m in r.freeing
    ensures IsInOrder(Next(r, capacity, MakeRoom(m))) <==> !Rotates(r, MakeRoom(m))
  {
    hide Others;
    OnlyOne(r, capacity, m);
    var n := Next(r, capacity, MakeRoom(m));
    if r.queue == [] {
    } else if IsAppendTermOutput(r.queue[0]) {
      SplitHead(r.queue);
      assert [] + Others(r.queue[1..]) == Others(r.queue[1..]);
    } else {
      var d, rest := r.queue[0], r.queue[1..];
      HeadToBack(r.queue);
      SplitSnoc(rest, d);
      assert n.putting == multiset{d} && n.queue == rest;
      assert Others(r.taken) + Others(rest) + [d] == Others(r.taken) + (Others(rest) + [d]);
      SameEnds(Others(r.taken), Others(r.taken), Others(rest) + [d], Others(r.queue));
    }
  }

  /** Every other step keeps it. */
  lemma OtherStepsKeepOrder(r: Run, capacity: nat, e: Event)
    requires HasOneSender(r, capacity) && IsInOrder(r) && (e.Offer? ==> IsIdle(r)) && !e.MakeRoom?
    ensures IsInOrder(Next(r, capacity, e))
  {
    hide Others, IsAppendTermOutput;
    match e
    case Offer(m) => GettingInKeepsOrder(r, m);
    case Retry(m) =>
      if m in r.retrying {
        OnlyOne(r, capacity, m);
        GettingInKeepsOrder(r, m);
      }
    case PutBack(m) =>
      if m in r.putting {
        OnlyOne(r, capacity, m);
        PuttingBackKeepsOrder(r, m);
      }
    case Take =>
      if r.queue != [] {
        TakeKeepsOthers(r.taken, r.queue);
      }
  }

  lemma GettingInKeepsOrder(r: Run, m: Message)
    requires Others(r.taken) + Others(r.queue) == Others(r.accepted)
    ensures Others(r.taken) + Others(r.queue + [m]) == Others(r.accepted + [m])
  {
    hide Others, IsAppendTermOutput;
    SplitSnoc(r.queue, m);
    SplitSnoc(r.accepted, m);
    assert Others(r.taken) + (Others(r.queue) + [m]) == Others(r.taken) + Others(r.queue) + [m];
  }

  lemma PuttingBackKeepsOrder(r: Run, m: Message)
    requires Others(r.taken) + Others(r.queue) + [m] == Others(r.accepted) && !IsAppendTermOutput(m)
    ensures Others(r.taken) + Others(r.queue + [m]) == Others(r.accepted)
  {
    hide Others, IsAppendTermOutput;
    SplitSnoc(r.queue, m);
    assert Others(r.taken) + (Others(r.queue) + [m]) == Others(r.taken) + Others(r.queue) + [m];
  }

  lemma TakeKeepsOthers(taken: seq<Message>, queue: seq<Message>)
    requires queue != []
    ensures Others(taken + [queue[0]]) + Others(queue[1..]) == Others(taken) + Others(queue)
  {
    hide Others, IsAppendTermOutput;
    SplitHead(queue);
    SplitSnoc(taken, queue[0]);
    Reassociate(Others(taken), if IsAppendTermOutput(queue[0]) then [] else [queue[0]], Others(queue[1..]));
  }

  /** So a step of a serial run keeps the order exactly when it does not rotate the queue. */
  lemma StepKeepsOrderIff(r: Run, capacity: nat, e: Event)
    requires HasOneSender(r, capacity) && IsInOrder(r) && (e.Offer? ==> IsIdle(r))
    ensures IsInOrder(Next(r, capacity, e)) <==> !Rotates(r, e)
  {
    hide Others, IsInOrder;
    if e.MakeRoom? {
      if e.m in r.freeing {
        TakingOutKeepsIff(r, capacity, e.m);
      }
    } else {
      OtherStepsKeepOrder(r, capacity, e);
    }
  }

  ghost predicate NeverRotates(capacity: nat, es: seq<Event>) {
    forall k :: 0 <= k < |es| ==> !Rotates(After(capacity, es[..k]), es[k])
  }

  lemma {:induction false} SerialSendsKeepOrder(capacity: nat, es: seq<Event>)
    requires IsSerial(capacity, es) && NeverRotates(capacity, es)
    ensures IsInOrder(After(capacity, es))
  {
    hide Others, Next, Rotates, IsInOrder;
    if es == [] {
      NothingIsInOrder();
    } else {
      var n := |es| - 1;
      assert forall k :: 0 <= k < n ==> es[..n][..k] == es[..k];
      SerialSendsKeepOrder(capacity, es[..n]);
      SerialSendsLoseNothing(capacity, es[..n]);
      StepKeepsOrderIff(After(capacity, es[..n]), capacity, es[n]);
    }
  }

  lemma NothingIsInOrder()
    ensures IsInOrder(Empty)
  {
  }

  /**
    The order holds throughout a run, whatever the connection receives between the selects of a send,
    exactly when no step of the run rotates the queue.
   */
  lemma {:induction false} OrderHoldsThroughoutIff(capacity: nat, es: seq<Event>)
    requires IsSerial(capacity, es)
    ensures (forall k :: 0 <= k <= |es| ==> IsInOrder(After(capacity, es[..k]))) <==> NeverRotates(capacity, es)
  {
    hide After, Rotates, IsInOrder, IsSerial;
    if NeverRotates(capacity, es) {
      forall k | 0 <= k <= |es| ensures IsInOrder(After(capacity, es[..k])) {
        SerialPrefix(capacity, es, k);
        SerialSendsKeepOrder(capacity, es[..k]);
      }
    } else {
      var k :| 0 <= k < |es| && Rotates(After(capacity, es[..k]), es[k]);
      RotatingBreaksOrder(capacity, es, k);
    }
  }

  lemma SerialPrefix(capacity: nat, es: seq<Event>, k: nat)
    requires k <= |es| && IsSerial(capacity, es)
    ensures IsSerial(capacity, es[..k]) && (NeverRotates(capacity, es) ==> NeverRotates(capacity, es[..k]))
  {
    hide After, Rotates;
    assert forall j :: 0 <= j < k ==> es[..k][..j] == es[..j];
  }

  lemma RotatingBreaksOrder(capacity: nat, es: seq<Event>, k: nat)
    requires IsSerial(capacity, es) && k < |es| && Rotates(After(capacity, es[..k]), es[k])
    ensures !IsInOrder(After(capacity, es[..k])) || !IsInOrder(After(capacity, es[..k + 1]))
  {
    hide Next, Rotates, IsInOrder;
    SerialPrefix(capacity, es, k);
    SerialSendsLoseNothing(capacity, es[..k]);
    assert es[..k + 1] == es[..k] + [es[k]];
    OneMore(Empty, capacity, es[..k], es[k]);
    if IsInOrder(After(capacity, es[..k])) {
      StepKeepsOrderIff(After(capacity, es[..k]), capacity, es[k]);
    }
  }

  /** It happens on a full channel: the head goes behind the other message, and the new one is refused. */
  lemma FullQueueRotates(a: Message, b: Message, m: Message)
    requires !IsAppendTermOutput(a) && !IsAppendTermOutput(b) && !IsAppendTermOutput(m)
    ensures After(2, [Offer(a), Offer(b), Offer(m), MakeRoom(m), PutBack(a)])
      == Empty.(queue := [b, a], sent := [a, b, m], accepted := [a, b])
  {
    hide IsAppendTermOutput, Next;
    RunFive(2, Offer(a), Offer(b), Offer(m), MakeRoom(m), PutBack(a));
    TwoOffers(a, b);
    FullSend(Next(Next(Empty, 2, Offer(a)), 2, Offer(b)), 2, m);
    assert [a, b][1..] + [a] == [b, a];
  }

  lemma TwoOffers(a: Message, b: Message)
    ensures Next(Next(Empty, 2, Offer(a)), 2, Offer(b)) == Empty.(queue := [a, b], sent := [a, b], accepted := [a, b])
  {
    hide IsAppendTermOutput;
  }

  /** The last two selects of a send to a full channel whose head is no append. */
  lemma FullSend(r: Run, capacity: nat, m: Message)
    requires IsIdle(r) && |r.queue| == capacity && r.queue != []
    requires !IsAppendTermOutput(m) && !IsAppendTermOutput(r.queue[0])
    ensures Next(Next(Next(r, capacity, Offer(m)), capacity, MakeRoom(m)), capacity, PutBack(r.queue[0]))
      == r.(queue := r.queue[1..] + [r.queue[0]], sent := r.sent + [m])
  {
    hide IsAppendTermOutput;
  }

  /**
    And when the head of the full channel is an append: the connection receives it in between, the next
    message is taken out instead, and the new one is refused although there is room.
   */
  lemma ReceivingLetsRotate(x: Message, a: Message, b: Message, m: Message)
    requires IsAppendTermOutput(x) && !IsAppendTermOutput(a) && !IsAppendTermOutput(b) && !IsAppendTermOutput(m)
    ensures After(3, [Offer(x), Offer(a), Offer(b), Offer(m), Take, MakeRoom(m), PutBack(a)])
      == Empty.(queue := [b, a], sent := [x, a, b, m], accepted := [x, a, b], taken := [x])
  {
    hide IsAppendTermOutput, Next;
    var five := [Offer(x), Offer(a), Offer(b), Offer(m), Take];
    RunFive(3, Offer(x), Offer(a), Offer(b), Offer(m), Take);
    OneMore(Empty, 3, five, MakeRoom(m));
    OneMore(Empty, 3, five + [MakeRoom(m)], PutBack(a));
    ReceivedBetween(x, a, b, m);
    TakenOut(After(3, five), 3, m);
    assert [a, b][1..] + [a] == [b, a];
    assert five + [MakeRoom(m)] + [PutBack(a)]
      == [Offer(x), Offer(a), Offer(b), Offer(m), Take, MakeRoom(m), PutBack(a)];
  }

  lemma TakenOut(r: Run, capacity: nat, m: Message)
    requires r.freeing == multiset{m} && r.retrying == r.putting == multiset{} && 0 < |r.queue| <= capacity
    requires !IsAppendTermOutput(r.queue[0])
    ensures Next(Next(r, capacity, MakeRoom(m)), capacity, PutBack(r.queue[0]))
      == r.(queue := r.queue[1..] + [r.queue[0]], freeing := multiset{})
  {
    hide IsAppendTermOutput;
  }

  lemma ReceivedBetween(x: Message, a: Message, b: Message, m: Message)
    requires !IsAppendTermOutput(a) && !IsAppendTermOutput(m)
    ensures var full := Next(Next(Next(Empty, 3, Offer(x)), 3, Offer(a)), 3, Offer(b));
      var r := Next(Next(full, 3, Offer(m)), 3, Take);
      r == Empty.(queue := [a, b], freeing := multiset{m}, sent := [x, a, b, m], accepted := [x, a, b], taken := [x])
  {
    hide IsAppendTermOutput;
    var full := Next(Next(Next(Empty, 3, Offer(x)), 3, Offer(a)), 3, Offer(b));
    assert full == Empty.(queue := [x, a, b], sent := [x, a, b], accepted := [x, a, b]);
    assert [x, a, b][1..] == [a, b];
  }

  /** The selects of one send when nothing else happens. */
  function Selects(q: seq<Message>, capacity: nat, m: Message): seq<Event> {
    if |q| < capacity || IsAppendTermOutput(m) then [Offer(m)]
    else if q == [] || IsAppendTermOutput(q[0]) then [Offer(m), MakeRoom(m), Retry(m)]
    else [Offer(m), MakeRoom(m), PutBack(q[0])]
  }

  /** One after the other they make the whole send. */
  lemma UninterruptedSend(r: Run, capacity: nat, m: Message)
    requires IsIdle(r) && |r.queue| <= capacity
    ensures var n := RunFrom(r, capacity, Selects(r.queue, capacity, m));
      var (q, ok) := Enqueued(r.queue, capacity, m);
      n == r.(queue := q, sent := r.sent + [m], accepted := if ok then r.accepted + [m] else r.accepted)
  {
    hide IsAppendTermOutput, Next;
    var es := Selects(r.queue, capacity, m);
    OneMore(r, capacity, [], Offer(m));
    assert [] + [Offer(m)] == [Offer(m)];
    if |es| == 1 {
      OneSelect(r, capacity, m);
    } else {
      assert es == [Offer(m)] + [MakeRoom(m)] + [es[2]];
      OneMore(r, capacity, [Offer(m)], MakeRoom(m));
      OneMore(r, capacity, [Offer(m)] + [MakeRoom(m)], es[2]);
      if es[2].Retry? {
        DisplacingSend(r, capacity, m);
      } else {
        FullSend(r, capacity, m);
      }
    }
  }

  lemma OneSelect(r: Run, capacity: nat, m: Message)
    requires |r.queue| < capacity || IsAppendTermOutput(m)
    ensures var (q, ok) := Enqueued(r.queue, capacity, m);
      Next(r, capacity, Offer(m))
      == r.(queue := q, sent := r.sent + [m], accepted := if ok then r.accepted + [m] else r.accepted)
  {
    hide IsAppendTermOutput;
  }

  lemma DisplacingSend(r: Run, capacity: nat, m: Message)
    requires IsIdle(r) && |r.queue| == capacity && !IsAppendTermOutput(m)
    requires r.queue != [] ==> IsAppendTermOutput(r.queue[0])
    ensures var (q, ok) := Enqueued(r.queue, capacity, m);
      Next(Next(Next(r, capacity, Offer(m)), capacity, MakeRoom(m)), capacity, Retry(m))
      == r.(queue := q, sent := r.sent + [m], accepted := if ok then r.accepted + [m] else r.accepted)
  {
    hide IsAppendTermOutput;
  }
}
