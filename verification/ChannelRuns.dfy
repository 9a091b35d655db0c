/**
  Whole runs of the channel between the senders of a connection's messages and the connection, one select
  at a time: senders do not lock the channel, and the connection can receive between any two selects.
 */
module ChannelRuns {
  import opened PaneQueue
  import opened Protocol
  import opened Sequences

  datatype Event =
    | Offer(m: Message)     // first select
    | MakeRoom(m: Message)  // second select: take a message out
    | Retry(m: Message)     // third select, after an append was taken out, or nothing
    | PutBack(m: Message)   // third select, after `m`, no append, was taken out
    | Take                  // the connection receives

  /**
    `freeing`, `retrying`: messages whose senders are about to make room, or to offer them again;
    `putting`: messages taken out by senders that are about to put them back.  History: `sent` and
    `accepted`, the messages offered and those that got in; `taken`, received; `lost`, put back in vain.
   */
  datatype Run = Run(queue: seq<Message>, freeing: multiset<Message>, retrying: multiset<Message>,
                     putting: multiset<Message>, sent: seq<Message>, accepted: seq<Message>,
                     taken: seq<Message>, lost: multiset<Message>)

  const Empty := Run([], multiset{}, multiset{}, multiset{}, [], [], [], multiset{})

  /** A step that cannot be taken changes nothing. */
  function Next(r: Run, capacity: nat, e: Event): Run {
    match e
    case Offer(m) =>
      if |r.queue| < capacity then r.(queue := r.queue + [m], sent := r.sent + [m], accepted := r.accepted + [m])
      else if IsAppendTermOutput(m) then r.(sent := r.sent + [m])
      else r.(sent := r.sent + [m], freeing := r.freeing + multiset{m})
    case MakeRoom(m) =>
      if m !in r.freeing then r
      else if r.queue == [] || IsAppendTermOutput(r.queue[0]) then
        r.(freeing := r.freeing - multiset{m}, retrying := r.retrying + multiset{m}, queue := Rest(r.queue))
      else r.(freeing := r.freeing - multiset{m}, putting := r.putting + multiset{r.queue[0]}, queue := Rest(r.queue))
    case Retry(m) =>
      if m !in r.retrying then r
      else if |r.queue| < capacity then
        r.(retrying := r.retrying - multiset{m}, queue := r.queue + [m], accepted := r.accepted + [m])
      else r.(retrying := r.retrying - multiset{m})
    case PutBack(m) =>
      if m !in r.putting then r
      else if |r.queue| < capacity then r.(putting := r.putting - multiset{m}, queue := r.queue + [m])
      else r.(putting := r.putting - multiset{m}, lost := r.lost + multiset{m})
    case Take => if r.queue == [] then r else r.(queue := r.queue[1..], taken := r.taken + [r.queue[0]])
  }

  function Rest(q: seq<Message>): seq<Message> {
    if q == [] then [] else q[1..]
  }

  function RunFrom(r: Run, capacity: nat, es: seq<Event>): Run {
    if es == [] then r else Next(RunFrom(r, capacity, es[..|es| - 1]), capacity, es[|es| - 1])
  }

  function After(capacity: nat, es: seq<Event>): Run {
    RunFrom(Empty, capacity, es)
  }

  /** `a` is obtained from `b` by leaving elements out. */
  predicate IsSubsequence<T(==)>(a: seq<T>, b: seq<T>) {
    a == [] || (b != [] && (
      || IsSubsequence(a, b[..|b| - 1])
      || (a[|a| - 1] == b[|b| - 1] && IsSubsequence(a[..|a| - 1], b[..|b| - 1]))))
  }

  lemma {:induction false} SubsequenceExtends<T>(a: seq<T>, b: seq<T>, x: T)
    requires IsSubsequence(a, b)
    ensures IsSubsequence(a, b + [x]) && IsSubsequence(a + [x], b + [x])
  {
  }

  lemma {:induction false} SubsequenceDrops<T>(a: seq<T>, k: nat, b: seq<T>)
    requires k < |a| && IsSubsequence(a, b)
    ensures IsSubsequence(a[..k] + a[k + 1..], b)
    decreases |b|
  {
    var r := a[..k] + a[k + 1..];
    var b' := b[..|b| - 1];
    if IsSubsequence(a, b') {
      SubsequenceDrops(a, k, b');
    } else if k == |a| - 1 {
      assert r == a[..|a| - 1];
    } else {
      SubsequenceDrops(a[..|a| - 1], k, b');
      assert r[..|r| - 1] == a[..|a| - 1][..k] + a[..|a| - 1][k + 1..];
    }
  }

  // ---------------------------------------------------------------------------------------------
  // Any number of senders.

  ghost predicate NoAppends(ms: multiset<Message>) {
    forall m :: m in ms ==> !IsAppendTermOutput(m)
  }

  /** Only messages that are no appends wait for a second or third select, and they are all accounted for. */
  ghost predicate IsConserving(r: Run, capacity: nat) {
    && |r.queue| <= capacity
    && NoAppends(r.freeing) && NoAppends(r.retrying) && NoAppends(r.putting)
    && multiset(Others(r.taken)) + multiset(Others(r.queue)) + r.putting + r.lost == multiset(Others(r.accepted))
  }

  /** The message, as a multiset, unless it is an append. */
  function Other(m: Message): multiset<Message> {
    if IsAppendTermOutput(m) then multiset{} else multiset{m}
  }

  lemma OthersSnoc(s: seq<Message>, m: Message)
    ensures multiset(Others(s + [m])) == multiset(Others(s)) + Other(m)
  {
    SplitSnoc(s, m);
  }

  lemma OthersHead(s: seq<Message>)
    requires s != []
    ensures multiset(Others(s)) == Other(s[0]) + multiset(Others(s[1..]))
  {
    SplitHead(s);
  }

  lemma {:induction false} TakeConserves(r: Run, capacity: nat)
    requires IsConserving(r, capacity)
    ensures IsConserving(Next(r, capacity, Take), capacity)
  {
    hide Others, Other, NoAppends;
    if r.queue != [] {
      OthersHead(r.queue);
      OthersSnoc(r.taken, r.queue[0]);
    }
  }

  lemma MakeRoomConserves(r: Run, capacity: nat, m: Message)
    requires IsConserving(r, capacity) && m in r.freeing
    ensures IsConserving(Next(r, capacity, MakeRoom(m)), capacity)
  {
    hide Others, IsAppendTermOutput;
    if r.queue != [] {
      OthersHead(r.queue);
    }
  }

  lemma PutBackConserves(r: Run, capacity: nat, m: Message)
    requires IsConserving(r, capacity) && m in r.putting
    ensures IsConserving(Next(r, capacity, PutBack(m)), capacity)
  {
    hide Others, IsAppendTermOutput;
    OthersSnoc(r.queue, m);
    assert r.putting == (r.putting - multiset{m}) + multiset{m};
  }

  lemma OfferConserves(r: Run, capacity: nat, e: Event)
    requires IsConserving(r, capacity) && (e.Offer? || e.Retry?)
    ensures IsConserving(Next(r, capacity, e), capacity)
  {
    hide Others, IsAppendTermOutput, Other;
    OthersSnoc(r.queue, e.m);
    OthersSnoc(r.accepted, e.m);
  }

  lemma StepConserves(r: Run, capacity: nat, e: Event)
    requires IsConserving(r, capacity)
    ensures IsConserving(Next(r, capacity, e), capacity)
  {
    match e
    case Offer(_) => OfferConserves(r, capacity, e);
    case Retry(_) => OfferConserves(r, capacity, e);
    case MakeRoom(m) =>
      if m in r.freeing {
        MakeRoomConserves(r, capacity, m);
      }
    case PutBack(m) =>
      if m in r.putting {
        PutBackConserves(r, capacity, m);
      }
    case Take => TakeConserves(r, capacity);
  }

  /**
    Messages that are no appends are conserved, with any number of senders: every accepted one is queued,
    was received, is being put back, or was put back in vain, exactly once.
   */
  lemma {:induction false} OthersAreConserved(capacity: nat, es: seq<Event>)
    ensures var r := After(capacity, es);
      && |r.queue| <= capacity
      && multiset(Others(r.taken)) + multiset(Others(r.queue)) + r.putting + r.lost == multiset(Others(r.accepted))
      && IsConserving(r, capacity)
  {
    hide Others, Next;
    if es == [] {
      OthersOfNothing();
    } else {
      OthersAreConserved(capacity, es[..|es| - 1]);
      StepConserves(After(capacity, es[..|es| - 1]), capacity, es[|es| - 1]);
    }
  }

  lemma OthersOfNothing()
    ensures Others([]) == [] && Appends([]) == []
  {
  }

  /** Appends that survive are received and queued in the order they were sent, with any number of senders. */
  lemma {:induction false} AppendsKeepTheirOrder(capacity: nat, es: seq<Event>)
    ensures IsSubsequence(Survivors(After(capacity, es)), Appends(After(capacity, es).sent))
  {
    hide Appends, Next, IsSubsequence;
    if es == [] {
      OthersOfNothing();
      NothingIsSubsequence();
      assert Survivors(Empty) == [];
    } else {
      AppendsKeepTheirOrder(capacity, es[..|es| - 1]);
      OthersAreConserved(capacity, es[..|es| - 1]);
      StepKeepsAppends(After(capacity, es[..|es| - 1]), capacity, es[|es| - 1]);
    }
  }

  lemma NothingIsSubsequence()
    ensures IsSubsequence<Message>([], [])
  {
  }

  /** The appends received and queued, in order. */
  function Survivors(r: Run): seq<Message> {
    Appends(r.taken) + Appends(r.queue)
  }

  lemma StepKeepsAppends(r: Run, capacity: nat, e: Event)
    requires IsConserving(r, capacity) && IsSubsequence(Survivors(r), Appends(r.sent))
    ensures var n := Next(r, capacity, e); IsSubsequence(Survivors(n), Appends(n.sent))
  {
    hide Appends, Others, IsSubsequence, IsAppendTermOutput, IsConserving;
    var t := Appends(r.taken);
    match e
    case Offer(m) =>
      SplitSnoc(r.queue, m);
      SplitSnoc(r.sent, m);
      SubsequenceExtends(Survivors(r), Appends(r.sent), m);
      Reassociate(t, Appends(r.queue), [m]);
    case MakeRoom(m) =>
      if m in r.freeing && r.queue != [] {
        SplitHead(r.queue);
        var rest := Appends(r.queue[1..]);
        if IsAppendTermOutput(r.queue[0]) {
          SubsequenceDrops(Survivors(r), |t|, Appends(r.sent));
          WithoutMiddle(t, r.queue[0], rest);
        } else {
          assert [] + rest == rest;
        }
      }
    case Retry(m) =>
      SplitSnoc(r.queue, m);
      assert m in r.retrying ==> !IsAppendTermOutput(m) by { WaitingIsNoAppend(r, capacity, m); }
    case PutBack(m) =>
      SplitSnoc(r.queue, m);
      assert m in r.putting ==> !IsAppendTermOutput(m) by { WaitingIsNoAppend(r, capacity, m); }
    case Take =>
      if r.queue != [] {
        SplitHead(r.queue);
        SplitSnoc(r.taken, r.queue[0]);
        Reassociate(t, if IsAppendTermOutput(r.queue[0]) then [r.queue[0]] else [], Appends(r.queue[1..]));
      }
  }

  lemma WaitingIsNoAppend(r: Run, capacity: nat, m: Message)
    requires IsConserving(r, capacity)
    ensures m in r.retrying || m in r.putting ==> !IsAppendTermOutput(m)
  {
  }

  lemma WithoutMiddle<T>(t: seq<T>, x: T, r: seq<T>)
    ensures var s := t + ([x] + r); s[..|t|] + s[|t| + 1..] == t + r
  {
  }

  /** With two senders an accepted message can be lost: the room it left is taken before it is put back. */
  lemma TwoSendersCanLose(a: Message, b: Message, m: Message)
    requires !IsAppendTermOutput(a) && !IsAppendTermOutput(m)
    ensures After(1, [Offer(a), Offer(m), MakeRoom(m), Offer(b), PutBack(a)])
      == Empty.(queue := [b], sent := [a, m, b], accepted := [a, b], lost := multiset{a})
  {
    hide IsAppendTermOutput, Next;
    RunFive(1, Offer(a), Offer(m), MakeRoom(m), Offer(b), PutBack(a));
    RoomIsMade(a, m);
    RoomIsTaken(Next(Next(Next(Empty, 1, Offer(a)), 1, Offer(m)), 1, MakeRoom(m)), a, b);
  }

  lemma RoomIsMade(a: Message, m: Message)
    requires !IsAppendTermOutput(a) && !IsAppendTermOutput(m)
    ensures Next(Next(Next(Empty, 1, Offer(a)), 1, Offer(m)), 1, MakeRoom(m))
      == Empty.(putting := multiset{a}, sent := [a, m], accepted := [a])
  {
    hide IsAppendTermOutput;
  }

  lemma RoomIsTaken(r: Run, a: Message, b: Message)
    requires r.queue == [] && r.putting == multiset{a} && r.lost == multiset{}
    ensures Next(Next(r, 1, Offer(b)), 1, PutBack(a))
      == r.(queue := [b], sent := r.sent + [b], accepted := r.accepted + [b],
            putting := multiset{}, lost := multiset{a})
  {
    hide IsAppendTermOutput;
  }

  lemma RunFive(capacity: nat, a: Event, b: Event, c: Event, d: Event, e: Event)
    ensures After(capacity, [a, b, c, d, e])
      == Next(Next(Next(Next(Next(Empty, capacity, a), capacity, b), capacity, c), capacity, d), capacity, e)
  {
    hide Next;
    OneMore(Empty, capacity, [], a);
    OneMore(Empty, capacity, [a], b);
    OneMore(Empty, capacity, [a, b], c);
    OneMore(Empty, capacity, [a, b, c], d);
    OneMore(Empty, capacity, [a, b, c, d], e);
    assert [] + [a] == [a] && [a] + [b] == [a, b] && [a, b] + [c] == [a, b, c];
    assert [a, b, c] + [d] == [a, b, c, d] && [a, b, c, d] + [e] == [a, b, c, d, e];
  }

  lemma OneMore(r: Run, capacity: nat, es: seq<Event>, e: Event)
    ensures RunFrom(r, capacity, es + [e]) == Next(RunFrom(r, capacity, es), capacity, e)
  {
    assert (es + [e])[..|es|] == es;
  }
}
