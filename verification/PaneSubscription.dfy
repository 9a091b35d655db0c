/**
  A connection's first subscription to a pane, against live output, step by lock section.
  `log` records what is offered to the connection's channel, and where each message came from.
 */
module PaneSubscription {
  import opened Wrappers
  import opened Protocol
  import opened RecencyList
  import opened PaneStream

  datatype Offer =
    | ResetFrame(m: Message)  // a frame of the reset this subscription asked for
    | KeptBack(m: Message)    // live output kept back while the reset was pending
    | Live(m: Message)        // live output offered directly
    | Other(m: Message)       // anything else the pane broadcasts

  /** Where the subscribing goroutine is. */
  datatype Phase =
    | Before
    | Capturing
    | Sending(frames: seq<Message>)
    | Cleared
    | Flushing(queue: seq<Message>)
    | Done
    | Failed

  /**
    `direct`: a live message whose broadcast found no pending reset and has not been offered yet.
    `reset`: all frames of the reset; `window`: live messages broadcast while it was pending.
   */
  datatype State = State(
    phase: Phase,
    buffer: Buffer,
    direct: Option<Message>,
    log: seq<Offer>,
    reset: seq<Message>,
    window: seq<Message>)

  datatype Event =
    | Subscribe
    | Captured(frames: seq<Message>)
    | CaptureFails(ended: seq<Message>)
    | SendFrame
    | ClearReset
    | TakeQueue
    | SendKept
    | Broadcast(m: Message)
    | OfferDirect

  const Initial := State(Before, Absent, None, [], [], [])

  predicate Enabled(s: State, e: Event) {
    match e
    case Subscribe => s.phase.Before?
    case Captured(_) => s.phase.Capturing?
    case CaptureFails(ended) => s.phase.Capturing? && forall m :: m in ended ==> !IsAppendTermOutput(m)
    case SendFrame => s.phase.Sending? && s.phase.frames != []
    case ClearReset => s.phase.Sending? && s.phase.frames == []
    case TakeQueue => s.phase.Cleared?
    case SendKept => s.phase.Flushing? && s.phase.queue != []
    // The broadcaster offers one message at a time, and only to subscribers it saw.
    case Broadcast(_) => s.buffer.subscribed && s.direct.None?
    case OfferDirect => s.direct.Some?
  }

  function Next(s: State, e: Event, gapRecover: bool): State
    requires Enabled(s, e)
  {
    match e
    case Subscribe => s.(phase := Capturing, buffer := Opened(s.buffer))
    case Captured(frames) => s.(phase := Sending(frames), reset := frames)
    case CaptureFails(ended) =>
      s.(phase := Failed, buffer := s.buffer.(resetPending := false),
         log := s.log + seq(|ended|, i requires 0 <= i < |ended| => Other(ended[i])))
    case SendFrame => s.(phase := Sending(s.phase.frames[1..]), log := s.log + [ResetFrame(s.phase.frames[0])])
    case ClearReset => s.(phase := Cleared, buffer := s.buffer.(resetPending := false))
    case TakeQueue =>
      s.(phase := if gapRecover then Done else Flushing(s.buffer.pending), buffer := s.buffer.(pending := []))
    case SendKept => s.(phase := Flushing(s.phase.queue[1..]), log := s.log + [KeptBack(s.phase.queue[0])])
    case Broadcast(m) =>
      if KeepsBack(s.buffer, m) then s.(buffer := Buffered(s.buffer, m), window := s.window + [m])
      else s.(direct := Some(m))
    case OfferDirect =>
      s.(direct := None,
      log := s.log + [if IsAppendTermOutput(s.direct.value) then Live(s.direct.value) else Other(s.direct.value)])
  }

  ghost predicate IsRun(es: seq<Event>, gapRecover: bool)
    decreases |es|, 0
  {
    es == [] || (IsRun(es[..|es| - 1], gapRecover) && Enabled(After(es[..|es| - 1], gapRecover), es[|es| - 1]))
  }

  ghost function After(es: seq<Event>, gapRecover: bool): State
    requires IsRun(es, gapRecover)
    decreases |es|, 1
  {
    if es == [] then Initial else Next(After(es[..|es| - 1], gapRecover), es[|es| - 1], gapRecover)
  }

  function Frames(log: seq<Offer>): seq<Message> {
    if log == [] then [] else Frames(log[..|log| - 1]) + (if log[|log| - 1].ResetFrame? then [log[|log| - 1].m] else [])
  }

  function Kept(log: seq<Offer>): seq<Message> {
    if log == [] then [] else Kept(log[..|log| - 1]) + (if log[|log| - 1].KeptBack? then [log[|log| - 1].m] else [])
  }

  /** No live output, direct or kept back, before a frame of the reset. */
  predicate ResetsFirst(log: seq<Offer>) {
    forall i, j :: 0 <= i < j < |log| && log[j].ResetFrame? ==> !log[i].Live? && !log[i].KeptBack?
  }

  predicate NoLiveOutput(log: seq<Offer>) {
    forall i :: 0 <= i < |log| ==> !log[i].Live? && !log[i].KeptBack?
  }

  /** The reset has not been sent completely. */
  predicate ResetOutstanding(p: Phase) {
    p.Before? || p.Capturing? || p.Sending?
  }

  predicate Invariant(s: State, gapRecover: bool) {
    && ResetsFirst(s.log)
    && s.buffer.subscribed == !s.phase.Before?
    && s.buffer.resetPending == (s.phase.Capturing? || s.phase.Sending?)
    && (ResetOutstanding(s.phase) ==>
          NoLiveOutput(s.log) && (s.direct.None? || !IsAppendTermOutput(s.direct.value)))
    && Frames(s.log) + (if s.phase.Sending? then s.phase.frames else []) == s.reset
    && (ResetOutstanding(s.phase) || s.phase.Cleared? || s.phase.Failed? ==>
          s.buffer.pending == Last(s.window, PENDING_APPEND_LIMIT) && Kept(s.log) == [])
    && (s.phase.Flushing? ==> !gapRecover && Kept(s.log) + s.phase.queue == Last(s.window, PENDING_APPEND_LIMIT))
    && (s.phase.Done? ==> gapRecover && Kept(s.log) == [])
    && (s.phase.Before? ==> s.direct.None? && s.window == [])
    && (s.phase.Before? || s.phase.Capturing? ==> s.reset == [])
  }

  lemma LogStep(log: seq<Offer>, o: Offer)
    ensures Frames(log + [o]) == Frames(log) + if o.ResetFrame? then [o.m] else []
    ensures Kept(log + [o]) == Kept(log) + if o.KeptBack? then [o.m] else []
    ensures ResetsFirst(log) && (o.ResetFrame? ==> NoLiveOutput(log)) ==> ResetsFirst(log + [o])
  {
  }

  lemma {:induction false} OthersStep(log: seq<Offer>, os: seq<Offer>)
    requires forall i :: 0 <= i < |os| ==> os[i].Other?
    ensures Frames(log + os) == Frames(log) && Kept(log + os) == Kept(log)
    ensures ResetsFirst(log) ==> ResetsFirst(log + os)
  {
    if os == [] {
      assert log + os == log;
    } else {
      OthersStep(log, os[..|os| - 1]);
      LogStep(log + os[..|os| - 1], os[|os| - 1]);
      assert log + os == log + os[..|os| - 1] + [os[|os| - 1]];
    }
  }

  lemma CaptureFailsKeeps(s: State, ended: seq<Message>, gapRecover: bool)
    requires Invariant(s, gapRecover) && Enabled(s, CaptureFails(ended))
    ensures Invariant(Next(s, CaptureFails(ended), gapRecover), gapRecover)
  {
    hide Frames, Kept, ResetsFirst;
    OthersStep(s.log, seq(|ended|, i requires 0 <= i < |ended| => Other(ended[i])));
  }

  lemma OfferDirectKeeps(s: State, gapRecover: bool)
    requires Invariant(s, gapRecover) && Enabled(s, OfferDirect)
    ensures Invariant(Next(s, OfferDirect, gapRecover), gapRecover)
  {
    hide Frames, Kept, ResetsFirst, Last;
    LogStep(s.log, Live(s.direct.value));
    LogStep(s.log, Other(s.direct.value));
  }

  lemma BroadcastKeeps(s: State, m: Message, gapRecover: bool)
    requires Invariant(s, gapRecover) && Enabled(s, Broadcast(m))
    ensures Invariant(Next(s, Broadcast(m), gapRecover), gapRecover)
  {
    hide Frames, Kept, ResetsFirst, NoLiveOutput;
  }

  lemma SendKeeps(s: State, e: Event, gapRecover: bool)
    requires Invariant(s, gapRecover) && Enabled(s, e) && (e.SendFrame? || e.SendKept?)
    ensures Invariant(Next(s, e, gapRecover), gapRecover)
  {
    hide Frames, Kept, ResetsFirst, Last;
    if e.SendFrame? {
      var f := s.phase.frames;
      LogStep(s.log, ResetFrame(f[0]));
      assert Frames(s.log) + [f[0]] + f[1..] == Frames(s.log) + f;
    } else {
      var q := s.phase.queue;
      LogStep(s.log, KeptBack(q[0]));
      assert Kept(s.log) + [q[0]] + q[1..] == Kept(s.log) + q;
    }
  }

  lemma StepKeepsInvariant(s: State, e: Event, gapRecover: bool)
    requires Invariant(s, gapRecover) && Enabled(s, e)
    ensures Invariant(Next(s, e, gapRecover), gapRecover)
  {
    hide Frames, Kept, ResetsFirst, NoLiveOutput, Last;
    match e
    case CaptureFails(ended) => CaptureFailsKeeps(s, ended, gapRecover);
    case SendFrame => SendKeeps(s, e, gapRecover);
    case SendKept => SendKeeps(s, e, gapRecover);
    case Broadcast(m) => BroadcastKeeps(s, m, gapRecover);
    case OfferDirect => OfferDirectKeeps(s, gapRecover);
    case _ => PhaseKeeps(s, e, gapRecover);
  }

  lemma PhaseKeeps(s: State, e: Event, gapRecover: bool)
    requires Invariant(s, gapRecover) && Enabled(s, e) && (e.Subscribe? || e.Captured? || e.ClearReset? || e.TakeQueue?)
    ensures Invariant(Next(s, e, gapRecover), gapRecover)
  {
    hide Frames, Kept, ResetsFirst, NoLiveOutput;
  }

  lemma {:induction false} RunKeepsInvariant(es: seq<Event>, gapRecover: bool)
    requires IsRun(es, gapRecover)
    ensures Invariant(After(es, gapRecover), gapRecover)
    decreases |es|
  {
    hide Invariant, Next, Enabled;
    if es == [] {
      InitialInvariant(gapRecover);
    } else {
      RunKeepsInvariant(es[..|es| - 1], gapRecover);
      StepKeepsInvariant(After(es[..|es| - 1], gapRecover), es[|es| - 1], gapRecover);
    }
  }

  lemma InitialInvariant(gapRecover: bool)
    ensures Invariant(Initial, gapRecover)
  {
  }

  /**
    On a first subscription that captures its reset, no live output of the pane is offered before the
    whole reset has been; what was broadcast meanwhile is offered as exactly its last 64 messages, in
    order, or not at all when the subscription recovers a gap.
   */
  lemma {:induction false} ResetBeforeLiveOutput(es: seq<Event>, gapRecover: bool)
    requires IsRun(es, gapRecover)
    ensures var s := After(es, gapRecover);
      && ResetsFirst(s.log)
      && (!NoLiveOutput(s.log) && !s.phase.Failed? ==> Frames(s.log) == s.reset)
      && (s.phase == Flushing([]) ==> Kept(s.log) == Last(s.window, PENDING_APPEND_LIMIT))
      && (s.phase.Done? ==> Kept(s.log) == [])
      && (s.phase == Flushing([]) || s.phase.Done? ==> Frames(s.log) == s.reset)
  {
    hide Frames, Kept, ResetsFirst;
    RunKeepsInvariant(es, gapRecover);
  }

  /** Live output was offered ahead of older output that had been kept back. */
  predicate Overtakes(log: seq<Offer>) {
    exists i, j :: 0 <= i < j < |log| && log[i].Live? && log[j].KeptBack?
  }

  predicate HasLive(log: seq<Offer>) {
    exists i :: 0 <= i < |log| && log[i].Live?
  }

  /** Kept-back messages that are still to be offered. */
  function Left(s: State): seq<Message> {
    match s.phase
    case Cleared => s.buffer.pending
    case Flushing(queue) => queue
    case _ => []
  }

  /** This step offers live output although older messages are still waiting. */
  predicate JumpsAhead(s: State, e: Event) {
    e.OfferDirect? && s.direct.Some? && IsAppendTermOutput(s.direct.value) && Left(s) != []
  }

  lemma OvertakeStep(log: seq<Offer>, o: Offer)
    ensures Overtakes(log + [o]) <==> Overtakes(log) || (o.KeptBack? && HasLive(log))
    ensures HasLive(log + [o]) <==> HasLive(log) || o.Live?
  {
    var l := log + [o];
    assert forall i :: 0 <= i < |log| ==> l[i] == log[i];
    if o.KeptBack? && HasLive(log) {
      var i :| 0 <= i < |log| && log[i].Live?;
      assert l[i].Live? && l[|log|].KeptBack?;
    }
    if Overtakes(log) {
      var i, j :| 0 <= i < j < |log| && log[i].Live? && log[j].KeptBack?;
      assert l[i].Live? && l[j].KeptBack?;
    }
    if o.Live? {
      assert l[|log|].Live?;
    }
  }

  predicate Doomed(s: State) {
    Overtakes(s.log) || (HasLive(s.log) && Left(s) != [])
  }

  lemma DoomStep(s: State, e: Event)
    requires Invariant(s, false) && Enabled(s, e) && !e.CaptureFails?
    ensures Doomed(Next(s, e, false)) <==> Doomed(s) || JumpsAhead(s, e)
  {
    hide Frames, Kept, ResetsFirst, Overtakes, HasLive;
    if NoLiveOutput(s.log) {
      assert !HasLive(s.log) by { NoneMeansNoLive(s.log); }
    }
    match e
    case SendFrame => OvertakeStep(s.log, ResetFrame(s.phase.frames[0]));
    case SendKept => OvertakeStep(s.log, KeptBack(s.phase.queue[0]));
    case OfferDirect => OvertakeStep(s.log, Live(s.direct.value)); OvertakeStep(s.log, Other(s.direct.value));
    case _ =>
  }

  lemma NoneMeansNoLive(log: seq<Offer>)
    requires NoLiveOutput(log)
    ensures !HasLive(log)
  {
  }

  lemma {:induction false} DoomedIffJumped(es: seq<Event>)
    requires IsRun(es, false) && forall k :: 0 <= k < |es| ==> !es[k].CaptureFails?
    ensures Doomed(After(es, false)) <==>
      exists k :: 0 <= k < |es| && IsRun(es[..k], false) && JumpsAhead(After(es[..k], false), es[k])
    decreases |es|
  {
    hide Doomed, JumpsAhead, Next, Enabled, Invariant;
    if es == [] {
      assert !Doomed(Initial) by { NotDoomedAtFirst(); }
    } else {
      var r := es[..|es| - 1];
      DoomedIffJumped(r);
      RunKeepsInvariant(r, false);
      DoomStep(After(r, false), es[|es| - 1]);
      assert forall k :: 0 <= k < |r| ==> r[..k] == es[..k];
    }
  }

  lemma NotDoomedAtFirst()
    ensures !Doomed(Initial)
  {
  }

  /**
    After a completed flush, kept-back output was overtaken by newer live output exactly when the
    broadcaster offered a message directly while the flush still had messages to offer.
   */
  lemma OvertakenIffJumped(es: seq<Event>)
    requires IsRun(es, false) && After(es, false).phase == Flushing([])
    ensures Overtakes(After(es, false).log)
       <==> exists k :: 0 <= k < |es| && IsRun(es[..k], false) && JumpsAhead(After(es[..k], false), es[k])
  {
    forall k | 0 <= k < |es| ensures !es[k].CaptureFails? {
      if es[k].CaptureFails? {
        FailureIsFinal(es, k);
      }
    }
    DoomedIffJumped(es);
  }

  /** A subscription whose capture failed does nothing more. */
  lemma {:induction false} FailureIsFinal(es: seq<Event>, k: nat)
    requires IsRun(es, false) && k < |es| && es[k].CaptureFails?
    ensures After(es, false).phase.Failed?
    decreases |es|
  {
    if k < |es| - 1 {
      FailureIsFinal(es[..|es| - 1], k);
    }
  }

  /** It does happen: `first` is broadcast before `second` and offered after it. */
  lemma OvertakingRun(first: Message, second: Message)
    requires IsAppendTermOutput(first) && IsAppendTermOutput(second)
    ensures exists es :: IsRun(es, false) && After(es, false).log == [Live(second), KeptBack(first)]
  {
    hide After, IsRun;
    RunNothing(false);
    var e1 := [Subscribe];
    var e2 := e1 + [Broadcast(first)];
    var e3 := e2 + [Captured([])];
    var e4 := e3 + [ClearReset];
    var e5 := e4 + [Broadcast(second)];
    var e6 := e5 + [OfferDirect];
    var e7 := e6 + [TakeQueue];
    var e8 := e7 + [SendKept];
    RunStep([], Subscribe, false);
    assert [] + [Subscribe] == e1;
    RunStep(e1, Broadcast(first), false);
    RunStep(e2, Captured([]), false);
    RunStep(e3, ClearReset, false);
    RunStep(e4, Broadcast(second), false);
    RunStep(e5, OfferDirect, false);
    RunStep(e6, TakeQueue, false);
    RunStep(e7, SendKept, false);
    assert IsRun(e8, false) && After(e8, false).log == [Live(second), KeptBack(first)];
  }

  lemma RunNothing(gapRecover: bool)
    ensures IsRun([], gapRecover) && After([], gapRecover) == Initial
  {
  }

  lemma RunStep(es: seq<Event>, e: Event, gapRecover: bool)
    requires IsRun(es, gapRecover) && Enabled(After(es, gapRecover), e)
    ensures IsRun(es + [e], gapRecover) && After(es + [e], gapRecover) == Next(After(es, gapRecover), e, gapRecover)
  {
  }
}
