/** What becomes of every message broadcast around a subscription, told from the events alone. */
module KeptOutput {
  import opened PaneStream
  import opened PaneSubscription
  import opened Protocol
  import opened RecencyList
  import opened Wrappers

  import TermFrames
  import Utf8

  /** The reset was sent, or could not be. */
  predicate HasEnded(es: seq<Event>) {
    exists e :: e in es && (e.ClearReset? || e.CaptureFails?)
  }

  /** Live output that is broadcast before the reset is over, in order. */
  function BroadcastMeanwhile(es: seq<Event>): seq<Message> {
    if es == [] then []
    else
      var init, e := es[..|es| - 1], es[|es| - 1];
      BroadcastMeanwhile(init)
      + if e.Broadcast? && e.m.op == "term.output" && e.m.mode == "append" && !HasEnded(init)
        then [e.m] else []
  }

  /** All other broadcasts: live output once the reset is over, and everything else at any time. */
  function BroadcastOtherwise(es: seq<Event>): seq<Message> {
    if es == [] then []
    else
      var init, e := es[..|es| - 1], es[|es| - 1];
      BroadcastOtherwise(init)
      + if e.Broadcast? && !(e.m.op == "term.output" && e.m.mode == "append" && !HasEnded(init))
        then [e.m] else []
  }

  /** What was offered directly. */
  function Directly(log: seq<Offer>): seq<Message> {
    if log == [] then []
    else
      var o := log[|log| - 1];
      Directly(log[..|log| - 1]) + if o.Live? || o.Other? then [o.m] else []
  }

  lemma EndedStep(init: seq<Event>, e: Event)
    ensures HasEnded(init + [e]) <==> HasEnded(init) || e.ClearReset? || e.CaptureFails?
    ensures !HasEnded([])
  {
    assert e in init + [e];
  }

  /** The reset is pending from the subscription to its end. */
  lemma {:induction false} PendingIff(es: seq<Event>, gapRecover: bool)
    requires IsRun(es, gapRecover)
    ensures After(es, gapRecover).buffer.subscribed <==> es != []
    ensures After(es, gapRecover).buffer.resetPending <==> es != [] && !HasEnded(es)
    decreases |es|
  {
    if es != [] {
      var init, e := es[..|es| - 1], es[|es| - 1];
      PendingIff(init, gapRecover);
      RunKeepsInvariant(init, gapRecover);
      assert es == init + [e];
      EndedStep(init, e);
      hide HasEnded, Frames, Kept, ResetsFirst, NoLiveOutput, Last;
    }
  }

  /** One step's share of the broadcasts. */
  predicate Follows(s: State, n: State, e: Event, meanwhile: bool) {
    && n.window == s.window + (if e.Broadcast? && meanwhile then [e.m] else [])
    && Directly(n.log) + Waiting(n) == Directly(s.log) + Waiting(s) + (if e.Broadcast? && !meanwhile then [e.m] else [])
  }

  /** The message whose direct offer is under way. */
  function Waiting(s: State): seq<Message> {
    if s.direct.Some? then [s.direct.value] else []
  }

  lemma StepFollows(s: State, e: Event, gapRecover: bool)
    requires Enabled(s, e) && !e.CaptureFails?
    ensures Follows(s, Next(s, e, gapRecover), e,
      e.Broadcast? && e.m.op == "term.output" && e.m.mode == "append" && s.buffer.resetPending)
  {
    assert s.log + [] == s.log && s.window + [] == s.window;
    assert Directly(s.log) + Waiting(s) + [] == Directly(s.log) + Waiting(s);
    if e.OfferDirect? || e.SendFrame? || e.SendKept? {
      var n := Next(s, e, gapRecover);
      assert n.log[..|n.log| - 1] == s.log;
    }
  }

  /**
    Every broadcast is accounted for: live output broadcast while the reset is pending is kept back, and
    everything else is offered directly, both in the order of the broadcasts.
   */
  lemma {:induction false} BroadcastsAreAccounted(es: seq<Event>, gapRecover: bool)
    requires IsRun(es, gapRecover) && forall e :: e in es ==> !e.CaptureFails?
    ensures var s := After(es, gapRecover);
      s.window == BroadcastMeanwhile(es) && Directly(s.log) + Waiting(s) == BroadcastOtherwise(es)
    decreases |es|
  {
    hide Next, Enabled, Directly, HasEnded;
    if es == [] {
      NothingFollows();
    } else {
      var init, e := es[..|es| - 1], es[|es| - 1];
      assert e in es && forall x :: x in init ==> x in es;
      BroadcastsAreAccounted(init, gapRecover);
      PendingIff(init, gapRecover);
      NobodyIsThere(init, e, gapRecover);
      StepFollows(After(init, gapRecover), e, gapRecover);
    }
  }

  lemma NothingFollows()
    ensures Initial.window == [] && Directly(Initial.log) + Waiting(Initial) == []
  {
  }

  lemma NobodyIsThere(init: seq<Event>, e: Event, gapRecover: bool)
    requires IsRun(init, gapRecover) && Enabled(After(init, gapRecover), e)
    ensures init == [] ==> !e.Broadcast?
  {
  }

  /**
    What a completed first subscription offers of the live output kept back is exactly its last 64 messages;
    and nothing offered directly is lost or reordered.
   */
  lemma KeptIsLast64(es: seq<Event>)
    requires IsRun(es, false) && After(es, false).phase == Flushing([])
    ensures var s := After(es, false);
      && Kept(s.log) == Last(BroadcastMeanwhile(es), 64)
      && Directly(s.log) + Waiting(s) == BroadcastOtherwise(es)
  {
    hide Kept, Last, BroadcastMeanwhile, BroadcastOtherwise, Directly, Waiting;
    forall e | e in es ensures !e.CaptureFails? {
      var k :| 0 <= k < |es| && es[k] == e;
      if e.CaptureFails? {
        FailureIsFinal(es, k);
      }
    }
    ResetBeforeLiveOutput(es, false);
    BroadcastsAreAccounted(es, false);
  }

  /** Subscribing again starts over: the reset is pending, and nothing of what was kept back remains. */
  lemma SubscribingStartsOver(b: Buffer, m: Message)
    ensures Opened(b) == Buffer(true, true, [])
    ensures KeepsBack(b, m) <==> m.op == "term.output" && m.mode == "append" && b.resetPending
  {
  }

  /** The frames of a reset are one message that is no append, followed by appends. */
  lemma ResetIsOneHead(data: Utf8.Bytes, cursor: Option<(int, int)>, text: Utf8.Bytes -> string, i: nat)
    requires i < |TermFrames.Outputs("reset", data, cursor)|
    ensures var o := TermFrames.Outputs("reset", data, cursor)[i];
      IsAppendTermOutput(Message("term.output", o.mode, text(o.data))) <==> i > 0
  {
    hide TermFrames.Outputs;
    TermFrames.CursorComesLast("reset", data, cursor);
  }
}
