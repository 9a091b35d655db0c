/** Runs of the edge hub: whom an agent's answers reach. */
module EdgeRouting {
  import opened EdgeHub
  import opened Wrappers

  datatype Event = Attach(turnID: string, role: Role, peer: Peer) | Detach(turnID: string, role: Role, peer: Peer)

  function Next(sessions: Sessions, e: Event): Sessions {
    match e
    case Attach(t, role, p) => Attached(sessions, t, role, p)
    case Detach(t, role, p) => Detached(sessions, t, role, p)
  }

  function After(events: seq<Event>): Sessions {
    if events == [] then map[] else Next(After(events[..|events| - 1]), events[|events| - 1])
  }

  /** Every connection is attached at most once. */
  ghost predicate AttachOnce(events: seq<Event>) {
    forall i, j :: 0 <= i < j < |events| && events[i].Attach? && events[j].Attach? ==> events[i].peer != events[j].peer
  }

  ghost predicate HasAttached(events: seq<Event>, p: Peer) {
    exists e :: e in events && e.Attach? && e.peer == p
  }

  /** The turn's session has existed at every point from `i` on. */
  ghost predicate StaysUp(events: seq<Event>, i: nat, turnID: string) {
    forall k :: i <= k <= |events| ==> turnID in After(events[..k])
  }

  /** The agent is the turn's agent at `i`, and from then on it does not leave and no other attaches. */
  ghost predicate IsOnlyAgent(events: seq<Event>, i: nat, turnID: string, agent: Peer)
    requires i <= |events|
  {
    && turnID in After(events[..i]) && After(events[..i])[turnID].agent == Some(agent)
    && forall e :: e in events[i..] && e.turnID == turnID && e.role.Agent? ==> e.Detach? && e.peer != agent
  }

  // ---------------------------------------------------------------------------------------------
  // Soundness.

  lemma IssuedLater(s: Session, n: nat)
    requires n <= s.nextConnSeq
    ensures IsIssued(s, ConnID(n))
  {
  }

  lemma AttachedIsSound(sessions: Sessions, t: string, role: Role, p: Peer)
    requires AreSound(sessions) && forall u :: u in sessions ==> p !in sessions[u].connByClient
    ensures AreSound(Attached(sessions, t, role, p))
  {
    hide ConnID;
    var s := if t in sessions then sessions[t] else NewSession();
    var n := Attached(sessions, t, role, p)[t];
    if role.Client? {
      var id := ConnID(s.nextConnSeq + 1);
      IssuedLater(n, s.nextConnSeq + 1);
      assert id !in s.clients by {
        if id in s.clients {
          var k: nat :| k <= s.nextConnSeq && id == ConnID(k);
          ConnIDIsInjective(k, s.nextConnSeq + 1);
        }
      }
      assert forall c :: IsIssued(s, c) ==> IsIssued(n, c);
      assert id in n.clients;
    }
  }

  lemma DetachedIsSound(sessions: Sessions, t: string, role: Role, p: Peer)
    requires AreSound(sessions)
    ensures AreSound(Detached(sessions, t, role, p))
  {
    hide IsSound, Left;
    if t in sessions {
      LeftIsSound(sessions[t], role, p);
    }
  }

  lemma LeftIsSound(s: Session, role: Role, p: Peer)
    requires IsSound(s)
    ensures var n := Left(s, role, p); n.agent.Some? || n.clients != map[] ==> IsSound(n)
  {
    hide ConnID;
    var n := Left(s, role, p);
    assert forall c :: IsIssued(s, c) ==> IsIssued(n, c);
  }

  /** Only connections that have attached are clients. */
  ghost predicate ClientsHaveAttached(events: seq<Event>) {
    forall t, p :: t in After(events) && p in After(events)[t].connByClient ==> HasAttached(events, p)
  }

  lemma AttachedMore(events: seq<Event>, e: Event, p: Peer)
    ensures HasAttached(events + [e], p) <==> HasAttached(events, p) || (e.Attach? && e.peer == p)
  {
  }

  /** In every run the ids and the clients of a session are inverse to each other, and no session is left empty. */
  lemma {:induction false} SessionsAreSound(events: seq<Event>)
    requires AttachOnce(events)
    ensures AreSound(After(events)) && ClientsHaveAttached(events)
  {
    hide IsSound;
    if events != [] {
      var init, e := events[..|events| - 1], events[|events| - 1];
      assert events == init + [e];
      SessionsAreSound(init);
      forall p ensures HasAttached(events, p) <==> HasAttached(init, p) || (e.Attach? && e.peer == p) {
        AttachedMore(init, e, p);
      }
      if e.Attach? {
        assert !HasAttached(init, e.peer);
        AttachedIsSound(After(init), e.turnID, e.role, e.peer);
      } else {
        DetachedIsSound(After(init), e.turnID, e.role, e.peer);
      }
    }
  }

  // ---------------------------------------------------------------------------------------------
  // One client of one session.

  /** Where the client stands under its id: attached under it, or gone for good. */
  ghost predicate Tracks(s: Session, client: Peer, connID: string, left: bool) {
    && IsIssued(s, connID)
    && (if left then connID !in s.clients && client !in s.connByClient
        else (
          && connID in s.clients && s.clients[connID] == client
          && client in s.connByClient && s.connByClient[client] == connID))
  }

  lemma AttachTracks(sessions: Sessions, t: string, e: Event, client: Peer, connID: string, left: bool)
    requires AreSound(sessions) && t in sessions && e.Attach? && e.peer != client
      && Tracks(sessions[t], client, connID, left)
    ensures Tracks(Next(sessions, e)[t], client, connID, left)
  {
    hide ConnID, IsSound;
    var s, n := sessions[t], Next(sessions, e)[t];
    var k: nat :| k <= s.nextConnSeq && connID == ConnID(k);
    IssuedLater(n, k);
    if e.turnID == t && e.role.Client? && ConnID(s.nextConnSeq + 1) == connID {
      ConnIDIsInjective(k, s.nextConnSeq + 1);
    }
  }

  lemma DetachTracks(sessions: Sessions, t: string, e: Event, client: Peer, connID: string, left: bool)
    requires AreSound(sessions) && t in sessions && e.Detach? && t in Next(sessions, e)
      && Tracks(sessions[t], client, connID, left)
    ensures Tracks(Next(sessions, e)[t], client, connID, left || e == Detach(t, Client, client))
  {
    hide ConnID;
    var s, n := sessions[t], Next(sessions, e)[t];
    var k: nat :| k <= s.nextConnSeq && connID == ConnID(k);
    IssuedLater(n, k);
  }

  lemma {:induction false} ClientIsTracked(events: seq<Event>, i: nat, t: string, client: Peer)
    requires AttachOnce(events) && i <= |events| && StaysUp(events, i, t)
    requires t in After(events[..i]) && client in After(events[..i])[t].connByClient
    ensures t in After(events)
      && Tracks(After(events)[t], client, After(events[..i])[t].connByClient[client],
        Detach(t, Client, client) in events[i..])
  {
    hide Tracks, Next, IsSound;
    SessionsAreSound(events[..i]);
    if i == |events| {
      assert events[..i] == events;
      SoundTracks(After(events)[t], client);
    } else {
      var n := |events| - 1;
      var init, e := events[..n], events[n];
      var connID := After(events[..i])[t].connByClient[client];
      var left := Detach(t, Client, client) in init[i..];
      assert init[..i] == events[..i] && events[i..] == init[i..] + [e] && events[..|events|] == events;
      assert forall k :: i <= k <= n ==> init[..k] == events[..k];
      ClientIsTracked(init, i, t, client);
      SessionsAreSound(init);
      if e.Attach? {
        assert HasAttached(events[..i], client);
        assert e.peer != client;
        AttachTracks(After(init), t, e, client, connID, left);
      } else {
        DetachTracks(After(init), t, e, client, connID, left);
      }
    }
  }

  lemma SoundTracks(s: Session, client: Peer)
    requires IsSound(s) && client in s.connByClient
    ensures Tracks(s, client, s.connByClient[client], false)
  {
  }

  /**
    As long as the session stays up, an id means the client it was given to: a message to it reaches
    that client if it is still attached, and nobody if it has left.
   */
  lemma {:induction false} IDsAreNotReissued(events: seq<Event>, i: nat, t: string, client: Peer)
    requires AttachOnce(events) && i <= |events| && StaysUp(events, i, t)
    requires t in After(events[..i]) && client in After(events[..i])[t].connByClient
    ensures Downlink(After(events), t, After(events[..i])[t].connByClient[client])
      == if Detach(t, Client, client) in events[i..] then None else Some(client)
  {
    hide After;
    ClientIsTracked(events, i, t, client);
  }

  // ---------------------------------------------------------------------------------------------
  // One agent.

  lemma AgentStays(sessions: Sessions, e: Event, t: string, agent: Peer)
    requires t in sessions && sessions[t].agent == Some(agent)
    requires e.turnID == t && e.role.Agent? ==> e.Detach? && e.peer != agent
    ensures t in Next(sessions, e) && Next(sessions, e)[t].agent == Some(agent)
  {
  }

  lemma LastEvent(events: seq<Event>)
    requires events != []
    ensures After(events) == Next(After(events[..|events| - 1]), events[|events| - 1])
  {
  }

  lemma UpAtTheEnd(events: seq<Event>, t: string)
    requires t in After(events)
    ensures StaysUp(events, |events|, t)
  {
    assert events[..|events|] == events;
  }

  lemma {:induction false} UpOneMore(events: seq<Event>, i: nat, t: string)
    requires i < |events| && StaysUp(events[..|events| - 1], i, t) && t in After(events)
    ensures StaysUp(events, i, t)
  {
    hide After;
    var n := |events| - 1;
    forall k | i <= k <= |events| ensures t in After(events[..k]) {
      assert if k == |events| then events[..k] == events else events[..n][..k] == events[..k];
    }
  }

  lemma {:induction false} AgentKeepsSessionUp(events: seq<Event>, i: nat, t: string, agent: Peer)
    requires i <= |events| && IsOnlyAgent(events, i, t, agent)
    ensures StaysUp(events, i, t) && t in After(events) && After(events)[t].agent == Some(agent)
  {
    hide After, StaysUp;
    if i == |events| {
      assert events[..i] == events;
      UpAtTheEnd(events, t);
    } else {
      var n := |events| - 1;
      var init, e := events[..n], events[n];
      assert init[..i] == events[..i] && events[i..] == init[i..] + [e];
      assert e in events[i..];
      AgentKeepsSessionUp(init, i, t, agent);
      AgentStays(After(init), e, t, agent);
      LastEvent(events);
      UpOneMore(events, i, t);
    }
  }

  /**
    No cross-delivery: what a turn's only agent answers to a client's message, under the id it came
    with, reaches that client or, once it has left, nobody.
   */
  lemma {:induction false} NoCrossDelivery(events: seq<Event>, i: nat, t: string, agent: Peer, client: Peer)
    requires AttachOnce(events) && i <= |events| && IsOnlyAgent(events, i, t, agent)
    ensures var up := Uplink(After(events[..i]), t, client);
      up.Some? ==>
        && up.value.1 == agent
        && Downlink(After(events), t, up.value.0)
          == if Detach(t, Client, client) in events[i..] then None else Some(client)
  {
    hide After, StaysUp;
    AgentKeepsSessionUp(events, i, t, agent);
    if Uplink(After(events[..i]), t, client).Some? {
      IDsAreNotReissued(events, i, t, client);
    }
  }

  // ---------------------------------------------------------------------------------------------
  // Sessions that went down.

  lemma {:induction false} NeverComesBack(events: seq<Event>, i: nat, t: string, client: Peer)
    requires AttachOnce(events) && i <= |events| && HasAttached(events[..i], client)
    requires t in After(events[..i]) ==> client !in After(events[..i])[t].connByClient
    ensures t in After(events) ==> client !in After(events)[t].connByClient
  {
    if i == |events| {
      assert events[..i] == events;
    } else {
      var n := |events| - 1;
      assert events[..n][..i] == events[..i];
      NeverComesBack(events[..n], i, t, client);
      if events[n].Attach? {
        assert events[n].peer != client;
      }
    }
  }

  /**
    A message that is delivered is delivered to the client the id was given to exactly when the session
    has stayed up.
   */
  lemma {:induction false} DeliveredRightIff(events: seq<Event>, i: nat, t: string, client: Peer)
    requires AttachOnce(events) && i <= |events|
    requires t in After(events[..i]) && client in After(events[..i])[t].connByClient
    ensures var down := Downlink(After(events), t, After(events[..i])[t].connByClient[client]);
      down.Some? ==> (down == Some(client) <==> StaysUp(events, i, t))
  {
    hide After, Tracks;
    if StaysUp(events, i, t) {
      IDsAreNotReissued(events, i, t, client);
    } else {
      var k :| i <= k <= |events| && t !in After(events[..k]);
      SessionsAreSound(events[..i]);
      assert HasAttached(events[..i], client);
      var e :| e in events[..i] && e.Attach? && e.peer == client;
      assert events[..k][..i] == events[..i] && e in events[..k][..i];
      assert HasAttached(events[..k], client);
      NeverComesBack(events, k, t, client);
      SessionsAreSound(events);
    }
  }

  function Superseded(t: string, a: Peer, b: Peer, p: Peer, q: Peer): seq<Event> {
    [Attach(t, Agent, a), Attach(t, Client, p), Attach(t, Agent, b),
     Detach(t, Client, p), Detach(t, Agent, b), Attach(t, Client, q)]
  }

  /**
    An agent that was replaced but has not left can reach another client under an id it knows from an
    earlier session.
   */
  lemma SupersededAgentCrosses(t: string, a: Peer, b: Peer, p: Peer, q: Peer)
    requires a != b && p !in {a, b} && q !in {a, b, p}
    ensures var events := Superseded(t, a, b, p, q);
      && AttachOnce(events)
      && Uplink(After(events[..2]), t, p) == Some((ConnID(1), a))
      && Downlink(After(events), t, ConnID(1)) == Some(q)
      && Detach(t, Agent, a) !in events
  {
    hide ConnID;
    var events := Superseded(t, a, b, p, q);
    PrefixSteps(events);
  }

  lemma PrefixSteps(events: seq<Event>)
    requires |events| == 6
    ensures After(events[..2]) == Next(Next(map[], events[0]), events[1])
    ensures After(events) == Next(Next(Next(Next(After(events[..2]), events[2]), events[3]), events[4]), events[5])
  {
    hide Next;
    assert events[..0] == [] && events[..6] == events;
    assert forall k :: 0 <= k < 6 ==> events[..k + 1][..k] == events[..k];
    forall k | 0 <= k < 6 ensures After(events[..k + 1]) == Next(After(events[..k]), events[k]) {
    }
  }
}
