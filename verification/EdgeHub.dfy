/** The edge hub: many clients and one agent per turn, told apart by connection ids the hub gives out. */
module EdgeHub {
  import opened Decimal
  import opened Wrappers

  /** One websocket connection. */
  datatype Peer = Peer(id: nat)

  datatype Role = Agent | Client

  datatype Session = Session(agent: Option<Peer>, clients: map<string, Peer>, connByClient: map<Peer, string>,
                             nextConnSeq: nat)

  type Sessions = map<string, Session>

  type Bytes = seq<int>

  /**
    Wrapping fails for a payload that cannot be enveloped; unwrapping fails for anything but an
    envelope with an id.
   */
  datatype Codec = Codec(wrap: (string, Bytes) -> Option<Bytes>, unwrap: Bytes -> Option<(string, Bytes)>)

  function ConnID(n: nat): string {
    "conn_" + Print(n)
  }

  lemma ConnIDIsInjective(m: nat, n: nat)
    requires ConnID(m) == ConnID(n)
    ensures m == n
  {
    hide Print, Value;
    ValueOfPrint(m);
    ValueOfPrint(n);
    assert Print(m) == ConnID(m)[5..] && Print(n) == ConnID(n)[5..];
  }

  function NewSession(): Session {
    Session(None, map[], map[], 0)
  }

  function Attached(sessions: Sessions, turnID: string, role: Role, peer: Peer): Sessions {
    var s := if turnID in sessions then sessions[turnID] else NewSession();
    match role
    case Agent => sessions[turnID := s.(agent := Some(peer))]
    case Client =>
      var connID := ConnID(s.nextConnSeq + 1);
      sessions[turnID := Session(s.agent, s.clients[connID := peer], s.connByClient[peer := connID], s.nextConnSeq + 1)]
  }

  /** The session without the peer. */
  function Left(s: Session, role: Role, peer: Peer): Session {
    match role
    case Agent => if s.agent == Some(peer) then s.(agent := None) else s
    case Client =>
      if peer in s.connByClient then
        s.(clients := s.clients - {s.connByClient[peer]}, connByClient := s.connByClient - {peer})
      else s
  }

  function Detached(sessions: Sessions, turnID: string, role: Role, peer: Peer): Sessions {
    if turnID !in sessions then sessions
    else
      var s := Left(sessions[turnID], role, peer);
      if s.agent == None && s.clients == map[] then sessions - {turnID} else sessions[turnID := s]
  }

  /** The id a client's messages are sent under, and the agent they are sent to. */
  function Uplink(sessions: Sessions, turnID: string, client: Peer): Option<(string, Peer)> {
    if turnID in sessions && sessions[turnID].agent.Some? && client in sessions[turnID].connByClient then
      Some((sessions[turnID].connByClient[client], sessions[turnID].agent.value))
    else None
  }

  /** The client an agent's message to `connID` is delivered to. */
  function Downlink(sessions: Sessions, turnID: string, connID: string): Option<Peer> {
    if turnID in sessions && connID in sessions[turnID].clients then Some(sessions[turnID].clients[connID]) else None
  }

  function ClientsOf(sessions: Sessions, turnID: string): set<Peer> {
    if turnID in sessions then sessions[turnID].clients.Values else {}
  }

  // ---------------------------------------------------------------------------------------------

  /** Ids and clients are each other's inverse, every id is one of those given out, and somebody is there. */
  ghost predicate IsSound(s: Session) {
    && (forall c :: c in s.clients ==> s.clients[c] in s.connByClient && s.connByClient[s.clients[c]] == c)
    && (forall p :: p in s.connByClient ==> s.connByClient[p] in s.clients && s.clients[s.connByClient[p]] == p)
    && (forall c :: c in s.clients ==> IsIssued(s, c))
    && (s.agent.Some? || s.clients != map[])
  }

  ghost predicate IsIssued(s: Session, connID: string) {
    exists n: nat :: n <= s.nextConnSeq && connID == ConnID(n)
  }

  ghost predicate AreSound(sessions: Sessions) {
    forall t :: t in sessions ==> IsSound(sessions[t])
  }

  lemma ClientIDsAreNotEmpty(s: Session)
    requires IsSound(s)
    ensures forall p :: p in s.connByClient ==> s.connByClient[p] != ""
  {
  }

  /** The clients of a session are those that have an id. */
  lemma ClientsHaveIDs(sessions: Sessions, turnID: string, p: Peer)
    requires AreSound(sessions)
    ensures p in ClientsOf(sessions, turnID) <==> turnID in sessions && p in sessions[turnID].connByClient
  {
    if turnID in sessions && p in sessions[turnID].connByClient {
      var s := sessions[turnID];
      assert s.connByClient[p] in s.clients && s.clients[s.connByClient[p]] == p;
    }
  }

  /** Somebody other than the peer, in the role it leaves, is attached. */
  ghost predicate HasOthers(s: Session, role: Role, peer: Peer) {
    || (s.agent.Some? && !(role.Agent? && s.agent.value == peer))
    || exists p :: p in s.connByClient && !(role.Client? && p == peer)
  }

  /**
    When a peer leaves, its session goes exactly if nobody else is attached; otherwise all others stay, under
    the ids they have, and so do all other sessions.
   */
  lemma LeavingLeavesOthers(sessions: Sessions, turnID: string, role: Role, peer: Peer, other: string)
    requires AreSound(sessions) && turnID in sessions && other != turnID
    ensures var n, s := Detached(sessions, turnID, role, peer), sessions[turnID];
      && (other in n <==> other in sessions) && (other in n ==> n[other] == sessions[other])
      && (turnID in n <==> HasOthers(s, role, peer))
      && (turnID in n ==>
        && n[turnID].agent == (if role.Agent? && s.agent == Some(peer) then None else s.agent)
        && n[turnID].nextConnSeq == s.nextConnSeq
        && forall p ::
          && (p in n[turnID].connByClient <==> p in s.connByClient && !(role.Client? && p == peer))
          && (p in n[turnID].connByClient ==> n[turnID].connByClient[p] == s.connByClient[p]))
  {
    var s, l := sessions[turnID], Left(sessions[turnID], role, peer);
    assert l.clients != map[] <==> exists p :: p in s.connByClient && !(role.Client? && p == peer) by {
      LeftClients(s, role, peer);
    }
  }

  lemma LeftClients(s: Session, role: Role, peer: Peer)
    requires IsSound(s)
    ensures Left(s, role, peer).clients != map[] <==>
      exists p :: p in s.connByClient && !(role.Client? && p == peer)
  {
    var l := Left(s, role, peer);
    if l.clients != map[] {
      var c :| c in l.clients;
      assert s.clients[c] in s.connByClient && !(role.Client? && s.clients[c] == peer);
    }
    if p :| p in s.connByClient && !(role.Client? && p == peer) {
      assert s.connByClient[p] in l.clients;
    }
  }

  /** A peer that attaches takes the agent's place, or gets the next id; nobody else and no other session changes. */
  lemma JoiningLeavesOthers(sessions: Sessions, turnID: string, role: Role, peer: Peer, other: string, p: Peer)
    requires other != turnID && p != peer
    ensures var n := Attached(sessions, turnID, role, peer);
      var s := if turnID in sessions then sessions[turnID] else Session(None, map[], map[], 0);
      && (other in n <==> other in sessions) && (other in n ==> n[other] == sessions[other])
      && turnID in n
      && n[turnID].agent == (if role.Agent? then Some(peer) else s.agent)
      && (p in n[turnID].connByClient <==> p in s.connByClient)
      && (p in s.connByClient ==> n[turnID].connByClient[p] == s.connByClient[p])
      && n[turnID].nextConnSeq == s.nextConnSeq + (if role.Client? then 1 else 0)
      && (role.Agent? ==> n[turnID].clients == s.clients)
      && (role.Client? ==>
        && n[turnID].connByClient[peer] == "conn_" + Print(s.nextConnSeq + 1)
        && n[turnID].clients["conn_" + Print(s.nextConnSeq + 1)] == peer)
  {
    hide Print;
  }

  method Leave(before: Session, role: Role, peer: Peer) returns (s: Session)
    requires IsSound(before)
    ensures s == Left(before, role, peer)
  {
    s := before;
    ClientIDsAreNotEmpty(s);
    hide IsSound;
    if role.Agent? && s.agent == Some(peer) {
      s := s.(agent := None);
    }
    if role.Client? {
      var connID := if peer in s.connByClient then s.connByClient[peer] else "";
      s := s.(connByClient := s.connByClient - {peer});
      if connID != "" {
        s := s.(clients := s.clients - {connID});
      }
    }
  }

  class EdgeWSHub {
    var sessions: Sessions

    constructor ()
      ensures sessions == map[]
    {
      sessions := map[];
    }

    method Attach(turnID: string, role: Role, peer: Peer)
      modifies this
      ensures sessions == Attached(old(sessions), turnID, role, peer)
    {
      if turnID !in sessions {
        sessions := sessions[turnID := NewSession()];
      }
      var s := sessions[turnID];
      if role.Agent? {
        s := s.(agent := Some(peer));
      } else {
        s := s.(nextConnSeq := s.nextConnSeq + 1);
        var connID := ConnID(s.nextConnSeq);
        s := s.(clients := s.clients[connID := peer]);
        s := s.(connByClient := s.connByClient[peer := connID]);
      }
      sessions := sessions[turnID := s];
    }

    method Detach(turnID: string, role: Role, peer: Peer)
      requires AreSound(sessions)
      modifies this
      ensures sessions == Detached(old(sessions), turnID, role, peer)
    {
      hide IsSound, Left;
      if turnID !in sessions {
        return;
      }
      var s := Leave(sessions[turnID], role, peer);
      if s.agent == None && |s.clients| == 0 {
        sessions := sessions - {turnID};
      } else {
        sessions := sessions[turnID := s];
      }
    }

    /** A client's message goes to the agent of its turn, in an envelope with the client's id. */
    method WrapClientOutbound(codec: Codec, turnID: string, peer: Peer, data: Bytes)
      returns (out: Option<(Peer, Bytes)>)
      requires AreSound(sessions)
      ensures var up := Uplink(sessions, turnID, peer);
        out ==
          if up.Some? && codec.wrap(up.value.0, data).Some? then
            Some((up.value.1, codec.wrap(up.value.0, data).value))
          else None
    {
      if turnID !in sessions || sessions[turnID].agent == None {
        return None;
      }
      var s := sessions[turnID];
      var connID := if peer in s.connByClient then s.connByClient[peer] else "";
      if connID == "" {
        return None;
      }
      var outbound := codec.wrap(connID, data);
      if outbound.None? {
        return None;
      }
      return Some((s.agent.value, outbound.value));
    }

    /**
      An enveloped message goes to the client it names, without the envelope; any other goes to all
      clients as it is.
     */
    method RouteAgentOutbound(codec: Codec, turnID: string, data: Bytes) returns (targets: seq<Peer>, outbound: Bytes)
      requires AreSound(sessions)
      ensures codec.unwrap(data).Some? ==>
        var down := Downlink(sessions, turnID, codec.unwrap(data).value.0);
        if down.Some? then targets == [down.value] && outbound == codec.unwrap(data).value.1 else targets == []
      ensures codec.unwrap(data).None? ==>
        && (forall p :: p in targets <==> p in ClientsOf(sessions, turnID))
        && (forall i, j :: 0 <= i < j < |targets| ==> targets[i] != targets[j])
        && (targets != [] ==> outbound == data)
    {
      var unwrapped := codec.unwrap(data);
      if turnID !in sessions || |sessions[turnID].clients| == 0 {
        return [], [];
      }
      var s := sessions[turnID];
      if unwrapped.None? {
        targets := [];
        var left := s.clients.Keys;
        while left != {}
          invariant left <= s.clients.Keys
          invariant forall c :: c in s.clients && c !in left ==> s.clients[c] in targets
          invariant forall p :: p in targets ==> p in s.connByClient && s.connByClient[p] !in left
          invariant forall i, j :: 0 <= i < j < |targets| ==> targets[i] != targets[j]
        {
          var c :| c in left;
          left := left - {c};
          targets := targets + [s.clients[c]];
        }
        return targets, data;
      }
      var connID, inner := unwrapped.value.0, unwrapped.value.1;
      if connID !in s.clients {
        return [], [];
      }
      return [s.clients[connID]], inner;
    }
  }
}
