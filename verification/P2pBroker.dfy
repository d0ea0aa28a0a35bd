/** The broker itself, updating its maps in place, and the signals it sends. */
module P2pBroker {
  import opened Ids
  import opened Wrappers
  import opened P2p
  import opened P2pPunch

  const SUB_REQUEST := 0
  const SUB_ACCEPT := 1
  const SUB_DECLINE := 2
  const SUB_CANCEL := 3
  const SUB_LINK_LOST := 4
  const SUB_SERVER_ARMED := 5
  const SUB_LINK_UP := 6

  /** A message to one peer about its session with another. */
  datatype Signal = Signal(to: PeerId, sub: int, token: Token, other: PeerId)

  /** The addresses of one end of a session, sent to an address of the other. */
  datatype Introduction = Introduction(to: Address, internal: Address, external: Address, token: Token)

  /** Each end gets the addresses of the other, at its own external address. */
  function NatIntroduce(
      hostInternal: Address, hostExternal: Address, clientInternal: Address, clientExternal: Address, token: Token)
    : (sent: seq<Introduction>)
  {
    [Introduction(clientExternal, hostInternal, hostExternal, token),
     Introduction(hostExternal, clientInternal, clientExternal, token)]
  }

  /** What an incoming signal means to the broker. */
  function EventOf(sub: int, sender: PeerId, other: PeerId, token: Token, authenticated: bool): Option<Event> {
    if sub == SUB_REQUEST then Some(Request(sender, other, token, authenticated))
    else if sub == SUB_ACCEPT then Some(Accept(sender, other, token))
    else if sub == SUB_DECLINE || sub == SUB_CANCEL then Some(Drop(token))
    else if sub == SUB_LINK_LOST then Some(LinkLost(token))
    else if sub == SUB_LINK_UP then Some(LinkUp(sender, token))
    else None
  }

  /** The numbers of the signals on the wire. */
  lemma SignalNumbers(sender: PeerId, other: PeerId, token: Token, authenticated: bool)
    ensures EventOf(0, sender, other, token, authenticated) == Some(Request(sender, other, token, authenticated))
    ensures EventOf(1, sender, other, token, authenticated) == Some(Accept(sender, other, token))
    ensures EventOf(2, sender, other, token, authenticated) == Some(Drop(token))
    ensures EventOf(3, sender, other, token, authenticated) == Some(Drop(token))
    ensures EventOf(4, sender, other, token, authenticated) == Some(LinkLost(token))
    ensures EventOf(6, sender, other, token, authenticated) == Some(LinkUp(sender, token))
    ensures forall sub :: sub < 0 || sub == 5 || sub > 6 ==> EventOf(sub, sender, other, token, authenticated) == None
  {}

  /** Removing the sessions of one token after those of others. */
  lemma WithoutOneMore(b: Broker, tokens: set<Token>, token: Token)
    ensures WithoutSessions(WithoutSessions(b, tokens), {token}) == WithoutSessions(b, tokens + {token})
  {
    hide PairOf, Party;
    var first := WithoutSessions(b, tokens);
    EndedSplit(b, tokens, token);
    assert b.sessions - tokens - {token} == b.sessions - (tokens + {token});
    forall peer | peer in b.peerSessions
      ensures (b.peerSessions[peer] - Ended(b, tokens, peer)) - Ended(first, {token}, peer)
           == b.peerSessions[peer] - Ended(b, tokens + {token}, peer)
    {
      assert Ended(b, tokens + {token}, peer) == Ended(b, tokens, peer) + Ended(first, {token}, peer);
    }
  }

  lemma EndedSplit(b: Broker, tokens: set<Token>, token: Token)
    ensures EndedPairs(b, tokens + {token}) == EndedPairs(b, tokens) + EndedPairs(WithoutSessions(b, tokens), {token})
  {}

  lemma WithoutNone(b: Broker)
    ensures WithoutSessions(b, {}) == b
  {
    NothingEnded(b, {});
  }

  lemma WithoutUnknown(b: Broker, token: Token)
    requires token !in b.sessions
    ensures WithoutSessions(b, {token}) == b
  {
    NothingEnded(b, {token});
  }

  lemma NothingEnded(b: Broker, tokens: set<Token>)
    requires tokens !! b.sessions.Keys
    ensures WithoutSessions(b, tokens) == b
  {
    assert EndedPairs(b, tokens) == {};
    assert b.sessions - tokens == b.sessions && b.offloaded - {} == b.offloaded;
    forall peer | peer in b.peerSessions ensures b.peerSessions[peer] - Ended(b, tokens, peer) == b.peerSessions[peer] {
      assert Ended(b, tokens, peer) == {};
    }
  }

  class P2pBroker {
    var sessions: map<Token, Session>
    var peerSessions: map<PeerId, set<Token>>
    var offloadedPairs: set<nat>

    function State(): Broker
      reads this
    {
      Broker(sessions, peerSessions, offloadedPairs)
    }

    constructor ()
      ensures State() == EMPTY
    {
      sessions, peerSessions, offloadedPairs := map[], map[], {};
    }

    method TrackPeerSession(peer: PeerId, token: Token)
      modifies this`peerSessions
      ensures State() == Track(old(State()), peer, token)
    {
      var tokens := if peer in peerSessions then peerSessions[peer] else {};
      peerSessions := peerSessions[peer := tokens + {token}];
    }

    method UntrackPeerSession(peer: PeerId, token: Token)
      modifies this`peerSessions
      ensures peerSessions == map p | p in old(peerSessions) ::
                                if p == peer then old(peerSessions[p]) - {token} else old(peerSessions[p])
    {
      if peer in peerSessions {
        peerSessions := peerSessions[peer := peerSessions[peer] - {token}];
      }
    }

    method RemoveSession(token: Token)
      modifies this
      ensures State() == WithoutSessions(old(State()), {token})
    {
      hide PackPair;
      if token !in sessions {
        WithoutUnknown(State(), token);
        return;
      }
      ghost var before := State();
      var session := sessions[token];
      sessions := sessions - {token};
      UntrackPeerSession(session.initiator, token);
      UntrackPeerSession(session.target, token);
      offloadedPairs := offloadedPairs - {PairOf(session)};
      assert EndedPairs(before, {token}) == {PairOf(session)};
      forall peer ensures Ended(before, {token}, peer) == if Party(session, peer) then {token} else {} {}
      forall peer | peer in before.peerSessions
        ensures peerSessions[peer] == before.peerSessions[peer] - Ended(before, {token}, peer)
      {}
    }

    method HandleRequest(sender: PeerId, other: PeerId, token: Token, authenticated: bool) returns (sent: seq<Signal>)
      modifies this
      ensures State() == AfterRequest(old(State()), sender, other, token, authenticated)
      ensures sent ==
        if token == "" || other == sender then []
        else if !authenticated then [Signal(sender, SUB_CANCEL, token, other)]
        else [Signal(other, SUB_REQUEST, token, sender), Signal(sender, SUB_SERVER_ARMED, token, other)]
    {
      if token == "" || other == sender { return []; }
      if !authenticated { return [Signal(sender, SUB_CANCEL, token, other)]; }
      var session := Session(sender, other, Awaiting, None, None, None, None, false, false);
      sessions := sessions[token := session];
      TrackPeerSession(sender, token);
      TrackPeerSession(other, token);
      return [Signal(other, SUB_REQUEST, token, sender), Signal(sender, SUB_SERVER_ARMED, token, other)];
    }

    method HandleAccept(sender: PeerId, other: PeerId, token: Token) returns (sent: seq<Signal>)
      modifies this`sessions
      ensures State() == AfterAccept(old(State()), sender, other, token)
      ensures sent != [] ==> sent == [Signal(other, SUB_ACCEPT, token, sender)]
      ensures sent != [] <==>
                && token in old(sessions)
                && old(sessions[token].target) == sender
                && old(sessions[token].initiator) == other
    {
      if token !in sessions { return []; }
      var session := sessions[token];
      if session.target != sender || session.initiator != other { return []; }
      sessions := sessions[token := session.(state := ReadyForPunch)];
      return [Signal(session.initiator, SUB_ACCEPT, token, sender)];
    }

    method HandleLinkUp(sender: PeerId, token: Token)
      modifies this
      ensures State() == AfterLinkUp(old(State()), sender, token)
    {
      hide PackPair;
      if token !in sessions { return; }
      var session := sessions[token];
      if sender == session.initiator {
        session := session.(initiatorUp := true);
      } else if sender == session.target {
        session := session.(targetUp := true);
      } else {
        return;
      }
      sessions := sessions[token := session];
      if session.initiatorUp && session.targetUp {
        offloadedPairs := offloadedPairs + {PairOf(session)};
      }
    }

    method HandleLinkLost(sender: PeerId, other: PeerId, token: Token) returns (sent: seq<Signal>)
      modifies this
      ensures State() == AfterLinkLost(old(State()), token)
      ensures sent == [Signal(other, SUB_LINK_LOST, token, sender)]
    {
      hide PackPair;
      if token in sessions {
        var session := sessions[token];
        sessions := sessions[token := session.(
          aInternal := None, aExternal := None, bInternal := None, bExternal := None,
          initiatorUp := false, targetUp := false, state := ReadyForPunch)];
        offloadedPairs := offloadedPairs - {PairOf(session)};
      }
      sent := ForwardAndDrop(sender, other, token, SUB_LINK_LOST, false);
    }

    method ForwardAndDrop(sender: PeerId, other: PeerId, token: Token, sub: int, dropSession: bool)
      returns (sent: seq<Signal>)
      modifies this
      ensures State() == if dropSession then AfterDrop(old(State()), token) else old(State())
      ensures sent == [Signal(other, sub, token, sender)]
    {
      sent := [Signal(other, sub, token, sender)];
      if dropSession && token != "" {
        RemoveSession(token);
      }
    }

    /** Any signal: the broker takes the step of the event it stands for, or none. */
    method HandleSignal(sub: int, sender: PeerId, other: PeerId, token: Token, authenticated: bool)
      returns (sent: seq<Signal>)
      modifies this
      ensures State() == match EventOf(sub, sender, other, token, authenticated)
        case Some(event) => Step(old(State()), event)
        case None => old(State())
      ensures sub == SUB_REQUEST ==>
                sent == if token == "" || other == sender then []
                        else if !authenticated then [Signal(sender, SUB_CANCEL, token, other)]
                        else [Signal(other, SUB_REQUEST, token, sender), Signal(sender, SUB_SERVER_ARMED, token, other)]
      ensures sub == SUB_ACCEPT ==>
                sent == if Accepts(old(State()), Accept(sender, other, token), token)
                        then [Signal(other, SUB_ACCEPT, token, sender)] else []
      ensures sub == SUB_DECLINE || sub == SUB_CANCEL || sub == SUB_LINK_LOST ==>
                sent == [Signal(other, sub, token, sender)]
      ensures sub == SUB_LINK_UP || EventOf(sub, sender, other, token, authenticated).None? ==> sent == []
    {
      hide AfterRequest, AfterAccept, AfterDrop, AfterLinkUp, AfterLinkLost;
      sent := [];
      if sub == SUB_REQUEST {
        sent := HandleRequest(sender, other, token, authenticated);
      } else if sub == SUB_ACCEPT {
        sent := HandleAccept(sender, other, token);
      } else if sub == SUB_DECLINE || sub == SUB_CANCEL {
        sent := ForwardAndDrop(sender, other, token, sub, true);
      } else if sub == SUB_LINK_LOST {
        sent := HandleLinkLost(sender, other, token);
      } else if sub == SUB_LINK_UP {
        HandleLinkUp(sender, token);
      }
    }

    /** An end of a session tells its addresses. If the session may be punched and its first end is
        known, each end is told of the other: the second is the one known, or else the one telling. */
    method HandleNatIntroductionRequest(local: Address, remote: Address, token: Token) returns (sent: seq<Introduction>)
      modifies this`sessions
      ensures State() == AfterNat(old(State()), local, remote, token)
      ensures sent != [] <==> Introduces(old(State()), token)
      ensures sent != [] ==>
                var s := old(sessions[token]);
                var second := if s.bInternal.Some? then (s.bInternal.value, s.bExternal.value) else (local, remote);
                sent == [Introduction(second.1, s.aInternal.value, s.aExternal.value, token),
                         Introduction(s.aExternal.value, second.0, second.1, token)]
    {
      if token == "" || token !in sessions { return []; }
      var session := sessions[token];
      if session.state == Awaiting { return []; }
      if session.aInternal.None? {
        sessions := sessions[token := session.(aInternal := Some(local), aExternal := Some(remote))];
        return [];
      }
      if session.bInternal.None? {
        session := session.(bInternal := Some(local), bExternal := Some(remote));
        sessions := sessions[token := session];
      }
      if session.aExternal.None? || session.bInternal.None? || session.bExternal.None? { return []; }
      sessions := sessions[token := session.(state := Punched)];
      sent := NatIntroduce(session.aInternal.value, session.aExternal.value,
                           session.bInternal.value, session.bExternal.value, token);
    }

    /** Ends the sessions of a peer in some order, and tells the other party of each. */
    method RemovePeer(peer: PeerId) returns (sent: seq<Signal>)
      modifies this
      ensures State() == AfterRemovePeer(old(State()), peer)
      ensures forall x :: x in sent <==>
                exists token :: token in Tracked(old(State()), peer) && token in old(sessions)
                  && x == Signal(Other(old(sessions[token]), peer), SUB_CANCEL, token, peer)
      ensures forall i, j :: 0 <= i < j < |sent| ==> sent[i] != sent[j]
    {
      hide PackPair;
      sent := [];
      if peer !in peerSessions { return; }
      var tokens := peerSessions[peer];
      peerSessions := peerSessions - {peer};
      ghost var before := State();
      var rest := tokens;
      WithoutNone(before);
      assert tokens - rest == {};
      while rest != {}
        invariant rest <= tokens && State() == WithoutSessions(before, tokens - rest)
        invariant forall x :: x in sent <==>
                    exists token :: token in tokens - rest && token in before.sessions
                      && x == Signal(Other(before.sessions[token], peer), SUB_CANCEL, token, peer)
        invariant forall i, j :: 0 <= i < j < |sent| ==> sent[i] != sent[j]
      {
        var token :| token in rest;
        WithoutOneMore(before, tokens - rest, token);
        assert tokens - (rest - {token}) == (tokens - rest) + {token};
        rest := rest - {token};
        if token in sessions {
          var session := sessions[token];
          assert forall x :: x in sent ==> x.token != token;
          sent := sent + [Signal(Other(session, peer), SUB_CANCEL, token, peer)];
          RemoveSession(token);
        } else {
          WithoutUnknown(State(), token);
        }
      }
      assert tokens - rest == tokens;
    }
  }
}
