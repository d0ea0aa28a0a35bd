/** Peer-to-peer sessions over whole runs of signals. */
module P2pRuns {
  import opened Ids
  import opened P2p
  import opened P2pInvariants

  lemma {:induction false} RunOrderly(trace: seq<Event>)
    ensures AllOrderly(Run(trace))
    decreases |trace|
  {
    hide Step, Orderly;
    if trace != [] {
      RunOrderly(trace[..|trace| - 1]);
      StepKeepsOrder(Run(trace[..|trace| - 1]), trace[|trace| - 1]);
    }
  }

  lemma {:induction false} RunFlags(trace: seq<Event>)
    ensures FlagsExact(trace, Run(trace))
    decreases |trace|
  {
    hide UpSince, Step, AllOrderly;
    if trace != [] {
      var before, e := trace[..|trace| - 1], trace[|trace| - 1];
      RunFlags(before);
      RunOrderly(before);
      StepKeepsFlags(before, e);
      assert before + [e] == trace;
    }
  }

  lemma {:induction false} RunTracksParties(trace: seq<Event>)
    ensures PartiesTracked(Run(trace))
    decreases |trace|
  {
    hide Step, PartiesTracked;
    if trace == [] {
      EmptyTracks();
    } else {
      RunTracksParties(trace[..|trace| - 1]);
      StepKeepsParties(Run(trace[..|trace| - 1]), trace[|trace| - 1]);
    }
  }

  lemma EmptyTracks()
    ensures PartiesTracked(EMPTY) && TrackingExact(EMPTY) && AllBacked(EMPTY)
  {}

  // --- When the invariants hold throughout a run ---------------------------------------

  /** No request puts a session of other peers in the place of a live one. */
  predicate PartiesKept(trace: seq<Event>) {
    trace == [] || (PartiesKept(trace[..|trace| - 1]) && KeepsParties(Run(trace[..|trace| - 1]), trace[|trace| - 1]))
  }

  /** No request replaces the only session behind an offloaded pair. */
  ghost predicate BackersKept(trace: seq<Event>) {
    trace == [] || (BackersKept(trace[..|trace| - 1]) && KeepsBacker(Run(trace[..|trace| - 1]), trace[|trace| - 1]))
  }

  ghost predicate TrackedThroughout(trace: seq<Event>) {
    TrackingExact(Run(trace)) && (trace == [] || TrackedThroughout(trace[..|trace| - 1]))
  }

  ghost predicate BackedThroughout(trace: seq<Event>) {
    AllBacked(Run(trace)) && (trace == [] || BackedThroughout(trace[..|trace| - 1]))
  }

  /** Tracking is exact at every point of a run if and only if no live session gives way to one of
      other peers. */
  lemma {:induction false} TrackedThroughoutIff(trace: seq<Event>)
    ensures TrackedThroughout(trace) <==> PartiesKept(trace)
    decreases |trace|
  {
    hide Step, TrackingExact, KeepsParties, AllOrderly;
    if trace == [] {
      EmptyTracks();
    } else {
      var front := trace[..|trace| - 1];
      TrackedThroughoutIff(front);
      RunOrderly(front);
      if TrackedThroughout(front) { TrackingKeptIff(Run(front), trace[|trace| - 1]); }
    }
  }

  /** Every offloaded pair is backed at every point of a run if and only if no request replaces the
      only session behind one. */
  lemma {:induction false} BackedThroughoutIff(trace: seq<Event>)
    ensures BackedThroughout(trace) <==> BackersKept(trace)
    decreases |trace|
  {
    hide Step, AllBacked, KeepsBacker;
    if trace == [] {
      EmptyTracks();
    } else {
      var front := trace[..|trace| - 1];
      BackedThroughoutIff(front);
      if BackedThroughout(front) { BackingKeptIff(Run(front), trace[|trace| - 1]); }
    }
  }

  /** No accepted request reuses the token of a live session. */
  predicate FreshTokens(trace: seq<Event>) {
    trace == [] || (FreshTokens(trace[..|trace| - 1]) && !Replaces(Run(trace[..|trace| - 1]), trace[|trace| - 1]))
  }

  /** With fresh tokens nothing is ever replaced, so both hold. */
  lemma {:induction false} FreshKeepsBoth(trace: seq<Event>)
    requires FreshTokens(trace)
    ensures PartiesKept(trace) && BackersKept(trace)
    decreases |trace|
  {
    if trace != [] { FreshKeepsBoth(trace[..|trace| - 1]); }
  }

  // --- Offloading ---------------------------------------------------------------------

  /** Two peers count as offloaded only while a session of exactly these two is live, and both have
      sent LINK_UP for it since it began or last lost its link. */
  lemma OffloadedOnlyWhileUp(trace: seq<Event>, x: PeerId, y: PeerId) returns (token: Token)
    requires BackersKept(trace) && IsOffloaded(Run(trace), x, y)
    ensures token in Run(trace).sessions && SamePeers(Run(trace).sessions[token], x, y)
    ensures UpSince(trace, token, x) && UpSince(trace, token, y)
  {
    hide Run, UpSince, PackPair, BackersKept;
    BackedThroughoutIff(trace);
    RunFlags(trace);
    var b := Run(trace);
    token :| Backs(b, token, PackPair(x, y));
    PackPairInjective(x, y, b.sessions[token].initiator, b.sessions[token].target);
  }

  /** In every run, a session that has been punched knows both addresses of both its ends. */
  lemma PunchedKnowsEndpoints(trace: seq<Event>, token: Token)
    requires token in Run(trace).sessions && Run(trace).sessions[token].state == Punched
    ensures var s := Run(trace).sessions[token];
            s.aInternal.Some? && s.aExternal.Some? && s.bInternal.Some? && s.bExternal.Some?
  {
    hide Run;
    RunOrderly(trace);
    assert Orderly(Run(trace).sessions[token]);
  }

  // --- Removing a peer ----------------------------------------------------------------

  lemma NothingTracked(b: Broker, peer: PeerId)
    ensures Tracked(AfterRemovePeer(b, peer), peer) == {}
  {}

  /** In every run: once a peer is removed, nothing is tracked for it and no session has it as a party. */
  lemma RemovedPeerHasNoSession(trace: seq<Event>, peer: PeerId, token: Token)
    ensures var b := Run(trace + [RemovePeer(peer)]);
            Tracked(b, peer) == {} && (token in b.sessions ==> !Party(b.sessions[token], peer))
  {
    hide Run, PackPair, AfterRemovePeer;
    RunStep(trace, RemovePeer(peer));
    RunTracksParties(trace + [RemovePeer(peer)]);
    NothingTracked(Run(trace), peer);
  }

  lemma RemovedStillOffloaded(b: Broker, peer: PeerId, pair: nat)
    ensures pair in AfterRemovePeer(b, peer).offloaded
      <==> pair in b.offloaded && forall t :: t in Tracked(b, peer) && t in b.sessions ==> PairOf(b.sessions[t]) != pair
  {
    hide PackPair, Ended;
    if peer in b.peerSessions {
      var tokens := b.peerSessions[peer];
      assert pair in EndedPairs(b, tokens)
          <==> exists t :: t in tokens && t in b.sessions && PairOf(b.sessions[t]) == pair;
    }
  }

  /** In every run: a removed peer stays offloaded with another if and only if it was, and no
      session of these two was live. */
  lemma RemovedPeerOffloadedIff(trace: seq<Event>, peer: PeerId, other: PeerId)
    ensures IsOffloaded(Run(trace + [RemovePeer(peer)]), peer, other)
      <==> IsOffloaded(Run(trace), peer, other)
           && !exists t :: t in Run(trace).sessions && SamePeers(Run(trace).sessions[t], peer, other)
  {
    hide Run, PackPair, AfterRemovePeer, PartiesTracked;
    var b, pair := Run(trace), PackPair(peer, other);
    RunStep(trace, RemovePeer(peer));
    RunTracksParties(trace);
    RemovedStillOffloaded(b, peer, pair);
    forall t | t in b.sessions
      ensures t in Tracked(b, peer) && PairOf(b.sessions[t]) == pair <==> SamePeers(b.sessions[t], peer, other)
    {
      PartyTracked(b, t, peer);
      PackPairInjective(peer, other, b.sessions[t].initiator, b.sessions[t].target);
    }
  }

  lemma PartyTracked(b: Broker, token: Token, peer: PeerId)
    requires PartiesTracked(b) && token in b.sessions
    ensures Party(b.sessions[token], peer) ==> token in Tracked(b, peer)
  {}

  /** So it is offloaded with no one as long as no request replaced the only session behind a pair. */
  lemma RemovedPeerIsGone(trace: seq<Event>, peer: PeerId, other: PeerId)
    requires BackersKept(trace)
    ensures !IsOffloaded(Run(trace + [RemovePeer(peer)]), peer, other)
    ensures !IsOffloaded(Run(trace + [RemovePeer(peer)]), other, peer)
  {
    hide Run, PackPair, UpSince, BackersKept;
    RemovedPeerOffloadedIff(trace, peer, other);
    PackPairInjective(peer, other, other, peer);
    if IsOffloaded(Run(trace), peer, other) {
      var token := OffloadedOnlyWhileUp(trace, peer, other);
    }
  }

  /** Removing a peer ends exactly its own sessions, as long as no session gave way to one of other peers. */
  lemma RemovalEndsOwnSessions(trace: seq<Event>, peer: PeerId, token: Token)
    requires PartiesKept(trace) && token in Run(trace).sessions
    ensures token in Run(trace + [RemovePeer(peer)]).sessions <==> !Party(Run(trace).sessions[token], peer)
  {
    hide Run, PackPair, PartiesKept, Party;
    TrackedThroughoutIff(trace);
    RunStep(trace, RemovePeer(peer));
    assert token in Tracked(Run(trace), peer) <==> Party(Run(trace).sessions[token], peer);
  }

  /** A reused token: peers 1 and 2 stay offloaded without a session, even after 1 is removed, which
      ends the session of 3 and 4. */
  lemma ReuseExample() returns (trace: seq<Event>)
    ensures trace == [Request(1, 2, "t", true), LinkUp(1, "t"), LinkUp(2, "t"), Request(3, 4, "t", true)]
    ensures IsOffloaded(Run(trace), 1, 2) && !Backed(Run(trace), PackPair(1, 2))
    ensures "t" in Run(trace).sessions && Party(Run(trace).sessions["t"], 3)
    ensures IsOffloaded(Run(trace + [RemovePeer(1)]), 1, 2) && Run(trace + [RemovePeer(1)]).sessions == map[]
  {
    hide Run, Step, PackPair, OnlySession;
    var first := [Request(1, 2, "t", true)];
    var second := first + [LinkUp(1, "t")];
    var third := second + [LinkUp(2, "t")];
    trace := third + [Request(3, 4, "t", true)];
    assert [] + first == first;
    NothingRun();
    RunStep([], Request(1, 2, "t", true));
    RunStep(first, LinkUp(1, "t"));
    RunStep(second, LinkUp(2, "t"));
    RunStep(third, Request(3, 4, "t", true));
    RunStep(trace, RemovePeer(1));
    RequestOnly(EMPTY, 1, 2, 1, "t");
    LinkUpOnly(Run(first), NewSession(1, 2), 1, "t");
    LinkUpOnly(Run(second), WithLinkUp(NewSession(1, 2), 1), 2, "t");
    RequestOnly(Run(third), 3, 4, 1, "t");
    StaleSurvives(Run(trace));
  }

  /** The session is the only one, and its token is tracked for the peer. */
  predicate OnlySession(b: Broker, token: Token, s: Session, peer: PeerId) {
    b.sessions == map[token := s] && token in Tracked(b, peer)
  }

  lemma RequestOnly(b: Broker, sender: PeerId, other: PeerId, peer: PeerId, token: Token)
    requires sender != other && token != "" && b.sessions.Keys <= {token}
    requires peer == sender || token in Tracked(b, peer)
    ensures var after := Step(b, Request(sender, other, token, true));
            OnlySession(after, token, NewSession(sender, other), peer) && after.offloaded == b.offloaded
  {}

  lemma LinkUpOnly(b: Broker, s: Session, sender: PeerId, token: Token)
    requires OnlySession(b, token, s, 1) && Party(s, sender)
    ensures var after := Step(b, LinkUp(sender, token));
            && OnlySession(after, token, WithLinkUp(s, sender), 1)
            && after.offloaded == b.offloaded + if BothUp(WithLinkUp(s, sender)) then {PairOf(s)} else {}
  {}

  lemma NothingRun()
    ensures Run([]) == EMPTY
  {}

  /** The last removal of the example: the session of 3 and 4 ends, the stale pair stays. */
  lemma StaleSurvives(b: Broker)
    requires OnlySession(b, "t", NewSession(3, 4), 1) && b.offloaded == {PackPair(1, 2)}
    ensures "t" in b.sessions && b.sessions["t"] == NewSession(3, 4)
    ensures !Backed(b, PackPair(1, 2))
    ensures var after := Step(b, RemovePeer(1)); after.sessions == map[] && PackPair(1, 2) in after.offloaded
  {
    hide PackPair, WithoutSessions;
    PackPairInjective(3, 4, 1, 2);
    RemovedStillOffloaded(b, 1, PackPair(1, 2));
    RemovalEnds(b, 1, "t");
  }

  lemma RemovalEnds(b: Broker, peer: PeerId, token: Token)
    requires token in Tracked(b, peer) && b.sessions.Keys == {token}
    ensures AfterRemovePeer(b, peer).sessions == map[]
  {}
}
