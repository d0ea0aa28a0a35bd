/** What signals keep: tracking, backing of offloaded pairs, order of endpoints, link flags. Only a
    request that reuses the token of a live session can break any of it, and it is said when. */
module P2pInvariants {
  import opened Ids
  import opened P2p

  // --- The invariants -----------------------------------------------------------------

  /** Every party of a live session has its token tracked. */
  ghost predicate PartiesTracked(b: Broker) {
    forall peer, token :: token in b.sessions && Party(b.sessions[token], peer) ==> token in Tracked(b, peer)
  }

  /** Tracking is membership: a peer's tokens are those of the live sessions it takes part in. */
  ghost predicate TrackingExact(b: Broker) {
    forall peer, token :: token in Tracked(b, peer) <==> token in b.sessions && Party(b.sessions[token], peer)
  }

  predicate Backs(b: Broker, token: Token, pair: nat) {
    token in b.sessions && PairOf(b.sessions[token]) == pair && BothUp(b.sessions[token])
  }

  ghost predicate Backed(b: Broker, pair: nat) { exists token :: Backs(b, token, pair) }

  /** Every offloaded pair has a live session of the two with both links up. */
  ghost predicate AllBacked(b: Broker) { forall pair :: pair in b.offloaded ==> Backed(b, pair) }

  predicate Orderly(s: Session) {
    && s.initiator != s.target
    && (s.aInternal.Some? <==> s.aExternal.Some?) && (s.bInternal.Some? <==> s.bExternal.Some?)
    && (s.bInternal.Some? ==> s.aInternal.Some?)
    && (s.state == Punched ==> s.aInternal.Some? && s.bInternal.Some?)
  }

  ghost predicate AllOrderly(b: Broker) { forall token :: token in b.sessions ==> Orderly(b.sessions[token]) }

  ghost predicate FlagsExact(trace: seq<Event>, b: Broker) {
    forall token :: token in b.sessions ==>
      && b.sessions[token].initiatorUp == UpSince(trace, token, b.sessions[token].initiator)
      && b.sessions[token].targetUp == UpSince(trace, token, b.sessions[token].target)
  }

  // --- Requests over a live session ---------------------------------------------------

  predicate SamePeers(s: Session, x: PeerId, y: PeerId) {
    (s.initiator == x && s.target == y) || (s.initiator == y && s.target == x)
  }

  /** An accepted request whose token is that of a live session. */
  predicate Replaces(b: Broker, e: Event) {
    e.Request? && Opens(e.sender, e.other, e.token, e.authenticated) && e.token in b.sessions
  }

  /** A session replaced is one of the same two peers. */
  predicate KeepsParties(b: Broker, e: Event) { Replaces(b, e) ==> SamePeers(b.sessions[e.token], e.sender, e.other) }

  /** A session replaced is not the only one behind an offloaded pair. */
  ghost predicate KeepsBacker(b: Broker, e: Event) {
    Replaces(b, e) ==>
      var pair := PairOf(b.sessions[e.token]);
      pair in b.offloaded ==> exists t :: t != e.token && Backs(b, t, pair)
  }

  // --- Tracking -----------------------------------------------------------------------

  lemma RemovalKeepsTracking(b: Broker, tokens: set<Token>)
    requires TrackingExact(b)
    ensures TrackingExact(WithoutSessions(b, tokens))
  {
    hide Party, EndedPairs;
    var after := WithoutSessions(b, tokens);
    forall peer, token
      ensures token in Tracked(after, peer) <==> token in after.sessions && Party(after.sessions[token], peer)
    {
      assert token in Tracked(b, peer) <==> token in b.sessions && Party(b.sessions[token], peer);
    }
  }

  lemma RemovePeerKeepsTracking(b: Broker, peer: PeerId)
    requires TrackingExact(b)
    ensures TrackingExact(AfterRemovePeer(b, peer))
  {
    hide Party, EndedPairs;
    var after := AfterRemovePeer(b, peer);
    forall p, token ensures token in Tracked(after, p) <==> token in after.sessions && Party(after.sessions[token], p) {
      assert token in Tracked(b, p) <==> token in b.sessions && Party(b.sessions[token], p);
      assert token in Tracked(b, peer) <==> token in b.sessions && Party(b.sessions[token], peer);
    }
  }

  /** Steps that only change a session's progress change neither parties nor tracking. */
  lemma ProgressKeepsTracking(b: Broker, after: Broker)
    requires TrackingExact(b) && after.peerSessions == b.peerSessions && after.sessions.Keys == b.sessions.Keys
    requires forall token :: token in b.sessions ==>
      after.sessions[token].initiator == b.sessions[token].initiator
          && after.sessions[token].target == b.sessions[token].target
    ensures TrackingExact(after)
  {
    forall peer, t ensures t in Tracked(after, peer) <==> t in after.sessions && Party(after.sessions[t], peer) {
      assert t in Tracked(b, peer) <==> t in b.sessions && Party(b.sessions[t], peer);
    }
  }

  lemma RequestTracking(b: Broker, e: Event)
    requires TrackingExact(b) && AllOrderly(b) && e.Request?
    ensures TrackingExact(Step(b, e)) <==> KeepsParties(b, e)
  {
    var after := Step(b, e);
    if Replaces(b, e) && !KeepsParties(b, e) {
      // A former party of the session still has its token.
      var ended := b.sessions[e.token];
      assert Orderly(ended);
      var stale := if ended.initiator == e.sender || ended.initiator == e.other then ended.target else ended.initiator;
      assert e.token in Tracked(b, stale);
      assert e.token in Tracked(after, stale) && !Party(after.sessions[e.token], stale);
    } else {
      forall peer, t ensures t in Tracked(after, peer) <==> t in after.sessions && Party(after.sessions[t], peer) {
        assert t in Tracked(b, peer) <==> t in b.sessions && Party(b.sessions[t], peer);
      }
    }
  }

  /** A signal keeps tracking exact if and only if it does not put a session of other peers in the
      place of a live one. */
  lemma TrackingKeptIff(b: Broker, e: Event)
    requires TrackingExact(b) && AllOrderly(b)
    ensures TrackingExact(Step(b, e)) <==> KeepsParties(b, e)
  {
    hide TrackingExact, Tracked, AfterRemovePeer, WithoutSessions, AfterRequest, AllOrderly;
    match e
    case Request(_, _, _, _) => RequestTracking(b, e);
    case Drop(token) => RemovalKeepsTracking(b, {token});
    case RemovePeer(peer) => RemovePeerKeepsTracking(b, peer);
    case _ => ProgressKeepsTracking(b, Step(b, e));
  }

  /** Any signal keeps parties tracked, also one that reuses a token. */
  lemma StepKeepsParties(b: Broker, e: Event)
    requires PartiesTracked(b)
    ensures PartiesTracked(Step(b, e))
  {
    hide EndedPairs, PackPair;
    var after := Step(b, e);
    forall peer, token | token in after.sessions && Party(after.sessions[token], peer)
      ensures token in Tracked(after, peer)
    {
      if token in b.sessions { assert Party(b.sessions[token], peer) ==> token in Tracked(b, peer); }
    }
  }

  // --- Backing ------------------------------------------------------------------------

  lemma RemovalKeepsBacking(b: Broker, tokens: set<Token>)
    requires AllBacked(b)
    ensures AllBacked(WithoutSessions(b, tokens))
  {
    hide PairOf, BothUp, Ended;
    var after := WithoutSessions(b, tokens);
    forall pair | pair in after.offloaded ensures Backed(after, pair) {
      var token :| Backs(b, token, pair);
      assert Backs(after, token, pair);
    }
  }

  lemma LinkUpKeepsBacking(b: Broker, sender: PeerId, token: Token)
    requires AllBacked(b)
    ensures AllBacked(AfterLinkUp(b, sender, token))
  {
    hide PackPair;
    var after := AfterLinkUp(b, sender, token);
    forall pair | pair in after.offloaded ensures Backed(after, pair) {
      if pair in b.offloaded {
        var t :| Backs(b, t, pair);
        assert Backs(after, t, pair);
      } else {
        assert Backs(after, token, pair);
      }
    }
  }

  lemma LinkLostKeepsBacking(b: Broker, token: Token)
    requires AllBacked(b)
    ensures AllBacked(AfterLinkLost(b, token))
  {
    hide PackPair;
    var after := AfterLinkLost(b, token);
    forall pair | pair in after.offloaded ensures Backed(after, pair) {
      var t :| Backs(b, t, pair);
      assert Backs(after, t, pair);
    }
  }

  /** Steps that leave every session with both links up as it is, and offload nothing. */
  lemma OthersKeepBacking(b: Broker, after: Broker)
    requires AllBacked(b) && after.offloaded == b.offloaded
    requires forall token, pair :: Backs(b, token, pair) ==> Backs(after, token, pair)
    ensures AllBacked(after)
  {}

  lemma RequestBacking(b: Broker, e: Event)
    requires AllBacked(b) && e.Request?
    ensures AllBacked(Step(b, e)) <==> KeepsBacker(b, e)
  {
    hide PackPair, Tracked;
    var after := Step(b, e);
    if Replaces(b, e) {
      var pair := PairOf(b.sessions[e.token]);
      forall t, p | t != e.token ensures Backs(b, t, p) <==> Backs(after, t, p) {}
      assert forall p :: !Backs(after, e.token, p);
      if AllBacked(after) && pair in b.offloaded {
        var t :| Backs(after, t, pair);
        assert t != e.token && Backs(b, t, pair);
      }
      if KeepsBacker(b, e) {
        forall p | p in after.offloaded ensures Backed(after, p) {
          var t :| Backs(b, t, p) && (p == pair ==> t != e.token);
          assert Backs(after, t, p);
        }
      }
    } else {
      forall t, p | Backs(b, t, p) ensures Backs(after, t, p) {}
      OthersKeepBacking(b, after);
    }
  }

  /** A signal keeps every offloaded pair backed if and only if it does not replace the only
      session behind one. */
  lemma BackingKeptIff(b: Broker, e: Event)
    requires AllBacked(b)
    ensures AllBacked(Step(b, e)) <==> KeepsBacker(b, e)
  {
    hide AllBacked, WithoutSessions, AfterLinkUp, AfterLinkLost, AfterRequest, PackPair, Tracked;
    match e
    case Request(_, _, _, _) => RequestBacking(b, e);
    case Drop(token) => RemovalKeepsBacking(b, {token});
    case RemovePeer(peer) =>
      if peer in b.peerSessions {
        var forgotten := b.(peerSessions := b.peerSessions - {peer});
        OthersKeepBacking(b, forgotten);
        RemovalKeepsBacking(forgotten, b.peerSessions[peer]);
      }
    case LinkUp(sender, token) => LinkUpKeepsBacking(b, sender, token);
    case LinkLost(token) => LinkLostKeepsBacking(b, token);
    case _ => OthersKeepBacking(b, Step(b, e));
  }

  // --- Order and flags ----------------------------------------------------------------

  lemma StepKeepsOrder(b: Broker, e: Event)
    requires AllOrderly(b)
    ensures AllOrderly(Step(b, e))
  {
    hide PackPair, Tracked, Ended, EndedPairs;
  }

  lemma {:induction false} StepKeepsFlags(trace: seq<Event>, e: Event)
    requires FlagsExact(trace, Run(trace)) && AllOrderly(Run(trace))
    ensures FlagsExact(trace + [e], Run(trace + [e]))
  {
    hide PackPair, Tracked, Ended, EndedPairs, Run;
    RunStep(trace, e);
    assert (trace + [e])[..|trace|] == trace;
    var b, after := Run(trace), Step(Run(trace), e);
    forall token | token in after.sessions
      ensures after.sessions[token].initiatorUp == UpSince(trace + [e], token, after.sessions[token].initiator)
      ensures after.sessions[token].targetUp == UpSince(trace + [e], token, after.sessions[token].target)
    {}
  }
}
