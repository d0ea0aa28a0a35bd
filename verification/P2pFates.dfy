/** What each signal makes of live sessions and of offloaded pairs, over every run. */
module P2pFates {
  import opened Ids
  import opened P2p
  import opened P2pInvariants
  import opened P2pRuns
  import opened P2pPunch

  /** The signal ends the session: a decline or a cancel, or the removal of a peer that has its token. */
  predicate EndsSession(b: Broker, e: Event, token: Token) {
    || (e == Drop(token) && token != "")
    || (e.RemovePeer? && token in Tracked(b, e.peer))
  }

  /** A session is live after a signal if it was requested by it, or was live and not ended by it. */
  lemma LiveExactly(b: Broker, e: Event, token: Token)
    ensures token in Step(b, e).sessions <==> Begins(e, token) || (token in b.sessions && !EndsSession(b, e, token))
    ensures token in b.sessions && token in Step(b, e).sessions && !Begins(e, token) ==>
              && Step(b, e).sessions[token].initiator == b.sessions[token].initiator
              && Step(b, e).sessions[token].target == b.sessions[token].target
    ensures Begins(e, token) ==> Step(b, e).sessions[token] == NewSession(e.sender, e.other)
  {
    hide PackPair, EndedPairs, Ended;
  }

  /** With this link-up both ends of a session of the two have sent one since it began or last lost its link. */
  ghost predicate Completes(trace: seq<Event>, e: Event, x: PeerId, y: PeerId) {
    && e.LinkUp? && e.token in Run(trace).sessions
    && SamePeers(Run(trace).sessions[e.token], x, y) && (e.sender == x || e.sender == y)
    && UpSince(trace + [e], e.token, x) && UpSince(trace + [e], e.token, y)
  }

  /** The signal ends a session of the two, or takes its link. */
  ghost predicate Parts(b: Broker, e: Event, x: PeerId, y: PeerId) {
    exists token :: token in b.sessions && SamePeers(b.sessions[token], x, y)
                    && (EndsSession(b, e, token) || e == LinkLost(token))
  }

  lemma PairEnds(b: Broker, tokens: set<Token>, x: PeerId, y: PeerId)
    ensures PackPair(x, y) in EndedPairs(b, tokens)
       <==> exists t :: t in tokens && t in b.sessions && SamePeers(b.sessions[t], x, y)
  {
    hide PackPair;
    forall t | t in b.sessions ensures PairOf(b.sessions[t]) == PackPair(x, y) <==> SamePeers(b.sessions[t], x, y) {
      PackPairInjective(x, y, b.sessions[t].initiator, b.sessions[t].target);
    }
  }

  lemma PartsOffloading(b: Broker, e: Event, x: PeerId, y: PeerId)
    requires !e.LinkUp?
    ensures PackPair(x, y) in Step(b, e).offloaded <==> PackPair(x, y) in b.offloaded && !Parts(b, e, x, y)
  {
    hide PackPair, EndedPairs, Ended, SamePeers;
    match e
    case Drop(token) => PairEnds(b, {token}, x, y);
    case RemovePeer(peer) =>
      RemovedStillOffloaded(b, peer, PackPair(x, y));
      forall t | t in b.sessions ensures PairOf(b.sessions[t]) == PackPair(x, y) <==> SamePeers(b.sessions[t], x, y) {
        SamePair(b.sessions[t], x, y);
      }
    case LinkLost(token) =>
      if token in b.sessions { SamePair(b.sessions[token], x, y); }
    case _ =>
  }

  lemma SamePair(s: Session, x: PeerId, y: PeerId)
    ensures PairOf(s) == PackPair(x, y) <==> SamePeers(s, x, y)
  {
    PackPairInjective(x, y, s.initiator, s.target);
  }

  lemma LinkUpOffloading(b: Broker, sender: PeerId, token: Token, x: PeerId, y: PeerId)
    ensures var after := Step(b, LinkUp(sender, token));
            PackPair(x, y) in after.offloaded <==>
              || PackPair(x, y) in b.offloaded
              || (token in b.sessions && Party(b.sessions[token], sender) && SamePeers(b.sessions[token], x, y)
                  && BothUp(after.sessions[token]))
  {
    hide PackPair;
    if token in b.sessions { SamePair(b.sessions[token], x, y); }
  }

  /** In every run, two peers become offloaded with the link-up that completes a session of theirs, and
      stay so until a session of theirs ends or loses its link. */
  lemma OffloadedExactly(trace: seq<Event>, e: Event, x: PeerId, y: PeerId)
    requires x != y
    ensures IsOffloaded(Run(trace + [e]), x, y)
       <==> Completes(trace, e, x, y) || (IsOffloaded(Run(trace), x, y) && !Parts(Run(trace), e, x, y))
  {
    hide Run, PackPair, UpSince, Step;
    var b := Run(trace);
    RunStep(trace, e);
    if e.LinkUp? {
      LinkUpOffloading(b, e.sender, e.token, x, y);
      RunFlags(trace + [e]);
      LiveExactly(b, e, e.token);
    } else {
      PartsOffloading(b, e, x, y);
    }
  }
}
