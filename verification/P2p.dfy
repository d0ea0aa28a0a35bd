/** The broker of peer-to-peer sessions as a state machine over whole signals. */
module P2p {
  import opened Ids
  import opened Wrappers

  type Token = string

  datatype SessionState = Awaiting | ReadyForPunch | Punched

  datatype Session = Session(
    initiator: PeerId, target: PeerId, state: SessionState,
    aInternal: Option<Address>, aExternal: Option<Address>, bInternal: Option<Address>, bExternal: Option<Address>,
    initiatorUp: bool, targetUp: bool)

  /** The broker's three maps; the third is kept as the set of its keys. */
  datatype Broker = Broker(sessions: map<Token, Session>, peerSessions: map<PeerId, set<Token>>, offloaded: set<nat>)

  // --- Pairs --------------------------------------------------------------------------

  /** The smaller id shifted left by 32 bits, with the larger one in the low bits. */
  function PackPair(a: PeerId, b: PeerId): nat {
    if a < b then a * 0x1_0000_0000 + b else b * 0x1_0000_0000 + a
  }

  /** Two pairs share a key exactly when they are the same two peers, in either order. */
  lemma PackPairInjective(a: PeerId, b: PeerId, c: PeerId, d: PeerId)
    ensures PackPair(a, b) == PackPair(c, d) <==> (a == c && b == d) || (a == d && b == c)
  {}

  function PairOf(s: Session): nat { PackPair(s.initiator, s.target) }

  predicate Party(s: Session, peer: PeerId) { s.initiator == peer || s.target == peer }

  function Other(s: Session, peer: PeerId): PeerId { if s.initiator == peer then s.target else s.initiator }

  lemma OtherEnd(s: Session, peer: PeerId)
    requires s.initiator != s.target && Party(s, peer)
    ensures Other(s, peer) != peer && Party(s, Other(s, peer))
  {}

  // --- Steps --------------------------------------------------------------------------

  function Tracked(b: Broker, peer: PeerId): set<Token> { if peer in b.peerSessions then b.peerSessions[peer] else {} }

  function Track(b: Broker, peer: PeerId, token: Token): Broker {
    b.(peerSessions := b.peerSessions[peer := Tracked(b, peer) + {token}])
  }

  predicate Opens(sender: PeerId, other: PeerId, token: Token, authenticated: bool) {
    token != "" && other != sender && authenticated
  }

  function NewSession(sender: PeerId, other: PeerId): Session {
    Session(sender, other, Awaiting, None, None, None, None, false, false)
  }

  function AfterRequest(b: Broker, sender: PeerId, other: PeerId, token: Token, authenticated: bool): Broker {
    if !Opens(sender, other, token, authenticated) then b
    else Track(Track(b.(sessions := b.sessions[token := NewSession(sender, other)]), sender, token), other, token)
  }

  function AfterAccept(b: Broker, sender: PeerId, other: PeerId, token: Token): Broker {
    if token in b.sessions && b.sessions[token].target == sender && b.sessions[token].initiator == other
    then b.(sessions := b.sessions[token := b.sessions[token].(state := ReadyForPunch)])
    else b
  }

  predicate BothUp(s: Session) { s.initiatorUp && s.targetUp }

  function WithLinkUp(s: Session, sender: PeerId): Session {
    if sender == s.initiator then s.(initiatorUp := true)
    else if sender == s.target then s.(targetUp := true)
    else s
  }

  function AfterLinkUp(b: Broker, sender: PeerId, token: Token): Broker {
    if token !in b.sessions || !Party(b.sessions[token], sender) then b
    else
      var s := WithLinkUp(b.sessions[token], sender);
      var offloaded := if BothUp(s) then b.offloaded + {PairOf(s)} else b.offloaded;
      b.(sessions := b.sessions[token := s], offloaded := offloaded)
  }

  function WithoutLink(s: Session): Session {
    Session(s.initiator, s.target, ReadyForPunch, None, None, None, None, false, false)
  }

  function AfterLinkLost(b: Broker, token: Token): Broker {
    if token !in b.sessions then b
    else
      var s := b.sessions[token];
      b.(sessions := b.sessions[token := WithoutLink(s)], offloaded := b.offloaded - {PairOf(s)})
  }

  /** One end's addresses arrive; the second end completes the punch. */
  function WithEndpoint(s: Session, local: Address, remote: Address): Session {
    if s.state == Awaiting then s
    else if s.aInternal.None? then s.(aInternal := Some(local), aExternal := Some(remote))
    else
      var t := if s.bInternal.None? then s.(bInternal := Some(local), bExternal := Some(remote)) else s;
      if t.aExternal.Some? && t.bInternal.Some? && t.bExternal.Some? then t.(state := Punched) else t
  }

  function AfterNat(b: Broker, local: Address, remote: Address, token: Token): Broker {
    if token == "" || token !in b.sessions then b
    else b.(sessions := b.sessions[token := WithEndpoint(b.sessions[token], local, remote)])
  }

  /** Tokens whose session ends, as far as a peer takes part in it. */
  function Ended(b: Broker, tokens: set<Token>, peer: PeerId): set<Token> {
    set token | token in tokens && token in b.sessions && Party(b.sessions[token], peer)
  }

  function EndedPairs(b: Broker, tokens: set<Token>): set<nat> {
    set token | token in tokens && token in b.sessions :: PairOf(b.sessions[token])
  }

  /** Removing sessions: parties forget their tokens, and their pairs are no longer offloaded. */
  function WithoutSessions(b: Broker, tokens: set<Token>): Broker {
    Broker(
      b.sessions - tokens,
      map peer | peer in b.peerSessions :: b.peerSessions[peer] - Ended(b, tokens, peer),
      b.offloaded - EndedPairs(b, tokens))
  }

  function AfterDrop(b: Broker, token: Token): Broker {
    if token == "" then b else WithoutSessions(b, {token})
  }

  function AfterRemovePeer(b: Broker, peer: PeerId): Broker {
    if peer !in b.peerSessions then b
    else WithoutSessions(b.(peerSessions := b.peerSessions - {peer}), b.peerSessions[peer])
  }

  // --- Runs ---------------------------------------------------------------------------

  datatype Event =
    | Request(sender: PeerId, other: PeerId, token: Token, authenticated: bool)
    | Accept(sender: PeerId, other: PeerId, token: Token)
    | Drop(token: Token) // a decline or a cancel, from anyone
    | LinkLost(token: Token)
    | LinkUp(sender: PeerId, token: Token)
    | NatRequest(local: Address, remote: Address, token: Token)
    | RemovePeer(peer: PeerId)

  function Step(b: Broker, e: Event): Broker {
    match e
    case Request(sender, other, token, authenticated) => AfterRequest(b, sender, other, token, authenticated)
    case Accept(sender, other, token) => AfterAccept(b, sender, other, token)
    case Drop(token) => AfterDrop(b, token)
    case LinkLost(token) => AfterLinkLost(b, token)
    case LinkUp(sender, token) => AfterLinkUp(b, sender, token)
    case NatRequest(local, remote, token) => AfterNat(b, local, remote, token)
    case RemovePeer(peer) => AfterRemovePeer(b, peer)
  }

  const EMPTY: Broker := Broker(map[], map[], {})

  function Run(trace: seq<Event>): Broker {
    if trace == [] then EMPTY else Step(Run(trace[..|trace| - 1]), trace[|trace| - 1])
  }

  /** The peer has sent LINK_UP for the token since the session was last requested or its link lost. */
  predicate UpSince(trace: seq<Event>, token: Token, peer: PeerId) {
    if trace == [] then false
    else
      var last, before := trace[|trace| - 1], trace[..|trace| - 1];
      match last
      case LinkUp(sender, t) => (t == token && sender == peer) || UpSince(before, token, peer)
      case LinkLost(t) => t != token && UpSince(before, token, peer)
      case Request(sender, other, t, authenticated) =>
        !(t == token && Opens(sender, other, t, authenticated)) && UpSince(before, token, peer)
      case _ => UpSince(before, token, peer)
  }

  predicate IsOffloaded(b: Broker, x: PeerId, y: PeerId) { x != y && PackPair(x, y) in b.offloaded }

  lemma RunStep(trace: seq<Event>, e: Event)
    ensures Run(trace + [e]) == Step(Run(trace), e)
  {}
}
