/** Peer ids and the address table as a state machine: ids are handed out by a wrapping 16-bit
    counter, retired when their peer goes, and reused once recycled. */
module PeerIds {
  import opened Ids
  import opened Wrappers

  const ID_COUNT: int := 65536

  datatype Peer = Peer(addr: Address, connectionNumber: nat, connectTime: int)
  datatype PendingRequest = PendingRequest(connectTime: int, connectionNumber: nat)

  /** The tables. `issued` counts how often the counter was advanced; the code only has `next`. */
  datatype Table = Table(
    peers: map<PeerId, Peer>, byAddr: map<Address, PeerId>, requests: map<Address, PendingRequest>,
    next: PeerId, reusable: seq<PeerId>, retired: set<PeerId>, issued: nat)

  // --- Allocation ---------------------------------------------------------------------

  ghost predicate SomeFree(live: set<PeerId>) { exists id: PeerId :: id !in live }

  /** The reusable ids from the first one on that is not live. */
  function SkipLive(reusable: seq<PeerId>, live: set<PeerId>): (rest: seq<PeerId>)
    ensures rest == [] || rest[0] !in live
    ensures |rest| <= |reusable| && rest == reusable[|reusable| - |rest|..]
    ensures forall i :: 0 <= i < |reusable| - |rest| ==> reusable[i] in live
  {
    if reusable == [] || reusable[0] !in live then reusable else SkipLive(reusable[1..], live)
  }

  function Wrap(id: int): PeerId
    requires id >= 0
  {
    id % ID_COUNT
  }

  /** The counter finds a free id when it has gone `k` on from `next`. */
  predicate FreeAt(next: PeerId, live: set<PeerId>, k: nat) { Wrap(next + k) !in live }

  ghost predicate FreeFrom(next: PeerId, live: set<PeerId>, from: nat) {
    exists k: nat :: from <= k < ID_COUNT && FreeAt(next, live, k)
  }

  /** How far the counter must go from `next` to an id that is not live. */
  ghost function Gap(next: PeerId, live: set<PeerId>, from: nat): (k: nat)
    requires FreeFrom(next, live, from)
    ensures from <= k < ID_COUNT && FreeAt(next, live, k)
    ensures forall j: nat :: from <= j < k ==> !FreeAt(next, live, j)
    decreases ID_COUNT - from
  {
    if FreeAt(next, live, from) then from
    else
      assert FreeFrom(next, live, from + 1) by {
        var k: nat :| from <= k < ID_COUNT && FreeAt(next, live, k);
      }
      Gap(next, live, from + 1)
  }

  /** The counter reaches every id within one turn. */
  lemma CounterReaches(next: PeerId, live: set<PeerId>)
    requires SomeFree(live)
    ensures FreeFrom(next, live, 0)
  {
    var id: PeerId :| id !in live;
    var k := if id >= next then id - next else id - next + ID_COUNT;
    assert FreeAt(next, live, k);
  }

  datatype Choice = Choice(id: PeerId, next: PeerId, reusable: seq<PeerId>, fetched: nat)

  /** How many live ids the counter passes over. */
  ghost function Passed(next: PeerId, live: set<PeerId>): (k: nat)
    requires SomeFree(live)
    ensures k < ID_COUNT && FreeAt(next, live, k)
    ensures forall j: nat :: j < k ==> !FreeAt(next, live, j)
  {
    CounterReaches(next, live);
    Gap(next, live, 0)
  }

  ghost function FromCounter(next: PeerId, live: set<PeerId>): (c: Choice)
    requires SomeFree(live)
    ensures c.id !in live
  {
    var k := Passed(next, live);
    Choice(Wrap(next + k), Wrap(next + k + 1), [], k + 1)
  }

  /** The id handed out, and the allocator afterwards. */
  ghost function Allocation(t: Table): (c: Choice)
    requires SomeFree(t.peers.Keys)
    ensures c.id !in t.peers
  {
    var rest := SkipLive(t.reusable, t.peers.Keys);
    if rest != [] then Choice(rest[0], t.next, rest[1..], 0) else FromCounter(t.next, t.peers.Keys)
  }

  ghost function AfterAllocation(t: Table): Table
    requires SomeFree(t.peers.Keys)
  {
    var c := Allocation(t);
    t.(next := c.next, reusable := c.reusable, issued := t.issued + c.fetched)
  }

  // --- Steps --------------------------------------------------------------------------

  ghost function AfterAccept(t: Table, peer: Peer): Table
    requires SomeFree(t.peers.Keys)
  {
    var id := Allocation(t).id;
    AfterAllocation(t).(
      peers := t.peers[id := peer], byAddr := t.byAddr[peer.addr := id], requests := t.requests - {peer.addr})
  }

  /** A live peer is disconnected or times out. */
  function AfterGone(t: Table, id: PeerId): Table {
    if id !in t.peers then t
    else t.(peers := t.peers - {id}, byAddr := t.byAddr - {t.peers[id].addr}, retired := t.retired + {id})
  }

  function AfterRecycle(t: Table, id: PeerId): Table {
    if id in t.peers || id !in t.retired then t
    else t.(retired := t.retired - {id}, reusable := if id in t.reusable then t.reusable else t.reusable + [id])
  }

  /** A request from an address that already has a peer: a newer one takes the old peer's place. */
  function AfterReconnect(t: Table, addr: Address, connectTime: int): Table {
    if addr in t.byAddr && t.byAddr[addr] in t.peers && connectTime > t.peers[t.byAddr[addr]].connectTime
    then AfterGone(t, t.byAddr[addr])
    else t
  }

  /** Whether a request goes no further because the address has a peer that is as new. */
  predicate Answered(t: Table, addr: Address, connectTime: int) {
    addr in t.byAddr && t.byAddr[addr] in t.peers && connectTime <= t.peers[t.byAddr[addr]].connectTime
  }

  predicate Superseded(t: Table, addr: Address, request: PendingRequest) {
    && addr in t.requests
    && (request.connectTime < t.requests[addr].connectTime
        || (request.connectTime == t.requests[addr].connectTime
            && request.connectionNumber == t.requests[addr].connectionNumber))
  }

  function AfterRequest(t: Table, addr: Address, request: PendingRequest): Table {
    if Answered(t, addr, request.connectTime) then t
    else
      var cleared := AfterReconnect(t, addr, request.connectTime);
      if Superseded(cleared, addr, request) then cleared else cleared.(requests := cleared.requests[addr := request])
  }

  /** The fields a disconnect packet proves itself by; none when the packet is too short. */
  predicate Matches(peer: Peer, proof: Option<PendingRequest>) {
    proof.Some? && proof.value.connectionNumber == peer.connectionNumber && proof.value.connectTime == peer.connectTime
  }

  function AfterDisconnectPacket(t: Table, addr: Address, proof: Option<PendingRequest>): Table {
    if addr !in t.byAddr then t
    else
      var id := t.byAddr[addr];
      if id !in t.peers then t.(byAddr := t.byAddr - {addr})
      else if !Matches(t.peers[id], proof) then t
      else t.(peers := t.peers - {id}, byAddr := t.byAddr - {addr}, retired := t.retired + {id})
  }

  datatype Event =
    | Accept(peer: Peer)
    | Reject(addr: Address)
    | Gone(id: PeerId) // kicked or timed out
    | Recycle(id: PeerId)
    | ConnectRequest(addr: Address, request: PendingRequest)
    | DisconnectPacket(addr: Address, proof: Option<PendingRequest>)

  ghost predicate Enabled(t: Table, e: Event) { e.Accept? ==> SomeFree(t.peers.Keys) }

  ghost function Step(t: Table, e: Event): Table
    requires Enabled(t, e)
  {
    match e
    case Accept(peer) => AfterAccept(t, peer)
    case Reject(addr) => t.(requests := t.requests - {addr})
    case Gone(id) => AfterGone(t, id)
    case Recycle(id) => AfterRecycle(t, id)
    case ConnectRequest(addr, request) => AfterRequest(t, addr, request)
    case DisconnectPacket(addr, proof) => AfterDisconnectPacket(t, addr, proof)
  }

  const EMPTY: Table := Table(map[], map[], map[], 0, [], {}, 0)

  /** `tables` are the states of a run from the empty table through `events`. */
  ghost predicate IsRun(events: seq<Event>, tables: seq<Table>) {
    && |tables| == |events| + 1 && tables[0] == EMPTY
    && forall i, j :: 0 <= i < |events| && j == i + 1 ==> Follows(tables[i], events[i], tables[j])
  }

  ghost predicate Follows(t: Table, e: Event, u: Table) { Enabled(t, e) && u == Step(t, e) }
}
