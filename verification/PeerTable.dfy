/** The transport's peer tables, updated in place. Each operation is one atomic step. */
module PeerTable {
  import opened Ids
  import opened Wrappers
  import opened PeerIds
  import opened PeerInvariants

  class PeerTable {
    var peers: map<PeerId, Peer>
    var byAddr: map<Address, PeerId>
    var pendingRequests: map<Address, PendingRequest>
    var nextPeerId: PeerId
    var reusablePeerIds: seq<PeerId>
    var retiredPeerIds: set<PeerId>
    ghost var issued: nat

    ghost function State(): Table
      reads this
    {
      Table(peers, byAddr, pendingRequests, nextPeerId, reusablePeerIds, retiredPeerIds, issued)
    }

    constructor ()
      ensures State() == EMPTY
    {
      peers, byAddr, pendingRequests := map[], map[], map[];
      nextPeerId, reusablePeerIds, retiredPeerIds, issued := 0, [], {}, 0;
    }

    /** Ends as long as some id is not live. */
    method AllocatePeerId() returns (id: PeerId)
      requires SomeFree(peers.Keys)
      modifies this`nextPeerId, this`reusablePeerIds, this`issued
      ensures id == Allocation(old(State())).id
      ensures State() == AfterAllocation(old(State()))
    {
      hide Searching, Allocation, Wrap, SomeFree, Passed;
      ghost var before, fetched := State(), 0;
      StartSearch(before);
      while true
        invariant unchanged(`peers) && unchanged(`byAddr) && unchanged(`pendingRequests) && unchanged(`retiredPeerIds)
        invariant issued == before.issued + fetched
        invariant Searching(before, reusablePeerIds, nextPeerId, fetched)
        decreases |reusablePeerIds|, ID_COUNT - fetched
      {
        if reusablePeerIds != [] {
          Reuse(before, reusablePeerIds, nextPeerId, fetched);
          id := reusablePeerIds[0];
          reusablePeerIds := reusablePeerIds[1..];
          if id !in peers { return; }
          continue;
        }
        Fetch(before, nextPeerId, fetched);
        id := nextPeerId;
        nextPeerId := if nextPeerId == ID_COUNT - 1 then 0 else nextPeerId + 1;
        issued := issued + 1;
        if id !in peers { return; }
        fetched := fetched + 1;
      }
    }

    method Accept(request: Peer) returns (id: PeerId)
      requires SomeFree(peers.Keys)
      modifies this
      ensures id == Allocation(old(State())).id
      ensures State() == AfterAccept(old(State()), request)
    {
      hide Allocation;
      pendingRequests := pendingRequests - {request.addr};
      RequestsUnread(old(State()), State());
      id := AllocatePeerId();
      byAddr := byAddr[request.addr := id];
      peers := peers[id := request];
    }

    method Reject(addr: Address)
      modifies this`pendingRequests
      ensures State() == Step(old(State()), Event.Reject(addr))
    {
      pendingRequests := pendingRequests - {addr};
    }

    method RetirePeerId(id: PeerId)
      modifies this`retiredPeerIds
      ensures retiredPeerIds == old(retiredPeerIds) + {id}
    {
      retiredPeerIds := retiredPeerIds + {id};
    }

    method RecyclePeerId(id: PeerId)
      modifies this`retiredPeerIds, this`reusablePeerIds
      ensures State() == AfterRecycle(old(State()), id)
    {
      if id in peers { return; }
      if id !in retiredPeerIds { return; }
      retiredPeerIds := retiredPeerIds - {id};
      if id !in reusablePeerIds {
        reusablePeerIds := reusablePeerIds + [id];
      }
    }

    /** A kick, or one peer of a timeout sweep. */
    method Disconnect(id: PeerId)
      modifies this
      ensures State() == AfterGone(old(State()), id)
    {
      if id in peers {
        var state := peers[id];
        peers := peers - {id};
        byAddr := byAddr - {state.addr};
        RetirePeerId(id);
      }
    }

    /** A connect request; whether it is passed on to be accepted or rejected. */
    method OnConnectRequest(addr: Address, request: PendingRequest) returns (announced: bool)
      modifies this
      ensures State() == AfterRequest(old(State()), addr, request)
      ensures announced <==> (
        && !Answered(old(State()), addr, request.connectTime)
        && !Superseded(AfterReconnect(old(State()), addr, request.connectTime), addr, request))
    {
      if addr in byAddr {
        var existing := byAddr[addr];
        if existing in peers && request.connectTime <= peers[existing].connectTime { return false; }
        Disconnect(existing);
      }
      if addr in pendingRequests {
        var known := pendingRequests[addr];
        if request.connectTime < known.connectTime
           || (request.connectTime == known.connectTime && request.connectionNumber == known.connectionNumber) {
          return false;
        }
      }
      pendingRequests := pendingRequests[addr := request];
      return true;
    }

    method OnDisconnectPacket(addr: Address, proof: Option<PendingRequest>)
      modifies this
      ensures State() == AfterDisconnectPacket(old(State()), addr, proof)
    {
      if addr !in byAddr { return; }
      var id := byAddr[addr];
      byAddr := byAddr - {addr};
      if id !in peers { return; }
      var peer := peers[id];
      peers := peers - {id};
      if !Matches(peer, proof) {
        byAddr := byAddr[addr := id];
        peers := peers[id := peer];
        assert byAddr == old(byAddr) && peers == old(peers);
        return;
      }
      RetirePeerId(id);
    }

    /** Disconnects the peers not heard of for too long. */
    method OnTimeout(timedOut: seq<PeerId>)
      modifies this
      ensures State() == AfterAllGone(old(State()), timedOut)
    {
      hide AfterGone;
      for i := 0 to |timedOut|
        invariant State() == AfterAllGone(old(State()), timedOut[..i])
      {
        assert timedOut[..i + 1][..i] == timedOut[..i];
        Disconnect(timedOut[i]);
      }
      assert timedOut[..|timedOut|] == timedOut;
    }
  }

  function AfterAllGone(t: Table, ids: seq<PeerId>): Table {
    if ids == [] then t else AfterGone(AfterAllGone(t, ids[..|ids| - 1]), ids[|ids| - 1])
  }

  /** A sweep ends the live peers it is given, whose ids then rest, and no others. */
  lemma {:induction false} SweepExactly(t: Table, ids: seq<PeerId>, id: PeerId)
    ensures var after := AfterAllGone(t, ids);
            && (id in after.peers <==> id in t.peers && id !in ids)
            && (id in after.peers ==> after.peers[id] == t.peers[id])
            && (id in after.retired <==> id in t.retired || (id in t.peers && id in ids))
  {
    if ids != [] { SweepExactly(t, ids[..|ids| - 1], id); }
  }

  /** A sweep keeps what every single disconnection keeps. */
  lemma {:induction false} SweepKeeps(t: Table, ids: seq<PeerId>)
    requires AddressesSound(t) && IdsKept(t)
    ensures AddressesSound(AfterAllGone(t, ids)) && IdsKept(AfterAllGone(t, ids))
  {
    hide AddressesSound, IdsKept, AfterGone;
    if ids != [] {
      SweepKeeps(t, ids[..|ids| - 1]);
      GoneKeepsAddresses(AfterAllGone(t, ids[..|ids| - 1]), ids[|ids| - 1]);
      GoneKeepsIds(AfterAllGone(t, ids[..|ids| - 1]), ids[|ids| - 1]);
    }
  }

  lemma WrapSmall(id: PeerId)
    ensures Wrap(id + 0) == id && Wrap(id) == id
  {}

  lemma WrapSuccessor(id: PeerId)
    ensures Wrap(id + 1) == if id == ID_COUNT - 1 then 0 else id + 1
  {}

  /** Allocation does not look at the pending requests. */
  lemma RequestsUnread(t: Table, u: Table)
    requires SomeFree(t.peers.Keys) && u == t.(requests := u.requests)
    ensures Allocation(u) == Allocation(t)
  {}

  // --- The search for a free id -------------------------------------------------------

  /** No reusable id is free, and the counter has passed over `fetched` live ids. */
  ghost predicate Counting(t: Table, next: PeerId, fetched: nat)
    requires SomeFree(t.peers.Keys)
  {
    NoneReusable(t) && next == Wrap(t.next + fetched) && fetched <= Passed(t.next, t.peers.Keys)
  }

  predicate NoneReusable(t: Table) { SkipLive(t.reusable, t.peers.Keys) == [] }

  /** The search so far: `reusable` is left to try before the counter. */
  ghost predicate Searching(t: Table, reusable: seq<PeerId>, next: PeerId, fetched: nat)
    requires SomeFree(t.peers.Keys)
  {
    if reusable == [] then Counting(t, next, fetched)
    else fetched == 0 && next == t.next && SkipLive(reusable, t.peers.Keys) == SkipLive(t.reusable, t.peers.Keys)
  }

  lemma StartSearch(t: Table)
    requires SomeFree(t.peers.Keys)
    ensures Searching(t, t.reusable, t.next, 0)
  {
    hide SkipLive, Passed, SomeFree, Wrap;
    if t.reusable == [] { StartCounting(t); }
  }

  lemma StartCounting(t: Table)
    requires SomeFree(t.peers.Keys) && SkipLive(t.reusable, t.peers.Keys) == SkipLive([], t.peers.Keys)
    ensures Counting(t, t.next, 0)
  {
    hide SkipLive, Passed, SomeFree, Wrap;
    NothingToReuse(t.peers.Keys);
    WrapSmall(t.next);
  }

  lemma Reuse(t: Table, reusable: seq<PeerId>, next: PeerId, fetched: nat)
    requires SomeFree(t.peers.Keys) && Searching(t, reusable, next, fetched) && reusable != []
    ensures if reusable[0] in t.peers then Searching(t, reusable[1..], next, fetched)
            else fetched == 0 && Allocation(t) == Choice(reusable[0], next, reusable[1..], 0)
  {
    hide Passed, Wrap, SkipLive, FromCounter, SomeFree, Counting;
    SkipFirst(reusable, t.peers.Keys);
    if reusable[0] in t.peers && reusable[1..] == [] { StartCounting(t); }
  }

  lemma SkipFirst(reusable: seq<PeerId>, live: set<PeerId>)
    requires reusable != []
    ensures SkipLive(reusable, live) == if reusable[0] in live then SkipLive(reusable[1..], live) else reusable
  {}

  /** The counter has found a free id exactly when it has passed over all the live ones. */
  lemma FoundExactly(next: PeerId, live: set<PeerId>, fetched: nat)
    requires SomeFree(live) && fetched <= Passed(next, live)
    ensures Wrap(next + fetched) !in live <==> fetched == Passed(next, live)
  {
    hide Passed, SomeFree, Wrap;
    assert FreeAt(next, live, fetched) <==> Wrap(next + fetched) !in live;
  }

  function Successor(id: PeerId): PeerId { if id == ID_COUNT - 1 then 0 else id + 1 }

  lemma SuccessorWraps(next: PeerId, start: PeerId, fetched: nat)
    requires next == Wrap(start + fetched)
    ensures Successor(next) == Wrap(start + fetched + 1)
  {
    WrapNext(next, start + fetched, 1);
    WrapSuccessor(next);
    hide Wrap;
  }

  lemma FetchLive(t: Table, next: PeerId, fetched: nat)
    requires SomeFree(t.peers.Keys) && Counting(t, next, fetched) && next in t.peers
    ensures fetched < ID_COUNT && Counting(t, Successor(next), fetched + 1)
  {
    hide Wrap, Passed, NoneReusable, SomeFree, Successor, FreeAt;
    SuccessorWraps(next, t.next, fetched);
    FoundExactly(t.next, t.peers.Keys, fetched);
  }

  lemma FetchFree(t: Table, next: PeerId, fetched: nat)
    requires SomeFree(t.peers.Keys) && Counting(t, next, fetched) && next !in t.peers
    ensures Allocation(t) == Choice(next, Successor(next), [], fetched + 1)
  {
    hide Wrap, Passed, SkipLive, SomeFree, Successor, FreeAt;
    SuccessorWraps(next, t.next, fetched);
    FoundExactly(t.next, t.peers.Keys, fetched);
  }

  lemma Fetch(t: Table, next: PeerId, fetched: nat)
    requires SomeFree(t.peers.Keys) && Searching(t, [], next, fetched)
    ensures var successor := if next == ID_COUNT - 1 then 0 else next + 1;
            if next in t.peers then fetched < ID_COUNT && Searching(t, [], successor, fetched + 1)
            else Allocation(t) == Choice(next, successor, [], fetched + 1)
  {
    hide Counting, Allocation, Wrap, SomeFree;
    if next in t.peers { FetchLive(t, next, fetched); } else { FetchFree(t, next, fetched); }
  }
}
