/** What each event makes of the peers: who is live afterwards, which ids rest, which requests wait. */
module PeerFates {
  import opened Ids
  import opened Wrappers
  import opened PeerIds
  import opened PeerInvariants

  /** The event ends the connection of a live peer: it is kicked or timed out; or a newer connect request
      comes from its address; or a disconnect packet with its connection number and connect time does. */
  predicate Ends(t: Table, e: Event, id: PeerId)
    requires id in t.peers
  {
    var peer := t.peers[id];
    match e
    case Gone(gone) => gone == id
    case ConnectRequest(addr, request) =>
      addr in t.byAddr && t.byAddr[addr] == id && request.connectTime > peer.connectTime
    case DisconnectPacket(addr, proof) =>
      addr in t.byAddr && t.byAddr[addr] == id && proof == Some(PendingRequest(peer.connectTime, peer.connectionNumber))
    case _ => false
  }

  /** A peer is live after an event if it was accepted by it, or was live and not ended by it. */
  lemma LiveExactly(t: Table, e: Event, id: PeerId)
    requires AddressesSound(t) && Enabled(t, e)
    ensures var after := Step(t, e);
            && (id in after.peers <==> (id in t.peers && !Ends(t, e, id)) || (e.Accept? && id == Allocation(t).id))
            && (id in t.peers && id in after.peers ==> after.peers[id] == t.peers[id])
            && (e.Accept? && id == Allocation(t).id ==> after.peers[id] == e.peer)
  {
    hide Allocation;
    if e.ConnectRequest? { RequestLive(t, e.addr, e.request, id); }
  }

  lemma RequestLive(t: Table, addr: Address, request: PendingRequest, id: PeerId)
    requires AddressesSound(t)
    ensures var after := AfterRequest(t, addr, request);
            && (id in after.peers <==>
                  && id in t.peers
                  && !(addr in t.byAddr && t.byAddr[addr] == id && request.connectTime > t.peers[id].connectTime))
            && (id in after.peers ==> after.peers[id] == t.peers[id])
  {}

  /** An id rests after an event if its peer was ended by it, or if it rested and was not recycled. */
  lemma RestsExactly(t: Table, e: Event, id: PeerId)
    requires AddressesSound(t) && Enabled(t, e)
    ensures id in Step(t, e).retired <==>
              (id in t.peers && Ends(t, e, id)) || (id in t.retired && !(e == Recycle(id) && id !in t.peers))
  {
    hide Allocation;
    if e.ConnectRequest? { RequestRests(t, e.addr, e.request, id); }
  }

  lemma RequestRests(t: Table, addr: Address, request: PendingRequest, id: PeerId)
    requires AddressesSound(t)
    ensures id in AfterRequest(t, addr, request).retired <==>
              || id in t.retired
              || (&& id in t.peers && addr in t.byAddr && t.byAddr[addr] == id
                  && request.connectTime > t.peers[id].connectTime)
  {}

  /** A rested id that is recycled waits last in line to be reused; nothing else joins the line, and only
      accepting takes from it. */
  lemma ReusableExactly(t: Table, e: Event)
    requires ReuseClean(t) && Enabled(t, e)
    ensures !e.Accept? ==>
              Step(t, e).reusable == t.reusable +
                if e.Recycle? && e.id in t.retired && e.id !in t.peers then [e.id] else []
    ensures e.Accept? ==> Step(t, e).reusable == if t.reusable == [] then [] else t.reusable[1..]
  {
    hide Distinct, SomeFree, FromCounter, Wrap;
    match e
    case Accept(_) =>
      PicksOldest(t);
      if t.reusable == [] { CounterCounts(t.next, t.issued, t.peers.Keys); }
    case ConnectRequest(addr, request) => RequestReuses(t, addr, request);
    case _ =>
  }

  lemma RequestReuses(t: Table, addr: Address, request: PendingRequest)
    ensures AfterRequest(t, addr, request).reusable == t.reusable
  {}

  /** A connect request waits to be answered unless its address has a peer at least as new, or a newer
      request or the same one already waits. Accepting and rejecting take the request of the address. */
  lemma WaitingExactly(t: Table, e: Event)
    requires AddressesSound(t) && Enabled(t, e)
    ensures var after := Step(t, e).requests;
            match e
            case ConnectRequest(a, request) =>
              var live := a in t.byAddr && request.connectTime <= t.peers[t.byAddr[a]].connectTime;
              var later := a in t.requests
                && (request.connectTime < t.requests[a].connectTime || request == t.requests[a]);
              after == if live || later then t.requests else t.requests[a := request]
            case Accept(peer) => after == t.requests - {peer.addr}
            case Reject(a) => after == t.requests - {a}
            case _ => after == t.requests
  {
    hide Allocation;
  }

  function EndedAddresses(t: Table, e: Event): set<Address> {
    set id | id in t.peers && Ends(t, e, id) :: t.peers[id].addr
  }

  /** An accepted peer is entered under its address; the address of an ended one is taken out. */
  lemma AddressedExactly(t: Table, e: Event)
    requires AddressesSound(t) && Enabled(t, e)
    ensures Step(t, e).byAddr
         == if e.Accept? then t.byAddr[e.peer.addr := Allocation(t).id] else t.byAddr - EndedAddresses(t, e)
  {
    hide Allocation;
    match e
    case Accept(_) =>
    case Gone(id) =>
      assert EndedAddresses(t, e) == if id in t.peers then {t.peers[id].addr} else {};
    case ConnectRequest(addr, request) =>
      EndedAt(t, e, addr);
    case DisconnectPacket(addr, proof) =>
      EndedAt(t, e, addr);
    case _ =>
      assert EndedAddresses(t, e) == {};
  }

  /** Only the peer that the table has for an address can be ended from there. */
  lemma EndedAt(t: Table, e: Event, addr: Address)
    requires AddressesSound(t)
    requires (e.ConnectRequest? || e.DisconnectPacket?) && e.addr == addr
    ensures EndedAddresses(t, e) == if addr in t.byAddr && Ends(t, e, t.byAddr[addr]) then {addr} else {}
  {}
}
