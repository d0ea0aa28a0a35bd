/** What every run keeps of the peer tables: sound addresses, reusable ids that are free, and, until
    the counter has gone round, a parting of all ids issued. */
module PeerInvariants {
  import opened Ids
  import opened Wrappers
  import opened PeerIds

  /** Every address in the table is that of the live peer it points to. */
  predicate AddressesSound(t: Table) {
    forall addr :: addr in t.byAddr ==> t.byAddr[addr] in t.peers && t.peers[t.byAddr[addr]].addr == addr
  }

  predicate Distinct(ids: seq<PeerId>) { forall i, j :: 0 <= i < j < |ids| ==> ids[i] != ids[j] }

  /** Ids waiting to be reused are distinct, and neither live nor retired. */
  predicate ReuseClean(t: Table) {
    && t.next == Wrap(t.issued)
    && Distinct(t.reusable)
    && forall id :: id in t.reusable ==> id !in t.peers && id !in t.retired
  }

  predicate Issued(t: Table, id: PeerId) { id < t.issued }

  predicate PartedAt(t: Table, id: PeerId) {
    && (Issued(t, id) <==> id in t.peers || id in t.retired || id in t.reusable)
    && !(id in t.peers && id in t.retired)
  }

  /** Until the counter has gone round, what it has issued is parted into live, retired and reusable
      ids; that reusable ones are neither live nor retired is `ReuseClean`. */
  ghost predicate Parted(t: Table) { t.issued <= ID_COUNT ==> forall id: PeerId :: PartedAt(t, id) }

  // --- Addresses ----------------------------------------------------------------------

  lemma GoneKeepsAddresses(t: Table, id: PeerId)
    requires AddressesSound(t)
    ensures AddressesSound(AfterGone(t, id))
  {}

  lemma StepKeepsAddresses(t: Table, e: Event)
    requires AddressesSound(t) && Enabled(t, e)
    ensures AddressesSound(Step(t, e))
  {
    hide Allocation;
  }

  /** With sound addresses, a disconnect packet that matches does what a kick does. */
  lemma PacketIsGone(t: Table, addr: Address, proof: Option<PendingRequest>)
    requires AddressesSound(t)
    ensures AfterDisconnectPacket(t, addr, proof)
      == if addr in t.byAddr && Matches(t.peers[t.byAddr[addr]], proof) then AfterGone(t, t.byAddr[addr]) else t
  {}

  // --- What allocation picks ----------------------------------------------------------

  lemma FirstNotLive(reusable: seq<PeerId>, live: set<PeerId>)
    requires reusable != [] && reusable[0] !in live
    ensures SkipLive(reusable, live) == reusable
  {}

  lemma NothingToReuse(live: set<PeerId>)
    ensures SkipLive([], live) == []
  {}

  /** At any time allocation picks the oldest reusable id, or the counter's next free one. */
  lemma PicksOldest(t: Table)
    requires ReuseClean(t) && SomeFree(t.peers.Keys)
    ensures Allocation(t) ==
      if t.reusable != [] then Choice(t.reusable[0], t.next, t.reusable[1..], 0) else FromCounter(t.next, t.peers.Keys)
  {
    hide Distinct, SomeFree, SkipLive, FromCounter, Wrap;
    if t.reusable != [] {
      FirstNotLive(t.reusable, t.peers.Keys);
    } else {
      NothingToReuse(t.peers.Keys);
    }
  }

  lemma NextIsFree(next: PeerId, live: set<PeerId>)
    requires SomeFree(live) && next !in live
    ensures FromCounter(next, live) == Choice(next, Wrap(next + 1), [], 1)
  {
    hide Passed, SomeFree;
    assert FreeAt(next, live, 0);
  }

  lemma CounterCounts(next: PeerId, issued: nat, live: set<PeerId>)
    requires next == Wrap(issued) && SomeFree(live)
    ensures FromCounter(next, live).next == Wrap(issued + FromCounter(next, live).fetched)
    ensures FromCounter(next, live).fetched > 0 && FromCounter(next, live).reusable == []
  {
    hide Wrap, Passed, SomeFree;
    WrapNext(next, issued, Passed(next, live) + 1);
  }

  lemma WrapNext(next: PeerId, issued: nat, k: nat)
    requires next == Wrap(issued)
    ensures Wrap(next + k) == Wrap(issued + k) && Wrap(next) == next
  {}

  lemma InRest(ids: seq<PeerId>, id: PeerId)
    requires ids != [] && Distinct(ids)
    ensures id in ids[1..] <==> id in ids && id != ids[0]
    ensures Distinct(ids[1..])
  {}

  // --- Every step keeps them ----------------------------------------------------------

  lemma AcceptKeepsReuse(t: Table, peer: Peer)
    requires ReuseClean(t) && SomeFree(t.peers.Keys)
    ensures ReuseClean(AfterAccept(t, peer))
  {
    hide Allocation, FromCounter, Wrap, Distinct, SomeFree;
    PicksOldest(t);
    if t.reusable == [] {
      CounterCounts(t.next, t.issued, t.peers.Keys);
      NothingDistinct();
    } else {
      InRest(t.reusable, t.reusable[0]);
      forall id | id in t.reusable[1..] ensures id in t.reusable && id != t.reusable[0] { InRest(t.reusable, id); }
    }
  }

  lemma NothingDistinct()
    ensures Distinct([])
  {}

  lemma GoneKeepsReuse(t: Table, id: PeerId)
    requires ReuseClean(t)
    ensures ReuseClean(AfterGone(t, id))
  {
    hide Wrap, Distinct;
  }

  lemma RecycleKeepsReuse(t: Table, id: PeerId)
    requires ReuseClean(t)
    ensures ReuseClean(AfterRecycle(t, id))
  {
    hide Wrap;
  }

  lemma AcceptKeepsParting(t: Table, peer: Peer)
    requires ReuseClean(t) && Parted(t) && SomeFree(t.peers.Keys)
    ensures Parted(AfterAccept(t, peer))
  {
    hide Allocation, FromCounter, Distinct, SomeFree;
    var after := AfterAccept(t, peer);
    PicksOldest(t);
    if t.reusable == [] { CounterCounts(t.next, t.issued, t.peers.Keys); }
    if after.issued <= ID_COUNT {
      if t.reusable == [] {
        assert PartedAt(t, t.issued);
        NextIsFree(t.next, t.peers.Keys);
      }
      forall id: PeerId ensures PartedAt(after, id) {
        assert PartedAt(t, id);
        if t.reusable != [] {
          assert PartedAt(t, t.reusable[0]);
          InRest(t.reusable, id);
        }
      }
    }
  }

  lemma GoneKeepsParting(t: Table, id: PeerId)
    requires Parted(t)
    ensures Parted(AfterGone(t, id))
  {
    forall x: PeerId | t.issued <= ID_COUNT ensures PartedAt(AfterGone(t, id), x) {
      assert PartedAt(t, x);
      assert PartedAt(t, id);
    }
  }

  lemma RecycleKeepsParting(t: Table, id: PeerId)
    requires Parted(t)
    ensures Parted(AfterRecycle(t, id))
  {
    forall x: PeerId | t.issued <= ID_COUNT ensures PartedAt(AfterRecycle(t, id), x) {
      assert PartedAt(t, x);
      assert PartedAt(t, id);
    }
  }

  /** What is kept of the ids alone. */
  ghost predicate IdsKept(t: Table) { ReuseClean(t) && Parted(t) }

  lemma RequestsIrrelevant(t: Table, requests: map<Address, PendingRequest>)
    requires IdsKept(t)
    ensures IdsKept(t.(requests := requests))
  {
    hide Wrap, Distinct;
    forall id: PeerId | t.issued <= ID_COUNT ensures PartedAt(t.(requests := requests), id) { assert PartedAt(t, id); }
  }

  lemma GoneKeepsIds(t: Table, id: PeerId)
    requires IdsKept(t)
    ensures IdsKept(AfterGone(t, id))
  {
    hide ReuseClean, Parted;
    GoneKeepsReuse(t, id);
    GoneKeepsParting(t, id);
  }

  lemma StepKeepsIds(t: Table, e: Event)
    requires IdsKept(t) && AddressesSound(t) && Enabled(t, e)
    ensures IdsKept(Step(t, e))
  {
    hide ReuseClean, Parted, AfterGone, AfterRecycle, AfterAccept;
    match e
    case Accept(peer) =>
      AcceptKeepsReuse(t, peer);
      AcceptKeepsParting(t, peer);
    case Gone(id) => GoneKeepsIds(t, id);
    case Recycle(id) =>
      RecycleKeepsReuse(t, id);
      RecycleKeepsParting(t, id);
    case Reject(addr) => RequestsIrrelevant(t, t.requests - {addr});
    case ConnectRequest(addr, request) =>
      if addr in t.byAddr { GoneKeepsIds(t, t.byAddr[addr]); }
      var cleared := AfterReconnect(t, addr, request.connectTime);
      RequestsIrrelevant(cleared, cleared.requests[addr := request]);
    case DisconnectPacket(addr, proof) =>
      PacketIsGone(t, addr, proof);
      if addr in t.byAddr { GoneKeepsIds(t, t.byAddr[addr]); }
  }

  /** Over every run, at any time: addresses are sound and reusable ids are distinct and free; and
      until the counter goes round, the ids issued are parted. */
  lemma {:induction false} RunKeeps(events: seq<Event>, tables: seq<Table>, n: nat)
    requires IsRun(events, tables) && n < |tables|
    ensures AddressesSound(tables[n]) && ReuseClean(tables[n]) && Parted(tables[n])
  {
    hide Step, Enabled, AddressesSound, ReuseClean, Parted;
    if n == 0 {
      EmptyKept();
    } else {
      RunKeeps(events, tables, n - 1);
      assert Follows(tables[n - 1], events[n - 1], tables[n]);
      StepKeepsAddresses(tables[n - 1], events[n - 1]);
      StepKeepsIds(tables[n - 1], events[n - 1]);
    }
  }

  lemma EmptyKept()
    ensures AddressesSound(EMPTY) && ReuseClean(EMPTY) && Parted(EMPTY)
  {
    forall id: PeerId ensures PartedAt(EMPTY, id) {}
  }

  // --- Reissued ids -------------------------------------------------------------------

  /** At any time of any run an accepted peer gets an id that is not live, and a retired one only when
      none is reusable. */
  lemma RetiredReissuedLast(events: seq<Event>, tables: seq<Table>, n: nat)
    requires IsRun(events, tables) && n < |tables| && SomeFree(tables[n].peers.Keys)
    ensures var t := tables[n];
            Allocation(t).id !in t.peers && (Allocation(t).id in t.retired ==> t.reusable == [])
  {
    hide Allocation, FromCounter, Wrap, Distinct, IsRun, SomeFree;
    RunKeeps(events, tables, n);
    PicksOldest(tables[n]);
  }

  /** While the counter has not gone round, exactly when in addition every id was issued. */
  lemma RetiredReissuedExactly(events: seq<Event>, tables: seq<Table>, n: nat)
    requires IsRun(events, tables) && n < |tables|
    requires tables[n].issued <= ID_COUNT && SomeFree(tables[n].peers.Keys)
    ensures var t := tables[n];
            Allocation(t).id in t.retired <==> t.reusable == [] && t.issued == ID_COUNT
  {
    hide Allocation, FromCounter, Distinct, IsRun, SomeFree;
    var t := tables[n];
    RunKeeps(events, tables, n);
    PicksOldest(t);
    if t.reusable == [] && t.issued < ID_COUNT {
      assert PartedAt(t, t.issued);
      NextIsFree(t.next, t.peers.Keys);
    }
    assert PartedAt(t, Allocation(t).id);
  }

  lemma Extends(events: seq<Event>, tables: seq<Table>, e: Event)
    requires IsRun(events, tables) && Enabled(tables[|events|], e)
    ensures IsRun(events + [e], tables + [Step(tables[|events|], e)])
    ensures |tables| == |events| + 1
  {
    hide Step, Enabled;
    var more, longer := events + [e], tables + [Step(tables[|events|], e)];
    forall i, j | 0 <= i < |more| && j == i + 1 ensures Follows(longer[i], more[i], longer[j]) {
      if i < |events| { assert Follows(tables[i], events[i], tables[j]); }
    }
  }

  /** Nothing but `n` accepted peers. */
  predicate Filled(t: Table, n: nat) {
    && t.issued == n && t.reusable == [] && t.retired == {} && t.next == Wrap(n)
    && forall id: PeerId :: id in t.peers <==> id < n
  }

  lemma {:induction false} AcceptMany(peer: Peer, n: nat) returns (events: seq<Event>, tables: seq<Table>)
    requires n <= ID_COUNT
    ensures IsRun(events, tables) && |events| == n && |tables| == n + 1 && Filled(tables[n], n)
  {
    if n == 0 {
      events, tables := [], [EMPTY];
    } else {
      hide IsRun;
      events, tables := AcceptMany(peer, n - 1);
      AcceptOne(tables[n - 1], peer, n - 1);
      Extends(events, tables, Accept(peer));
      tables := tables + [Step(tables[n - 1], Accept(peer))];
      events := events + [Accept(peer)];
    }
  }

  lemma AcceptOne(t: Table, peer: Peer, n: PeerId)
    requires Filled(t, n)
    ensures SomeFree(t.peers.Keys) && Filled(AfterAccept(t, peer), n + 1)
  {
    hide FromCounter, Wrap;
    assert n !in t.peers.Keys;
    NothingToReuse(t.peers.Keys);
    WrapBelow(n);
    NextIsFree(n, t.peers.Keys);
  }

  lemma WrapBelow(n: PeerId)
    ensures Wrap(n) == n
  {}

  /** The retired id of the peer that was accepted first is handed out again before it is recycled, once
      all 65536 ids have been issued. */
  lemma ReissueExample(peer: Peer) returns (events: seq<Event>, tables: seq<Table>)
    ensures IsRun(events, tables) && |events| == ID_COUNT + 1
    ensures var t := tables[ID_COUNT + 1];
            && t.issued == ID_COUNT && t.reusable == [] && t.retired == {0}
            && SomeFree(t.peers.Keys) && Allocation(t).id == 0
  {
    hide IsRun, FromCounter, Wrap, Filled;
    events, tables := AcceptMany(peer, ID_COUNT);
    var full := tables[ID_COUNT];
    Extends(events, tables, Gone(0));
    events, tables := events + [Gone(0)], tables + [Step(full, Gone(0))];
    FirstReissued(full);
  }

  lemma FirstReissued(full: Table)
    requires Filled(full, ID_COUNT)
    ensures var t := AfterGone(full, 0);
            && t.issued == ID_COUNT && t.reusable == [] && t.retired == {0}
            && SomeFree(t.peers.Keys) && Allocation(t).id == 0
  {
    hide FromCounter;
    var t := AfterGone(full, 0);
    assert 0 !in t.peers.Keys;
    NothingToReuse(t.peers.Keys);
    NextIsFree(0, t.peers.Keys);
  }
}
