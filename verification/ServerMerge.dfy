/** The server's walk over a merged datagram, which drops packets too short for their header. */
module ServerMerge {
  import opened Bits
  import opened Wire
  import opened Merge
  import opened Wrappers
  import AckPackets
  import AckWindow
  import AvatarBundle
  import UnreliableBatch

  /** Bytes a packet of each property has at least; no packet has a property above 17. */
  function HeaderSize(property: nat): Option<nat> {
    if property == 0 then Some(2)
    else if property == 1 || property == 2 then Some(4)
    else if property == 3 then Some(3)
    else if property == 4 then Some(11)
    else if property == 5 then Some(18)
    else if property == 6 then Some(15)
    else if property == 7 then Some(9)
    else if property <= 17 then Some(1)
    else None
  }

  predicate IsValidMerged(packet: Packet) {
    packet != [] && match HeaderSize(PropertyOf(packet[0]))
      case None => false
      case Some(size) => |packet| >= size
  }

  /** Shortest packets by property: unreliable, channeled, ack, ping, pong, connect request, connect
      accept, disconnect, and ten more that are at least a header byte. */
  lemma ValidExactly(packet: Packet)
    ensures IsValidMerged(packet) <==>
              && packet != [] && PropertyOf(packet[0]) < 18
              && |packet| >= ([2, 4, 4, 3, 11, 18, 15, 9] + [1, 1, 1, 1, 1, 1, 1, 1, 1, 1])[PropertyOf(packet[0])]
  {}

  function Valids(packets: seq<Packet>): seq<Packet> {
    if packets == [] then []
    else (if IsValidMerged(packets[0]) then [packets[0]] else []) + Valids(packets[1..])
  }

  lemma {:induction false} ValidsAppend(packets: seq<Packet>, p: Packet)
    ensures Valids(packets + [p]) == Valids(packets) + if IsValidMerged(p) then [p] else []
  {
    hide IsValidMerged;
    if packets != [] {
      assert (packets + [p])[1..] == packets[1..] + [p];
      ValidsAppend(packets[1..], p);
    }
  }

  /** The server's loop takes the valid ones of the packets the client's walk finds, in order. */
  method ProcessMergedPacket(bytes: seq<byte>) returns (handled: seq<Packet>)
    ensures handled == Valids(SplitFrom(bytes, 1))
  {
    hide U16At, IsValidMerged;
    handled := [];
    ghost var found: seq<Packet> := [];
    var position := 1;
    while position < |bytes|
      invariant 1 <= position && handled == Valids(found)
      invariant found + SplitFrom(bytes, position) == SplitFrom(bytes, 1)
      decreases |bytes| - position
    {
      if position + 2 > |bytes| { break; }
      var size := U16At(bytes, position);
      if size == 0 { break; }
      position := position + 2;
      if |bytes| - position < size { break; }
      var packet := bytes[position..position + size];
      ValidsAppend(found, packet);
      if IsValidMerged(packet) { handled := handled + [packet]; }
      found := found + [packet];
      position := position + size;
    }
    assert found == SplitFrom(bytes, 1);
  }

  function Handle(datagram: seq<byte>): seq<Packet> {
    if datagram != [] && PropertyOf(datagram[0]) == MERGED then Valids(SplitFrom(datagram, 1)) else [datagram]
  }

  function HandleAll(datagrams: seq<seq<byte>>): seq<Packet> {
    if datagrams == [] then [] else Handle(datagrams[0]) + HandleAll(datagrams[1..])
  }

  /** What reaches the server of one group: a packet alone always does, packets that share a
      datagram only if they are long enough. */
  function Kept(group: seq<Packet>): seq<Packet> { if |group| == 1 then group else Valids(group) }

  function KeptAll(groups: seq<seq<Packet>>): seq<Packet> {
    if groups == [] then [] else Kept(groups[0]) + KeptAll(groups[1..])
  }

  lemma EmitHandled(connectionNumber: nat, group: seq<Packet>)
    requires connectionNumber < 4 && Fits(group) && group != [] && Plain(group)
    ensures Handle(Emit(connectionNumber, group)) == Kept(group)
  {
    hide SplitFrom, Frames, IsValidMerged;
    if |group| > 1 {
      FittingFrameable(group);
      HeaderRead(MERGED, connectionNumber);
      SplitFrames([Header(MERGED, connectionNumber)], group);
    }
  }

  lemma {:induction false} EmitAllHandled(connectionNumber: nat, groups: seq<seq<Packet>>)
    requires connectionNumber < 4
    requires forall j :: 0 <= j < |groups| ==> Fits(groups[j]) && groups[j] != [] && Plain(groups[j])
    ensures HandleAll(EmitAll(connectionNumber, groups)) == KeptAll(groups)
  {
    if groups != [] {
      hide Emit, Handle, Kept, Fits;
      EmitHandled(connectionNumber, groups[0]);
      EmitAllHandled(connectionNumber, groups[1..]);
      var all := EmitAll(connectionNumber, groups);
      assert all[0] == Emit(connectionNumber, groups[0]) && all[1..] == EmitAll(connectionNumber, groups[1..]);
    }
  }

  /** No group that shares a datagram holds a packet too short for its header. */
  ghost predicate SharersValid(groups: seq<seq<Packet>>) {
    forall j :: 0 <= j < |groups| && |groups[j]| > 1 ==> AllValid(groups[j])
  }

  predicate AllValid(packets: seq<Packet>) { forall i :: 0 <= i < |packets| ==> IsValidMerged(packets[i]) }

  lemma {:induction false} ValidsAll(packets: seq<Packet>)
    ensures |Valids(packets)| <= |packets|
    ensures Valids(packets) == packets <==> AllValid(packets)
  {
    hide IsValidMerged;
    if packets != [] {
      ValidsAll(packets[1..]);
      assert packets == [packets[0]] + packets[1..];
    }
  }

  lemma {:induction false} KeptAllExactly(groups: seq<seq<Packet>>)
    requires forall j :: 0 <= j < |groups| ==> groups[j] != []
    ensures |KeptAll(groups)| <= |Flat(groups)|
    ensures KeptAll(groups) == Flat(groups) <==> SharersValid(groups)
  {
    if groups != [] {
      hide Valids, AllValid;
      KeptAllExactly(groups[1..]);
      ValidsAll(groups[0]);
      var kept, flat := Kept(groups[0]), groups[0];
      assert |kept| <= |flat|;
      if KeptAll(groups) == Flat(groups) {
        assert kept == KeptAll(groups)[..|kept|] && flat == Flat(groups)[..|flat|];
        assert KeptAll(groups[1..]) == KeptAll(groups)[|kept|..];
      }
    }
  }

  /** The server gets every packet, in order, if and only if no packet that shares a datagram is
      too short for its header. */
  lemma ServerRoundTripIff(connectionNumber: nat, ps: seq<Packet>)
    requires connectionNumber < 4 && Plain(ps)
    ensures HandleAll(Datagrams(connectionNumber, ps)) == ps <==> SharersValid(Groups(ps, 0))
  {
    hide EmitAll, HandleAll, KeptAll, Groups, Fits;
    GroupsFit(ps, 0);
    GroupsFlat(ps, 0);
    assert ps[0..] == ps;
    PartsPlain(Groups(ps, 0));
    EmitAllHandled(connectionNumber, Groups(ps, 0));
    KeptAllExactly(Groups(ps, 0));
  }

  lemma {:induction false} GroupsValid(groups: seq<seq<Packet>>)
    requires AllValid(Flat(groups))
    ensures SharersValid(groups)
  {
    if groups != [] {
      hide IsValidMerged;
      var flat := Flat(groups);
      assert groups[0] == flat[..|groups[0]|] && Flat(groups[1..]) == flat[|groups[0]|..];
      GroupsValid(groups[1..]);
    }
  }

  /** In particular packets as long as their headers all reach the server. */
  lemma ServerRoundTrip(connectionNumber: nat, ps: seq<Packet>)
    requires connectionNumber < 4 && Plain(ps) && AllValid(ps)
    ensures HandleAll(Datagrams(connectionNumber, ps)) == ps
  {
    hide Datagrams, HandleAll, Groups;
    GroupsFlat(ps, 0);
    assert ps[0..] == ps;
    GroupsValid(Groups(ps, 0));
    ServerRoundTripIff(connectionNumber, ps);
  }

  /** Two pings of one byte each share a datagram, and neither reaches the server. */
  lemma ShortPacketsLost(connectionNumber: nat) returns (ps: seq<Packet>)
    requires connectionNumber < 4
    ensures Plain(ps) && ps == [[3], [3]]
    ensures HandleAll(Datagrams(connectionNumber, ps)) != ps
  {
    hide Datagrams, HandleAll, Groups, Flat;
    ps := [[3], [3]];
    assert ps[..1] == [[3]] && ps[..1][..0] == [];
    assert Size(ps[..1]) == 4;
    OneGroup(ps);
    assert !IsValidMerged(ps[0]);
    assert !AllValid(ps) && Groups(ps, 0)[0] == ps;
    ServerRoundTripIff(connectionNumber, ps);
  }

  /** Packets that fit into one datagram are one group. */
  lemma OneGroup(ps: seq<Packet>)
    requires ps != [] && Fits(ps)
    ensures Groups(ps, 0) == [ps]
  {
    hide Groups, Fits;
    var groups := Groups(ps, 0);
    assert ps[0..] == ps;
    assert Flat([ps]) == ps + Flat([]);
    GroupsOptimal(ps, 0, [ps]);
    GroupsFlat(ps, 0);
    assert groups != [] && groups[1..] == [];
    assert groups == [groups[0]] && Flat(groups) == groups[0] + Flat([]);
    assert groups[0] + [] == groups[0];
  }

  /** Unreliable, channeled and ack packets as they are built here are long enough for their headers. */
  lemma BuiltPacketsValid(
      connectionNumber: nat, sequence: AckWindow.Wire, channelId: byte, payload: seq<byte>, ack: AckPackets.AckState)
    requires connectionNumber < 4
    ensures AllValid([UnreliableBatch.UnreliablePacket(connectionNumber, AvatarBundle.Send(channelId, payload)),
                      AckPackets.ChannelPacket(connectionNumber, sequence, channelId, payload),
                      AckPackets.BuildAckPacket(connectionNumber, channelId, ack)])
  {
    HeaderRead(UNRELIABLE, connectionNumber);
    HeaderRead(CHANNELED, connectionNumber);
    HeaderRead(ACK, connectionNumber);
  }
}
