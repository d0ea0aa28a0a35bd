/** Sending a batch of unreliable messages: framed into merged datagrams straight from the
    messages, unlike the general merging, which takes a lone packet out of its frame again. */
module UnreliableBatch {
  import opened Bits
  import opened Wire
  import opened Wrappers
  import opened AvatarBundle
  import opened Merge
  import AckPackets
  import BundleEmission

  function UnreliablePacket(connectionNumber: nat, send: Send): (packet: Packet)
    requires connectionNumber < 4
    ensures |packet| == 2 + |send.payload|
  {
    [Header(UNRELIABLE, connectionNumber), send.channel] + send.payload
  }

  function Packets(connectionNumber: nat, sends: seq<Send>): (packets: seq<Packet>)
    requires connectionNumber < 4
    ensures |packets| == |sends|
    ensures forall i :: 0 <= i < |sends| ==> packets[i] == UnreliablePacket(connectionNumber, sends[i])
  {
    seq(|sends|, i requires 0 <= i < |sends| => UnreliablePacket(connectionNumber, sends[i]))
  }

  /** The message in an unreliable packet. */
  function MessageIn(packet: Packet): Option<Send> {
    match AckPackets.ParseMessage(packet)
    case Message(channel, Unreliable, payload) => Some(Send(channel, payload))
    case _ => None
  }

  function MessagesIn(packets: seq<Packet>): seq<Send> {
    if packets == [] then []
    else match MessageIn(packets[0])
      case None => MessagesIn(packets[1..])
      case Some(send) => [send] + MessagesIn(packets[1..])
  }

  // --- Datagrams ----------------------------------------------------------------------

  function TooLong(packet: Packet): bool { 3 + |packet| > MAX_MERGED_PACKET_SIZE }

  /** A group goes out as one merged datagram, also when it is a single packet that fits. */
  function BatchDatagram(connectionNumber: nat, group: seq<Packet>): seq<byte>
    requires connectionNumber < 4 && Fits(group)
  {
    if |group| == 1 && TooLong(group[0]) then group[0]
    else
      FitsWrapped(group);
      Wrap(connectionNumber, group)
  }

  lemma FitsWrapped(group: seq<Packet>)
    requires Fits(group) && (|group| == 1 ==> !TooLong(group[0]))
    ensures Frameable(group) && Size(group) <= MAX_MERGED_PACKET_SIZE
  {
    if |group| == 1 {
      assert group == [group[0]];
      SizeOfOne(group[0]);
    }
    FittingFrameable(group);
  }

  function BatchOf(connectionNumber: nat, groups: seq<seq<Packet>>): seq<seq<byte>>
    requires connectionNumber < 4
    requires forall j :: 0 <= j < |groups| ==> Fits(groups[j])
  {
    if groups == [] then [] else [BatchDatagram(connectionNumber, groups[0])] + BatchOf(connectionNumber, groups[1..])
  }

  function BatchFrom(connectionNumber: nat, ps: seq<Packet>, start: nat): seq<seq<byte>>
    requires connectionNumber < 4 && start <= |ps|
  {
    GroupsFit(ps, start);
    BatchOf(connectionNumber, Groups(ps, start))
  }

  /** The datagrams for a batch: a single message goes out bare, whatever its length. */
  function BatchDatagrams(connectionNumber: nat, sends: seq<Send>): seq<seq<byte>>
    requires connectionNumber < 4
  {
    var ps := Packets(connectionNumber, sends);
    if |ps| <= 1 then ps else BatchFrom(connectionNumber, ps, 0)
  }

  // --- The sender's loop --------------------------------------------------------------

  lemma BatchStep(connectionNumber: nat, ps: seq<Packet>, start: nat, cut: nat)
    requires connectionNumber < 4 && start < |ps| && cut == NextCut(ps, start, start)
    ensures Fits(ps[start..cut])
    ensures BatchFrom(connectionNumber, ps, start)
         == [BatchDatagram(connectionNumber, ps[start..cut])] + BatchFrom(connectionNumber, ps, cut)
  {
    hide BatchDatagram, NextCut;
    CutMaximal(ps, start, start);
    var groups := Groups(ps, start);
    assert groups[0] == ps[start..cut] && groups[1..] == Groups(ps, cut);
  }

  /** What is already sent, followed by what the rest will give, is the whole batch. */
  ghost predicate Underway(connectionNumber: nat, ps: seq<Packet>, sent: seq<seq<byte>>, start: nat)
    requires connectionNumber < 4 && start <= |ps|
  {
    sent + BatchFrom(connectionNumber, ps, start) == BatchFrom(connectionNumber, ps, 0)
  }

  /** Flushing after the collected packets, which the next one would overfill. */
  lemma FlushBatch(
      connectionNumber: nat, ps: seq<Packet>, sent: seq<seq<byte>>, start: nat, i: nat, current: seq<byte>,
      currentCount: nat)
    requires connectionNumber < 4 && start < i <= |ps|
    requires Collected(connectionNumber, ps, start, i, current, currentCount)
    requires i == |ps| || Size(ps[start..i]) + 2 + |ps[i]| > MAX_MERGED_PACKET_SIZE
    requires Underway(connectionNumber, ps, sent, start)
    ensures Underway(connectionNumber, ps, sent + [current], i)
  {
    hide BatchFrom, Wrap, Size;
    BatchStep(connectionNumber, ps, start, i);
    var group := ps[start..i];
    if |group| == 1 {
      assert group == [group[0]];
      SizeOfOne(group[0]);
    }
  }

  lemma LoneBatch(connectionNumber: nat, ps: seq<Packet>, sent: seq<seq<byte>>, i: nat)
    requires connectionNumber < 4 && i < |ps| && TooLong(ps[i])
    requires Underway(connectionNumber, ps, sent, i)
    ensures Underway(connectionNumber, ps, sent + [ps[i]], i + 1)
  {}

  lemma BatchStart(connectionNumber: nat, ps: seq<Packet>)
    requires connectionNumber < 4
    ensures Underway(connectionNumber, ps, [], 0)
  {}

  lemma BatchEnd(connectionNumber: nat, ps: seq<Packet>, sent: seq<seq<byte>>)
    requires connectionNumber < 4
    requires Underway(connectionNumber, ps, sent, |ps|)
    ensures sent == BatchFrom(connectionNumber, ps, 0)
  {}

  /** The framing loop over a batch. */
  method FrameBatch(connectionNumber: nat, sends: seq<Send>) returns (datagrams: seq<seq<byte>>)
    requires connectionNumber < 4
    ensures datagrams == BatchFrom(connectionNumber, Packets(connectionNumber, sends), 0)
  {
    hide Underway, BatchFrom, NextCut, Wrap, Frame, Size, Frameable, UnreliablePacket;
    ghost var ps := Packets(connectionNumber, sends);
    datagrams := [];
    var current := [Header(MERGED, connectionNumber)];
    var currentCount := 0;
    ghost var start := 0;
    BatchStart(connectionNumber, ps);
    EmptyCollected(connectionNumber, ps, 0);
    for i := 0 to |sends|
      invariant Collected(connectionNumber, ps, start, i, current, currentCount)
      invariant Underway(connectionNumber, ps, datagrams, start)
    {
      var packet := UnreliablePacket(connectionNumber, sends[i]);
      var framedLen := |packet| + 2;
      assert packet == ps[i];
      WrapSize(connectionNumber, ps[start..i]);
      SizePositive(ps[start..i]);
      if currentCount > 0 && |current| + framedLen > MAX_MERGED_PACKET_SIZE {
        FlushBatch(connectionNumber, ps, datagrams, start, i, current, currentCount);
        datagrams := datagrams + [current];
        current := [Header(MERGED, connectionNumber)];
        currentCount := 0;
        start := i;
        EmptyCollected(connectionNumber, ps, i);
      }
      if framedLen + 1 > MAX_MERGED_PACKET_SIZE {
        LoneBatch(connectionNumber, ps, datagrams, i);
        datagrams := datagrams + [packet];
        start := i + 1;
        EmptyCollected(connectionNumber, ps, i + 1);
        continue;
      }
      CollectStep(connectionNumber, ps, start, i, current, currentCount);
      current := current + U16Bytes(|packet|) + packet;
      currentCount := currentCount + 1;
    }
    if currentCount > 0 {
      FlushBatch(connectionNumber, ps, datagrams, start, |ps|, current, currentCount);
      datagrams := datagrams + [current];
    }
    BatchEnd(connectionNumber, ps, datagrams);
  }

  method TrySendManyUnreliable(connectionNumber: nat, sends: seq<Send>) returns (datagrams: seq<seq<byte>>)
    requires connectionNumber < 4
    ensures datagrams == BatchDatagrams(connectionNumber, sends)
  {
    hide BatchFrom;
    if |sends| == 0 { return []; }
    if |sends| == 1 {
      return [[Header(UNRELIABLE, connectionNumber), sends[0].channel] + sends[0].payload];
    }
    datagrams := FrameBatch(connectionNumber, sends);
  }

  // --- What the receiver gets ---------------------------------------------------------

  lemma PacketsPlain(connectionNumber: nat, sends: seq<Send>)
    requires connectionNumber < 4
    ensures Plain(Packets(connectionNumber, sends))
  {}

  lemma BatchDatagramReceived(connectionNumber: nat, group: seq<Packet>)
    requires connectionNumber < 4 && Fits(group) && group != [] && Plain(group)
    ensures Receive(BatchDatagram(connectionNumber, group)) == group
  {
    if |group| == 1 && TooLong(group[0]) {
      assert group == [group[0]];
    } else {
      hide SplitFrom, Frames;
      FitsWrapped(group);
      HeaderRead(MERGED, connectionNumber);
      SplitFrames([Header(MERGED, connectionNumber)], group);
    }
  }

  lemma {:induction false} BatchReceived(connectionNumber: nat, groups: seq<seq<Packet>>)
    requires connectionNumber < 4
    requires forall j :: 0 <= j < |groups| ==> Fits(groups[j]) && groups[j] != [] && Plain(groups[j])
    ensures ReceiveAll(BatchOf(connectionNumber, groups)) == Flat(groups)
  {
    if groups != [] {
      hide Receive, BatchDatagram;
      BatchDatagramReceived(connectionNumber, groups[0]);
      BatchReceived(connectionNumber, groups[1..]);
      var all := BatchOf(connectionNumber, groups);
      assert all[1..] == BatchOf(connectionNumber, groups[1..]);
    }
  }

  lemma {:induction false} MessagesOfPackets(connectionNumber: nat, sends: seq<Send>)
    requires connectionNumber < 4
    ensures MessagesIn(Packets(connectionNumber, sends)) == sends
  {
    if sends != [] {
      HeaderRead(UNRELIABLE, connectionNumber);
      var ps := Packets(connectionNumber, sends);
      assert ps[1..] == Packets(connectionNumber, sends[1..]);
      assert MessageIn(ps[0]) == Some(sends[0]) by {
        assert ps[0][2..] == sends[0].payload;
      }
      MessagesOfPackets(connectionNumber, sends[1..]);
      assert sends == [sends[0]] + sends[1..];
    }
  }

  /** The receiver of the datagrams of a batch gets its messages, all of them, in order. */
  lemma BatchRoundTrip(connectionNumber: nat, sends: seq<Send>)
    requires connectionNumber < 4
    ensures MessagesIn(ReceiveAll(BatchDatagrams(connectionNumber, sends))) == sends
  {
    hide MessagesIn, UnreliablePacket, BatchOf, Plain;
    var ps := Packets(connectionNumber, sends);
    PacketsPlain(connectionNumber, sends);
    MessagesOfPackets(connectionNumber, sends);
    if |ps| <= 1 {
      SmallReceived(ps);
    } else {
      GroupsFit(ps, 0);
      GroupsFlat(ps, 0);
      assert ps[0..] == ps;
      PartsPlain(Groups(ps, 0));
      BatchReceived(connectionNumber, Groups(ps, 0));
    }
  }

  lemma SmallReceived(ps: seq<Packet>)
    requires |ps| <= 1 && Plain(ps)
    ensures ReceiveAll(ps) == ps
  {}

  lemma {:induction false} GroupDatagramSizes(connectionNumber: nat, groups: seq<seq<Packet>>, j: nat)
    requires connectionNumber < 4
    requires forall i :: 0 <= i < |groups| ==> Fits(groups[i])
    requires j < |BatchOf(connectionNumber, groups)|
    ensures j < |groups|
    ensures var d := BatchOf(connectionNumber, groups)[j];
            |d| <= MAX_MERGED_PACKET_SIZE || (groups[j] == [d] && TooLong(d))
  {
    hide Wrap, Fits, Size, TooLong;
    if j == 0 {
      if !(|groups[0]| == 1 && TooLong(groups[0][0])) {
        FitsWrapped(groups[0]);
        WrapSize(connectionNumber, groups[0]);
      }
    } else {
      GroupDatagramSizes(connectionNumber, groups[1..], j - 1);
    }
  }

  /** No datagram of a batch is longer than 1200 bytes, except a message that would not fit into
      a frame, which goes bare; a message that goes alone in its batch goes bare too. */
  lemma BatchSizes(connectionNumber: nat, sends: seq<Send>, d: seq<byte>)
    requires connectionNumber < 4 && d in BatchDatagrams(connectionNumber, sends)
    ensures |d| <= MAX_MERGED_PACKET_SIZE
            || (exists i :: 0 <= i < |sends| && d == UnreliablePacket(connectionNumber, sends[i]) && TooLong(d))
  {
    hide Fits, Groups, BatchDatagram, UnreliablePacket;
    var ps := Packets(connectionNumber, sends);
    if |ps| <= 1 {
      var i :| 0 <= i < |ps| && ps[i] == d;
      assert d == UnreliablePacket(connectionNumber, sends[i]);
    } else {
      var groups := Groups(ps, 0);
      GroupsFit(ps, 0);
      var j :| 0 <= j < |BatchOf(connectionNumber, groups)| && BatchOf(connectionNumber, groups)[j] == d;
      GroupDatagramSizes(connectionNumber, groups, j);
      if TooLong(d) && groups[j] == [d] {
        assert d in groups[j];
        GroupsFlat(ps, 0);
        InFlat(groups, j, d);
        assert ps[0..] == ps;
        var i :| 0 <= i < |ps| && ps[i] == d;
        assert d == UnreliablePacket(connectionNumber, sends[i]);
      }
    }
  }

  // --- Bundling and merging together --------------------------------------------------

  /** What a receiver has after splitting the datagrams and unpacking the bundles. */
  function AvatarMessages(datagrams: seq<seq<byte>>, decompress: Decompressor): Option<seq<Send>> {
    BundleEmission.Unbundled(MessagesIn(ReceiveAll(datagrams)), decompress)
  }

  /** With or without bundle compression a receiver ends up with the same messages in the same
      order, for every compressor with an inverse and every choice of the ratios. */
  lemma BundlingTransparent(
      connectionNumber: nat, bundle: seq<BundleSend>, plan: BundleEmission.Plan, decompress: Decompressor)
    requires connectionNumber < 4 && Inverts(plan.compress, decompress)
    requires BundleEmission.NoBundles(PatchedAll(bundle))
    ensures var bundled := BatchDatagrams(connectionNumber, BundleEmission.Emission(bundle, 0, plan));
            var plain := BatchDatagrams(connectionNumber, PatchedAll(bundle));
            AvatarMessages(bundled, decompress) == AvatarMessages(plain, decompress) == Some(PatchedAll(bundle))
  {
    hide BatchDatagrams, MessagesIn, BundleEmission.Unbundled, BundleEmission.Emission;
    BatchRoundTrip(connectionNumber, BundleEmission.Emission(bundle, 0, plan));
    BatchRoundTrip(connectionNumber, PatchedAll(bundle));
    BundleEmission.EmissionTransparent(bundle, 0, plan, decompress);
    BundleEmission.UnbundledPlain(PatchedAll(bundle), decompress);
    assert bundle[0..] == bundle;
  }
}
