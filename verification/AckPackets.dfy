/** Ack packets as bytes: the server's per-channel ack bitmaps, the client's one-bit acks, and
    the buffer of reliable packets a client keeps until they are acknowledged. */
module AckPackets {
  import opened Bits
  import opened Wire
  import opened AckWindow

  /** `(DEFAULT_WINDOW_SIZE - 1) / 8 + 2` bytes of ring slots. */
  const ACK_BYTES: nat := 17

  datatype AckState = AckState(windowStart: AckWindow.Wire, bits: seq<byte>)

  /** Slot `r` of a bitmap of any length; missing bytes count as clear. */
  predicate SlotSet(bits: seq<byte>, r: nat) {
    r / 8 < |bits| && BitAt(bits[r / 8], r % 8)
  }

  function SlotsOf(bits: seq<byte>): set<nat> {
    set r: nat | r < 128 && SlotSet(bits, r)
  }

  function View(ack: AckState): AckView { AckView(ack.windowStart, SlotsOf(ack.bits)) }

  function BuildAckPacket(connectionNumber: nat, channelId: byte, ack: AckState): seq<byte>
    requires connectionNumber < 4
  {
    [Header(ACK, connectionNumber)] + U16Bytes(ack.windowStart) + [channelId] + ack.bits
  }

  datatype ParsedAck = NoAck | ForChannel(channelId: byte, windowStart: nat, bits: seq<byte>)

  function ParseAck(bytes: seq<byte>): ParsedAck {
    if |bytes| < 4 then NoAck else ForChannel(bytes[3], U16At(bytes, 1), bytes[4..])
  }

  /** A receiver of an ack packet reads the window and slots the sender had. */
  lemma AckPacketRoundTrip(connectionNumber: nat, channelId: byte, ack: AckState)
    requires connectionNumber < 4
    ensures ParseAck(BuildAckPacket(connectionNumber, channelId, ack))
            == ForChannel(channelId, ack.windowStart, ack.bits)
  {}

  /** `*byte |= 1 << b` */
  function WithBit(x: byte, b: nat): (y: byte)
    requires b < 8
  {
    Pow2Grows(b, 7);
    assert Pow2(7) == 128;
    ByteOr(x, Pow2(b));
    Or(x, Pow2(b))
  }

  /** `*byte &= !(1 << b)` */
  function WithoutBit(x: byte, b: nat): (y: byte)
    requires b < 8
  {
    Pow2Grows(b, 7);
    assert Pow2(7) == 128;
    ByteAnd(x, 255 - Pow2(b));
    And(x, 255 - Pow2(b))
  }

  lemma ByteAnd(x: byte, y: nat)
    ensures And(x, y) < 256
  {
    assert Pow2(8) == 256;
    BelowPow2(x, 8);
    forall i: nat | i >= 8 ensures !BitAt(And(x, y), i) { AndBits(x, y, i); }
    BelowPow2(And(x, y), 8);
  }

  lemma {:induction false} PowerBits(b: nat, i: nat)
    ensures BitAt(Pow2(b), i) == (i == b)
  {
    if b == 0 {
      if i > 0 { ZeroBits(i - 1); }
    } else if i > 0 {
      assert Pow2(b) / 2 == Pow2(b - 1);
      PowerBits(b - 1, i - 1);
    }
  }

  lemma ComplementBits(x: byte, i: nat)
    requires i < 8
    ensures BitAt(255 - x, i) == !BitAt(x, i)
  {
    Complement(x, 8, i);
  }

  lemma {:induction false} Complement(x: nat, n: nat, i: nat)
    requires x < Pow2(n) && i < n
    ensures BitAt(Pow2(n) - 1 - x, i) == !BitAt(x, i)
  {
    HalfComplement(x, Pow2(n - 1));
    if i > 0 { Complement(x / 2, n - 1, i - 1); }
  }

  lemma HalfComplement(x: nat, p: nat)
    requires x < 2 * p
    ensures x / 2 < p && (2 * p - 1 - x) / 2 == p - 1 - x / 2
    ensures (2 * p - 1 - x) % 2 != x % 2
  {}

  lemma WithBitDigits(x: byte, b: nat, i: nat)
    requires b < 8 && i < 8
    ensures BitAt(WithBit(x, b), i) == (i == b || BitAt(x, i))
    ensures BitAt(WithoutBit(x, b), i) == (i != b && BitAt(x, i))
  {
    Pow2Grows(b, 7);
    assert Pow2(7) == 128 && Pow2(8) == 256;
    OrBits(x, Pow2(b), i);
    AndBits(x, 255 - Pow2(b), i);
    PowerBits(b, i);
    ComplementBits(Pow2(b), i);
  }

  function SetSlot(bits: seq<byte>, r: nat): (after: seq<byte>)
    requires r / 8 < |bits|
    ensures |after| == |bits|
  {
    bits[r / 8 := WithBit(bits[r / 8], r % 8)]
  }

  function ClearSlot(bits: seq<byte>, r: nat): (after: seq<byte>)
    requires r / 8 < |bits|
    ensures |after| == |bits|
  {
    bits[r / 8 := WithoutBit(bits[r / 8], r % 8)]
  }

  lemma SetSlotSlots(bits: seq<byte>, r: nat)
    requires |bits| == ACK_BYTES && r < 128
    ensures SlotsOf(SetSlot(bits, r)) == SlotsOf(bits) + {r}
    ensures SlotsOf(ClearSlot(bits, r)) == SlotsOf(bits) - {r}
  {
    hide WithBit, WithoutBit;
    forall q: nat | q < 128
      ensures SlotSet(SetSlot(bits, r), q) == (q == r || SlotSet(bits, q))
      ensures SlotSet(ClearSlot(bits, r), q) == (q != r && SlotSet(bits, q))
    {
      WithBitDigits(bits[r / 8], r % 8, q % 8);
      if q / 8 == r / 8 && q % 8 == r % 8 { assert q == r; }
    }
  }

  lemma NoSlots(bits: seq<byte>)
    requires forall j :: 0 <= j < |bits| ==> bits[j] == 0
    ensures SlotsOf(bits) == {}
  {
    forall r: nat | r < 128 && r / 8 < |bits| ensures !SlotSet(bits, r) { ZeroBits(r % 8); }
  }

  /** Clearing one more number extends the cleared run of slots by one. */
  lemma SlideStep(start: AckWindow.Wire, shift: nat)
    ensures SlidOut(start, shift + 1) == SlidOut(start, shift) + {(start + shift) % 128}
  {
    forall r: nat | r < 128
      ensures Slides(start, shift + 1, r) <==> Slides(start, shift, r) || r == (start + shift) % 128
    {
      if shift < 128 {
        if (r - start) % 128 == shift {
          assert r == (start + shift) % 128 by { Shifted(r, start, shift); }
        } else if r == (start + shift) % 128 {
          Shifted(r, start, shift);
        }
      }
    }
  }

  lemma Shifted(r: nat, start: nat, shift: nat)
    requires r < 128 && shift < 128
    ensures (r - start) % 128 == shift <==> r == (start + shift) % 128
  {
    var n := (start + shift) / 128;
    assert start + shift == 128 * n + (start + shift) % 128;
    if r == (start + shift) % 128 {
      assert r - start == shift - 128 * n;
    }
    if (r - start) % 128 == shift {
      var m := (r - start) / 128;
      assert r - start == 128 * m + shift;
      assert start + shift == r + 128 * (-m);
    }
  }

  /** The server's side of a connection: one bitmap per channel with unsent acks. */
  class PeerAcks {
    var outgoingAcks: map<byte, AckState>

    predicate Valid()
      reads this
    {
      forall c :: c in outgoingAcks ==> |outgoingAcks[c].bits| == ACK_BYTES
    }

    constructor ()
      ensures Valid() && outgoingAcks == map[]
    {
      outgoingAcks := map[];
    }

    method QueueAck(channelId: byte, sequence: AckWindow.Wire)
      requires Valid()
      modifies this
      ensures Valid()
      ensures outgoingAcks.Keys == old(outgoingAcks).Keys + {channelId}
      ensures forall c :: c in old(outgoingAcks) && c != channelId ==> outgoingAcks[c] == old(outgoingAcks)[c]
      ensures View(outgoingAcks[channelId]) ==
              AckWindow.QueueAck(if channelId in old(outgoingAcks) then View(old(outgoingAcks)[channelId])
                                 else NewAck(sequence), sequence)
    {
      hide SetSlot, ClearSlot, SlotsOf, SlidOut;
      var zeros := seq(ACK_BYTES, _ => 0);
      NoSlots(zeros);
      var ack := if channelId in outgoingAcks then outgoingAcks[channelId] else AckState(sequence, zeros);
      var rel := RelativeSequence(sequence, ack.windowStart);
      if rel < 0 {
        outgoingAcks := outgoingAcks[channelId := ack];
        return;
      }
      var bits := ack.bits;
      var start := ack.windowStart;
      if rel >= DEFAULT_WINDOW_SIZE {
        var shift := rel - DEFAULT_WINDOW_SIZE + 1;
        bits := ClearRun(bits, start, shift);
        start := (start + shift) % MAX_SEQUENCE;
      }
      SetSlotSlots(bits, sequence % 128);
      bits := SetSlot(bits, sequence % 128);
      outgoingAcks := outgoingAcks[channelId := AckState(start, bits)];
    }

    /** Takes all acks, in any channel order, as packets. */
    method DrainAcks(connectionNumber: nat) returns (packets: seq<seq<byte>>, channels: seq<byte>)
      requires Valid() && connectionNumber < 4
      modifies this
      ensures outgoingAcks == map[]
      ensures |channels| == |packets|
      ensures forall c :: c in old(outgoingAcks) <==> c in channels
      ensures forall i, j :: 0 <= i < j < |channels| ==> channels[i] != channels[j]
      ensures forall i :: 0 <= i < |channels| ==>
                channels[i] in old(outgoingAcks)
                && ParseAck(packets[i]) ==
                   var ack := old(outgoingAcks)[channels[i]]; ForChannel(channels[i], ack.windowStart, ack.bits)
    {
      packets, channels := [], [];
      var rest := outgoingAcks.Keys;
      while rest != {}
        invariant outgoingAcks == old(outgoingAcks)
        invariant |channels| == |packets|
        invariant rest <= outgoingAcks.Keys
        invariant forall c :: c in channels <==> c in outgoingAcks.Keys - rest
        invariant forall i, j :: 0 <= i < j < |channels| ==> channels[i] != channels[j]
        invariant forall i :: 0 <= i < |channels| ==>
                    channels[i] in outgoingAcks
                    && ParseAck(packets[i]) ==
                       var ack := outgoingAcks[channels[i]]; ForChannel(channels[i], ack.windowStart, ack.bits)
        decreases rest
      {
        var c :| c in rest;
        assert c !in channels;
        AckPacketRoundTrip(connectionNumber, c, outgoingAcks[c]);
        packets := packets + [BuildAckPacket(connectionNumber, c, outgoingAcks[c])];
        channels := channels + [c];
        rest := rest - {c};
      }
      outgoingAcks := map[];
    }
  }

  /** The loop that clears the slots of the numbers the window leaves behind. */
  method ClearRun(bits: seq<byte>, start: AckWindow.Wire, shift: nat) returns (cleared: seq<byte>)
    requires |bits| == ACK_BYTES && shift <= 16384
    ensures |cleared| == ACK_BYTES
    ensures SlotsOf(cleared) == SlotsOf(bits) - SlidOut(start, shift)
  {
    hide ClearSlot, SlotsOf, SlidOut;
    cleared := bits;
    assert SlidOut(start, 0) == {} by { NothingSlides(start); }
    for done := 0 to shift
      invariant |cleared| == ACK_BYTES
      invariant SlotsOf(cleared) == SlotsOf(bits) - SlidOut(start, done)
    {
      var oldSeq := start + done;
      SetSlotSlots(cleared, oldSeq % 128);
      SlideStep(start, done);
      cleared := ClearSlot(cleared, oldSeq % 128);
    }
  }

  lemma NothingSlides(start: AckWindow.Wire)
    ensures SlidOut(start, 0) == {}
  {}

  /** A channeled packet: header, sequence, channel id, payload. */
  function ChannelPacket(
      connectionNumber: nat, sequence: AckWindow.Wire, channelId: byte, payload: seq<byte>): seq<byte>
    requires connectionNumber < 4
  {
    [Header(CHANNELED, connectionNumber)] + U16Bytes(sequence) + [channelId] + payload
  }

  /** How a packet is delivered, as the low two bits of its channel id say. */
  datatype Delivery = ReliableUnordered | Sequenced | ReliableOrdered | ReliableSequenced | Unreliable

  datatype Message = NoMessage | Message(channel: byte, delivery: Delivery, payload: seq<byte>)

  /** The message in an unreliable or a channeled packet. */
  function ParseMessage(bytes: seq<byte>): Message {
    if bytes == [] then NoMessage
    else if PropertyOf(bytes[0]) == UNRELIABLE then
      if |bytes| < 2 then NoMessage else Message(bytes[1], Unreliable, bytes[2..])
    else if PropertyOf(bytes[0]) == CHANNELED then
      if |bytes| < 4 then NoMessage else Message(bytes[3] / 4, DeliveryOf(bytes[3]), bytes[4..])
    else NoMessage
  }

  function DeliveryOf(channelId: byte): Delivery {
    if channelId % 4 == 0 then ReliableUnordered
    else if channelId % 4 == 1 then Sequenced
    else if channelId % 4 == 2 then ReliableOrdered
    else ReliableSequenced
  }

  /** A receiver of a reliable ordered packet finds the sequence and the message it was made from. */
  lemma ChannelPacketRead(connectionNumber: nat, sequence: AckWindow.Wire, channel: byte, payload: seq<byte>)
    requires connectionNumber < 4 && channel < 64
    ensures var packet := ChannelPacket(connectionNumber, sequence, 4 * channel + 2, payload);
            && ParseMessage(packet) == Message(channel, ReliableOrdered, payload)
            && U16At(packet, 1) == sequence && packet[3] == 4 * channel + 2
            && ConnectionOf(packet[0]) == connectionNumber
  {
    HeaderRead(CHANNELED, connectionNumber);
  }

  /** The client's ack for one arrival: a window that starts at the arrival and holds its bit. */
  method SendAck(connectionNumber: nat, channelId: byte, sequence: AckWindow.Wire) returns (packet: seq<byte>)
    requires connectionNumber < 4
    ensures exists bits :: ParseAck(packet) == ForChannel(channelId, sequence, bits)
              && AckView(sequence, SlotsOf(bits)) == AckWindow.QueueAck(NewAck(sequence), sequence)
  {
    var bits := seq(ACK_BYTES, _ => 0);
    NoSlots(bits);
    SetSlotSlots(bits, sequence % 128);
    bits := SetSlot(bits, sequence % 128);
    AckPacketRoundTrip(connectionNumber, channelId, AckState(sequence, bits));
    packet := BuildAckPacket(connectionNumber, channelId, AckState(sequence, bits));
  }

  /** A one-bit ack settles its own sequence number and no other. */
  lemma OneBitAckSettlesOne(sequence: AckWindow.Wire, w: AckWindow.Wire)
    ensures Covers(AckWindow.QueueAck(NewAck(sequence), sequence), w) <==> w == sequence
  {}

  datatype ReliableSend = ReliableSend(channelId: byte, sequence: AckWindow.Wire, bytes: seq<byte>)

  predicate SettledBy(item: ReliableSend, channelId: byte, ack: AckView) {
    item.channelId == channelId && Covers(ack, item.sequence)
  }

  /** The packets an ack leaves in the buffer, in order. */
  function Unsettled(items: seq<ReliableSend>, channelId: byte, ack: AckView): seq<ReliableSend> {
    if items == [] then []
    else (if SettledBy(items[0], channelId, ack) then [] else [items[0]]) + Unsettled(items[1..], channelId, ack)
  }

  lemma {:induction false} UnsettledExact(items: seq<ReliableSend>, channelId: byte, ack: AckView, item: ReliableSend)
    ensures item in Unsettled(items, channelId, ack)
       <==> item in items && !(item.channelId == channelId && Covers(ack, item.sequence))
  {
    if items != [] { UnsettledExact(items[1..], channelId, ack, item); }
  }

  lemma {:induction false} UnsettledAppend(items: seq<ReliableSend>, item: ReliableSend, channelId: byte, ack: AckView)
    ensures Unsettled(items + [item], channelId, ack)
            == Unsettled(items, channelId, ack) + (if SettledBy(item, channelId, ack) then [] else [item])
  {
    if items != [] {
      assert (items + [item])[1..] == items[1..] + [item];
      UnsettledAppend(items[1..], item, channelId, ack);
    }
  }

  /** What becomes of one reliable send: the packet is the one given to the socket. */
  datatype SendOutcome = NotConnected | SocketFailed(packet: seq<byte>) | Sent(packet: seq<byte>)

  /** The client's half of a reliable channel. */
  class ReliableClient {
    const connectionNumber: nat
    var reliableSequence: nat  // sixteen bits, shared by all channels
    var pendingReliable: seq<ReliableSend>
    ghost var numbered: nat  // packets made so far

    ghost predicate Valid()
      reads this
    {
      && connectionNumber < 4
      && reliableSequence == numbered % 65536
    }

    constructor (connectionNumber: nat)
      requires connectionNumber < 4
      ensures Valid() && this.connectionNumber == connectionNumber && pendingReliable == [] && numbered == 0
    {
      this.connectionNumber := connectionNumber;
      reliableSequence, pendingReliable, numbered := 0, [], 0;
    }

    /** Off a connection nothing happens. Otherwise the `k`-th packet made carries sequence `k` modulo
        32768, through every wrap of the 16-bit counter, and waits for its ack if the socket took
        it. When the socket does not, the number is used up all the same. */
    method SendReliableOrdered(connected: bool, socketTakes: bool, channel: byte, payload: seq<byte>)
      returns (outcome: SendOutcome)
      requires Valid() && channel < 64
      modifies this
      ensures Valid()
      ensures !connected ==>
                outcome == NotConnected && numbered == old(numbered) && pendingReliable == old(pendingReliable)
      ensures connected ==>
                var packet := ChannelPacket(connectionNumber, ToWire(old(numbered)), 4 * channel + 2, payload);
                && numbered == old(numbered) + 1
                && outcome == (if socketTakes then Sent(packet) else SocketFailed(packet))
                && pendingReliable == old(pendingReliable)
                     + if socketTakes then [ReliableSend(4 * channel + 2, ToWire(old(numbered)), packet)] else []
    {
      if !connected { return NotConnected; }
      var sequence := reliableSequence % MAX_SEQUENCE;
      WrapsAgree(numbered);
      reliableSequence := (reliableSequence + 1) % 65536;
      numbered := numbered + 1;
      var packet := ChannelPacket(connectionNumber, sequence, 4 * channel + 2, payload);
      if !socketTakes { return SocketFailed(packet); }
      pendingReliable := pendingReliable + [ReliableSend(4 * channel + 2, sequence, packet)];
      outcome := Sent(packet);
    }

    method ProcessAck(channelId: byte, ackWindowStart: AckWindow.Wire, ackBits: seq<byte>)
      requires Valid()
      modifies this
      ensures Valid() && numbered == old(numbered)
      ensures pendingReliable ==
              Unsettled(old(pendingReliable), channelId, AckView(ackWindowStart, SlotsOf(ackBits)))
    {
      ghost var ack := AckView(ackWindowStart, SlotsOf(ackBits));
      var kept: seq<ReliableSend> := [];
      for i := 0 to |pendingReliable|
        invariant pendingReliable == old(pendingReliable) && Valid() && numbered == old(numbered)
        invariant kept == Unsettled(pendingReliable[..i], channelId, ack)
      {
        var item := pendingReliable[i];
        var keep := true;
        if item.channelId == channelId {
          var rel := RelativeSequence(item.sequence, ackWindowStart);
          if 0 <= rel < DEFAULT_WINDOW_SIZE {
            keep := !SlotSet(ackBits, item.sequence % DEFAULT_WINDOW_SIZE);
          }
        }
        UnsettledAppend(pendingReliable[..i], item, channelId, ack);
        assert pendingReliable[..i + 1] == pendingReliable[..i] + [item];
        kept := if keep then kept + [item] else kept;
      }
      assert pendingReliable[..|pendingReliable|] == pendingReliable;
      pendingReliable := kept;
    }
  }

  lemma WrapsAgree(n: nat)
    ensures (n % 65536) % MAX_SEQUENCE == ToWire(n)
    ensures (n % 65536 + 1) % 65536 == (n + 1) % 65536
  {
    var q, r := n / 65536, n % 65536;
    var a, b := r / MAX_SEQUENCE, r % MAX_SEQUENCE;
    SequenceRemainder(n, 2 * q + a, b);
    if r == 65535 {
      CounterRemainder(n + 1, q + 1, 0);
    } else {
      CounterRemainder(n + 1, q, r + 1);
    }
  }

  lemma CounterRemainder(x: nat, q: nat, r: nat)
    requires x == 65536 * q + r && r < 65536
    ensures x % 65536 == r
  {}

  lemma SequenceRemainder(x: nat, q: nat, r: nat)
    requires x == MAX_SEQUENCE * q + r && r < MAX_SEQUENCE
    ensures x % MAX_SEQUENCE == r
  {}

}
