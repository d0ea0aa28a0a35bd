/** What becomes of sent packets, step by step and over runs of the send window: which ack, which
    eviction takes a packet out of the buffer. */
module SendFates {
  import opened Bits
  import opened AckWindow
  import opened AckPackets
  import opened SendWindow

  // --- One ack ------------------------------------------------------------------------

  /** An ack on a channel takes the packets of that channel it covers, and leaves all others as they are. */
  lemma AckTakesExactly(s: Sender, c: byte, ack: AckView, key: Key)
    requires Inv(s) && key in s.pending
    ensures var after := Apply(s, AckStep(c, ack));
            && (key !in after.pending <==> key.channelId == c && Covers(ack, key.sequence))
            && (key in after.pending ==> after.pending[key] == s.pending[key])
            && after.pending.Keys <= s.pending.Keys
  {
    hide Covers, Indices;
  }

  /** The client's ack for one arrival takes that packet and no other. */
  lemma ClientAckTakesOne(s: Sender, c: byte, sequence: AckWindow.Wire)
    requires Inv(s)
    ensures Apply(s, AckStep(c, AckWindow.QueueAck(NewAck(sequence), sequence))).pending
        == s.pending - {Key(c, sequence)}
  {
    hide Inv, Apply, Enabled, AckWindow.QueueAck, Covers;
    var ack := AckWindow.QueueAck(NewAck(sequence), sequence);
    AckEnabled(s, c, ack);
    var after := Apply(s, AckStep(c, ack)).pending;
    NothingAdded(s, c, ack);
    forall key | key in s.pending
      ensures key in after <==> key != Key(c, sequence)
      ensures key in after ==> after[key] == s.pending[key]
    {
      AckTakesExactly(s, c, ack, key);
      OneBitAckSettlesOne(sequence, key.sequence);
    }
  }

  lemma AckEnabled(s: Sender, c: byte, ack: AckView)
    requires Inv(s)
    ensures Enabled(s, AckStep(c, ack))
  {}

  lemma NothingAdded(s: Sender, c: byte, ack: AckView)
    requires Inv(s)
    ensures Apply(s, AckStep(c, ack)).pending.Keys <= s.pending.Keys
  {
    hide Covers, Indices;
  }

  /** A resend restarts the clock of the packets not sent for 150 ms, and changes nothing else. */
  lemma ResendRestartsExactly(s: Sender, now: int, key: Key)
    requires Inv(s) && key in s.pending
    ensures var after := Apply(s, ResendStep(now));
            && after == s.(pending := after.pending) && after.pending.Keys == s.pending.Keys
            && after.pending[key].bytes == s.pending[key].bytes
            && after.pending[key].lastSent
               == if now - s.pending[key].lastSent >= 150 then now else s.pending[key].lastSent
  {
    hide Inv;
  }

  // --- Over runs ----------------------------------------------------------------------

  /** The step is an ack on the channel that covers the `k`-th packet, which is buffered. */
  predicate AcksIt(s: Sender, step: Step, c: byte, k: nat) {
    step.AckStep? && step.channelId == c && Covers(step.ack, ToWire(k)) && Buffered(s, c, k)
  }

  /** The step evicts the `k`-th packet. */
  predicate EvictsIt(s: Sender, step: Step, c: byte, k: nat) {
    step == EvictStep(Key(c, ToWire(k))) && Buffered(s, c, k)
  }

  /** The step sends a packet under the key of the `k`-th. */
  predicate OverwritesIt(s: Sender, step: Step, c: byte, k: nat) {
    step.RecordStep? && s.taken != [] && s.taken[0].0 == c && NextOf(s, c) == ToWire(k) && Buffered(s, c, k)
  }

  lemma StepMarksExactly(s: Sender, step: Step, c: byte, k: nat)
    requires Inv(s) && Enabled(s, step)
    ensures (c, k) in Apply(s, step).acked <==> (c, k) in s.acked || AcksIt(s, step, c, k)
    ensures (c, k) in Apply(s, step).evicted <==> (c, k) in s.evicted || EvictsIt(s, step, c, k)
    ensures (c, k) in Apply(s, step).overwritten <==> (c, k) in s.overwritten || OverwritesIt(s, step, c, k)
  {
    hide Covers, ChannelPacket, ToWire, FatesInv, QueuesInv, CountersInv, BoundsInv;
    match step
    case AckStep(ch, ack) => IndicesAre(s, SettledKeys(s, ch, ack), c, k);
    case EvictStep(key) =>
      if s.index[key] == k { assert EntryOk(s, key); }
    case RecordStep(_) =>
      var key := Key(s.taken[0].0, NextOf(s, s.taken[0].0));
      if key in s.index && s.index[key] == k { assert EntryOk(s, key); }
    case _ =>
  }

  ghost predicate AckedBefore(states: seq<Sender>, steps: seq<Step>, n: nat, c: byte, k: nat)
    requires n <= |steps| < |states|
  {
    exists i :: 0 <= i < n && AcksIt(states[i], steps[i], c, k)
  }

  ghost predicate EvictedBefore(states: seq<Sender>, steps: seq<Step>, n: nat, c: byte, k: nat)
    requires n <= |steps| < |states|
  {
    exists i :: 0 <= i < n && EvictsIt(states[i], steps[i], c, k)
  }

  lemma {:induction false} MarkedExactly(states: seq<Sender>, steps: seq<Step>, n: nat, c: byte, k: nat)
    requires Run(states, steps) && Inv(states[0]) && n < |states|
    requires (c, k) !in states[0].acked + states[0].evicted
    ensures (c, k) in states[n].acked <==> AckedBefore(states, steps, n, c, k)
    ensures (c, k) in states[n].evicted <==> EvictedBefore(states, steps, n, c, k)
  {
    hide Inv, Apply, Enabled, AcksIt, EvictsIt, OverwritesIt;
    if n > 0 {
      MarkedExactly(states, steps, n - 1, c, k);
      RunKeeps(states, steps, n - 1);
      assert states[n] == Apply(states[n - 1], steps[n - 1]);
      StepMarksExactly(states[n - 1], steps[n - 1], c, k);
    }
  }

  /** In every run a sent packet is still buffered, byte for byte, unless an ack on its own channel
      covered it, it was evicted, or 32768 more packets went out on its channel. */
  lemma LeavesOnlyWhen(states: seq<Sender>, steps: seq<Step>, n: nat, c: byte, k: nat)
    requires Run(states, steps) && Inv(states[0]) && n < |states|
    requires states[0].acked == {} && states[0].evicted == {}
    requires k < |Log(states[n].sent, c)| <= k + MAX_SEQUENCE
    requires !AckedBefore(states, steps, n, c, k) && !EvictedBefore(states, steps, n, c, k)
    ensures var s := states[n];
            && s.connectionNumber < 4 && k < |Log(s.enqueued, c)|
            && Key(c, ToWire(k)) in s.pending
            && s.pending[Key(c, ToWire(k))].bytes
                == ChannelPacket(s.connectionNumber, ToWire(k), c, Log(s.enqueued, c)[k])
  {
    hide Inv, Run, ToWire, ChannelPacket, AckedBefore, EvictedBefore, Log;
    RunKeeps(states, steps, n);
    MarkedExactly(states, steps, n, c, k);
    BufferedUntilSettled(states[n], c, k);
  }

  /** And the other way round: a packet acked or evicted is gone for good from under its key, until
      the key is used again. */
  lemma AckedIsGone(states: seq<Sender>, steps: seq<Step>, n: nat, c: byte, k: nat)
    requires Run(states, steps) && Inv(states[0]) && n < |states|
    requires states[0].acked == {} && states[0].evicted == {}
    requires k < |Log(states[n].sent, c)| <= k + MAX_SEQUENCE
    requires AckedBefore(states, steps, n, c, k) || EvictedBefore(states, steps, n, c, k)
    ensures Key(c, ToWire(k)) !in states[n].pending
  {
    hide Run, ChannelPacket, AckedBefore, EvictedBefore, QueuesInv, CountersInv, BoundsInv, ToWire;
    var s := states[n];
    RunKeeps(states, steps, n);
    MarkedExactly(states, steps, n, c, k);
    assert FateOk(s, c, k);
    var key := Key(c, ToWire(k));
    if key in s.pending {
      assert EntryOk(s, key);
      var q := s.index[key];
      if q < k {
        WrapMeets(q, k);
      } else if k < q {
        WrapMeets(k, q);
      }
    }
  }
}
