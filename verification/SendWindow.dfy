/** The server's reliable send window: per-channel queues, the resend buffer with its eviction,
    and the steps of the 15 ms resend loop, in any interleaving with enqueues and acks. */
module SendWindow {
  import opened Bits
  import opened AckWindow
  import opened AckPackets

  const MAX_PENDING_RELIABLE_PER_PEER: int := 4096
  const RESEND_AFTER: int := 150

  type Payload = seq<byte>
  datatype Key = Key(channelId: byte, sequence: AckWindow.Wire)
  datatype PendingReliable = PendingReliable(bytes: seq<byte>, lastSent: int)

  function Log(m: map<byte, seq<Payload>>, c: byte): seq<Payload> {
    if c in m then m[c] else []
  }

  /** The payloads of one channel among those taken from the queues but not yet sent. */
  function TakenOn(taken: seq<(byte, Payload)>, c: byte): seq<Payload> {
    if taken == [] then []
    else (if taken[0].0 == c then [taken[0].1] else []) + TakenOn(taken[1..], c)
  }

  lemma {:induction false} TakenAppend(taken: seq<(byte, Payload)>, item: (byte, Payload), c: byte)
    ensures TakenOn(taken + [item], c) == TakenOn(taken, c) + (if item.0 == c then [item.1] else [])
  {
    if taken != [] {
      assert (taken + [item])[1..] == taken[1..] + [item];
      TakenAppend(taken[1..], item, c);
    }
  }

  function KeysOn(keys: set<Key>, c: byte): set<Key> {
    set key | key in keys && key.channelId == c
  }

  /** Everything one connection's sender holds, with the history the proofs speak about:
      what was enqueued and sent per channel, the send index behind each buffered packet, and
      the packets that left the buffer. */
  datatype Sender = Sender(
    connectionNumber: nat,
    next: map<byte, AckWindow.Wire>,
    pending: map<Key, PendingReliable>,
    outgoing: map<byte, seq<Payload>>,
    taken: seq<(byte, Payload)>,
    enqueued: map<byte, seq<Payload>>,
    sent: map<byte, seq<Payload>>,
    index: map<Key, nat>,
    acked: set<(byte, nat)>,
    evicted: set<(byte, nat)>,
    overwritten: set<(byte, nat)>)

  function NextOf(s: Sender, c: byte): AckWindow.Wire {
    if c in s.next then s.next[c] else 0
  }

  /** Nothing is lost or reordered between enqueueing and sending. */
  ghost predicate QueuesInv(s: Sender) {
    forall c: byte :: Log(s.sent, c) + TakenOn(s.taken, c) + Log(s.outgoing, c) == Log(s.enqueued, c)
  }

  /** The next sequence of a channel is the count of its sends. */
  ghost predicate CountersInv(s: Sender) {
    forall c: byte :: NextOf(s, c) == ToWire(|Log(s.sent, c)|)
  }

  predicate ChannelBound(keys: set<Key>, taken: seq<(byte, Payload)>, c: byte) {
    |KeysOn(keys, c)| + |TakenOn(taken, c)| <= DEFAULT_WINDOW_SIZE
  }

  /** At most 4096 packets are buffered, and at most 128 per channel together with those about
      to be sent. */
  ghost predicate BoundsInv(s: Sender) {
    && |s.pending.Keys| <= MAX_PENDING_RELIABLE_PER_PEER
    && forall c: byte :: ChannelBound(s.pending.Keys, s.taken, c)
  }

  /** A buffered packet is the latest send of its channel with its sequence, byte for byte. */
  ghost predicate EntryOk(s: Sender, key: Key)
    requires key in s.pending && key in s.index
  {
    var log, k := Log(s.sent, key.channelId), s.index[key];
    && k < |log| && |log| <= k + MAX_SEQUENCE
    && ToWire(k) == key.sequence
    && s.connectionNumber < 4
    && s.pending[key].bytes == ChannelPacket(s.connectionNumber, key.sequence, key.channelId, log[k])
  }

  ghost predicate EntriesInv(s: Sender) {
    && s.index.Keys == s.pending.Keys
    && forall key :: key in s.pending ==> EntryOk(s, key)
  }

  predicate Buffered(s: Sender, c: byte, k: nat) {
    var key := Key(c, ToWire(k));
    key in s.index && s.index[key] == k
  }

  /** Every packet ever sent is buffered, or acknowledged, or evicted, or overwritten by the
      packet 32768 sends later: exactly one of these. */
  ghost predicate FateOk(s: Sender, c: byte, k: nat) {
    && (Buffered(s, c, k) || (c, k) in s.acked || (c, k) in s.evicted || (c, k) in s.overwritten)
    && (Buffered(s, c, k) ==> (c, k) !in s.acked + s.evicted + s.overwritten)
    && ((c, k) in s.acked ==> (c, k) !in s.evicted + s.overwritten)
    && ((c, k) in s.evicted ==> (c, k) !in s.overwritten)
    && ((c, k) in s.overwritten ==> k + MAX_SEQUENCE < |Log(s.sent, c)|)
  }

  ghost predicate FatesInv(s: Sender) {
    && (forall c: byte, k: nat :: k < |Log(s.sent, c)| ==> FateOk(s, c, k))
    && (forall x :: x in s.acked + s.evicted + s.overwritten ==> x.1 < |Log(s.sent, x.0)|)
  }

  ghost predicate Inv(s: Sender) {
    && s.connectionNumber < 4
    && QueuesInv(s) && CountersInv(s) && BoundsInv(s) && EntriesInv(s) && FatesInv(s)
  }

  // --- Steps --------------------------------------------------------------------------

  function Enqueue(s: Sender, c: byte, payload: Payload): Sender {
    s.(outgoing := s.outgoing[c := Log(s.outgoing, c) + [payload]],
       enqueued := s.enqueued[c := Log(s.enqueued, c) + [payload]])
  }

  /** Entries stay right when some are dropped and nothing they speak of changes. */
  lemma EntriesFrame(s: Sender, t: Sender)
    requires EntriesInv(s)
    requires t.connectionNumber == s.connectionNumber && t.sent == s.sent
    requires t.index.Keys == t.pending.Keys <= s.pending.Keys
    requires forall key :: key in t.pending ==>
               t.pending[key].bytes == s.pending[key].bytes && t.index[key] == s.index[key]
    ensures EntriesInv(t)
  {}

  lemma BoundsFrame(s: Sender, t: Sender)
    requires BoundsInv(s) && t.pending.Keys == s.pending.Keys && t.taken == s.taken
    ensures BoundsInv(t)
  {}

  lemma FatesFrame(s: Sender, t: Sender)
    requires FatesInv(s)
    requires t.sent == s.sent && t.index == s.index
    requires t.acked == s.acked && t.evicted == s.evicted && t.overwritten == s.overwritten
    ensures FatesInv(t)
  {
    hide ToWire;
    forall b: byte, k: nat | k < |Log(t.sent, b)| ensures FateOk(t, b, k) { assert FateOk(s, b, k); }
  }

  lemma CountersFrame(s: Sender, t: Sender)
    requires CountersInv(s) && t.next == s.next && t.sent == s.sent
    ensures CountersInv(t)
  {}

  lemma EnqueueQueues(s: Sender, c: byte, payload: Payload)
    requires QueuesInv(s)
    ensures QueuesInv(Enqueue(s, c, payload))
  {
    hide TakenOn;
    var t := Enqueue(s, c, payload);
    forall b: byte ensures Log(t.sent, b) + TakenOn(t.taken, b) + Log(t.outgoing, b) == Log(t.enqueued, b) {
      var front := Log(s.sent, b) + TakenOn(s.taken, b);
      assert front + Log(s.outgoing, b) == Log(s.enqueued, b);
      if b == c {
        assert front + (Log(s.outgoing, c) + [payload]) == (front + Log(s.outgoing, c)) + [payload];
      }
    }
  }

  lemma EnqueueKeeps(s: Sender, c: byte, payload: Payload)
    requires Inv(s)
    ensures Inv(Enqueue(s, c, payload))
  {
    var t := Enqueue(s, c, payload);
    EntriesFrame(s, t);
    FatesFrame(s, t);
    CountersFrame(s, t);
    EnqueueQueues(s, c, payload);
    hide EntriesInv, FatesInv, QueuesInv, CountersInv, TakenOn;
  }

  /** Moves one payload from the front of a channel's queue to the taken list. */
  function Take(s: Sender, c: byte): Sender
    requires Log(s.outgoing, c) != []
  {
    s.(outgoing := s.outgoing[c := s.outgoing[c][1..]], taken := s.taken + [(c, s.outgoing[c][0])])
  }

  lemma TakeQueues(s: Sender, c: byte)
    requires QueuesInv(s) && Log(s.outgoing, c) != []
    ensures QueuesInv(Take(s, c))
  {
    hide TakenOn;
    var t := Take(s, c);
    forall b: byte ensures Log(t.sent, b) + TakenOn(t.taken, b) + Log(t.outgoing, b) == Log(t.enqueued, b) {
      assert Log(s.sent, b) + TakenOn(s.taken, b) + Log(s.outgoing, b) == Log(s.enqueued, b);
      TakeOn(s, c, b);
    }
  }

  lemma TakeOn(s: Sender, c: byte, b: byte)
    requires Log(s.outgoing, c) != []
    ensures var t := Take(s, c);
            && t.sent == s.sent && t.enqueued == s.enqueued
            && Log(t.sent, b) + TakenOn(t.taken, b) + Log(t.outgoing, b)
            == Log(s.sent, b) + TakenOn(s.taken, b) + Log(s.outgoing, b)
  {
    hide TakenOn;
    TakenAppend(s.taken, (c, s.outgoing[c][0]), b);
    var t := Take(s, c);
    if b == c {
      HeadMoves(Log(s.sent, c), TakenOn(s.taken, c), s.outgoing[c]);
      assert Log(t.outgoing, c) == s.outgoing[c][1..];
      assert TakenOn(t.taken, c) == TakenOn(s.taken, c) + [s.outgoing[c][0]];
    } else {
      assert Log(t.outgoing, b) == Log(s.outgoing, b);
      assert TakenOn(t.taken, b) == TakenOn(s.taken, b) + [];
    }
  }

  lemma HeadMoves(sent: seq<Payload>, taken: seq<Payload>, queue: seq<Payload>)
    requires queue != []
    ensures sent + (taken + [queue[0]]) + queue[1..] == sent + taken + queue
  {}

  lemma TakeBounds(s: Sender, c: byte)
    requires BoundsInv(s) && Log(s.outgoing, c) != []
    requires |KeysOn(s.pending.Keys, c)| + |TakenOn(s.taken, c)| < DEFAULT_WINDOW_SIZE
    ensures BoundsInv(Take(s, c))
  {
    hide TakenOn, KeysOn;
    var t := Take(s, c);
    forall b: byte ensures ChannelBound(t.pending.Keys, t.taken, b) {
      assert ChannelBound(s.pending.Keys, s.taken, b);
      TakenAppend(s.taken, (c, s.outgoing[c][0]), b);
    }
  }

  lemma TakeKeeps(s: Sender, c: byte)
    requires Inv(s) && Log(s.outgoing, c) != []
    requires |KeysOn(s.pending.Keys, c)| + |TakenOn(s.taken, c)| < DEFAULT_WINDOW_SIZE
    ensures Inv(Take(s, c))
  {
    var t := Take(s, c);
    TakeQueues(s, c);
    TakeBounds(s, c);
    EntriesFrame(s, t);
    FatesFrame(s, t);
    CountersFrame(s, t);
    hide EntriesInv, FatesInv, QueuesInv, CountersInv, BoundsInv, TakenOn, KeysOn;
  }

  /** The history entries of a set of buffered packets. */
  function Indices(s: Sender, gone: set<Key>): set<(byte, nat)>
    requires gone <= s.index.Keys
  {
    set key | key in gone :: (key.channelId, s.index[key])
  }

  /** `t` is `s` without the buffered packets `gone`. */
  ghost predicate Dropped(s: Sender, t: Sender, gone: set<Key>) {
    && gone <= s.pending.Keys
    && t.pending.Keys == s.pending.Keys - gone && t.index.Keys == t.pending.Keys
    && (forall key :: key in t.pending ==> t.pending[key].bytes == s.pending[key].bytes)
    && (forall key :: key in t.pending && key in s.index ==> t.index[key] == s.index[key])
    && t.connectionNumber == s.connectionNumber && t.next == s.next && t.outgoing == s.outgoing
    && t.taken == s.taken && t.enqueued == s.enqueued && t.sent == s.sent && t.overwritten == s.overwritten
  }

  /** Dropping packets keeps the invariant if each is put down as acknowledged or as evicted. */
  lemma DropKeeps(s: Sender, t: Sender, gone: set<Key>)
    requires Inv(s) && Dropped(s, t, gone)
    requires || (t.acked == s.acked + Indices(s, gone) && t.evicted == s.evicted)
             || (t.evicted == s.evicted + Indices(s, gone) && t.acked == s.acked)
    ensures Inv(t)
  {
    EntriesFrame(s, t);
    DropFates(s, t, gone);
    DropBounds(s, t, gone);
    CountersFrame(s, t);
    hide EntriesInv, FatesInv, CountersInv, BoundsInv, TakenOn, Indices;
  }

  lemma DropBounds(s: Sender, t: Sender, gone: set<Key>)
    requires BoundsInv(s) && Dropped(s, t, gone)
    ensures BoundsInv(t)
  {
    hide TakenOn, KeysOn;
    Smaller(t.pending.Keys, s.pending.Keys);
    forall b: byte ensures ChannelBound(t.pending.Keys, t.taken, b) {
      assert ChannelBound(s.pending.Keys, s.taken, b);
      KeysOnMonotone(t.pending.Keys, s.pending.Keys, b);
    }
  }

  lemma KeysOnMonotone(a: set<Key>, b: set<Key>, c: byte)
    requires a <= b
    ensures |KeysOn(a, c)| <= |KeysOn(b, c)|
  {
    Smaller(KeysOn(a, c), KeysOn(b, c));
  }

  lemma DropFates(s: Sender, t: Sender, gone: set<Key>)
    requires EntriesInv(s) && FatesInv(s) && Dropped(s, t, gone)
    requires || (t.acked == s.acked + Indices(s, gone) && t.evicted == s.evicted)
             || (t.evicted == s.evicted + Indices(s, gone) && t.acked == s.acked)
    ensures FatesInv(t)
  {
    hide ToWire, ChannelPacket, Indices;
    forall b: byte, k: nat | k < |Log(t.sent, b)| ensures FateOk(t, b, k) {
      assert FateOk(s, b, k);
      IndicesAre(s, gone, b, k);
    }
    forall x | x in t.acked + t.evicted + t.overwritten ensures x.1 < |Log(t.sent, x.0)| {
      if x in Indices(s, gone) {
        IndicesAre(s, gone, x.0, x.1);
        assert EntryOk(s, Key(x.0, ToWire(x.1)));
      }
    }
  }

  lemma IndicesAre(s: Sender, gone: set<Key>, c: byte, k: nat)
    requires EntriesInv(s) && gone <= s.pending.Keys
    ensures (c, k) in Indices(s, gone) <==> Buffered(s, c, k) && Key(c, ToWire(k)) in gone
  {}

  /** Drops one buffered packet for lack of room. */
  function Evict(s: Sender, key: Key): Sender
    requires key in s.index
  {
    s.(pending := s.pending - {key}, index := s.index - {key},
       evicted := s.evicted + {(key.channelId, s.index[key])})
  }

  lemma EvictKeeps(s: Sender, key: Key)
    requires Inv(s) && key in s.pending && key in s.index
    ensures Inv(Evict(s, key))
  {
    hide ToWire, ChannelPacket, TakenOn, KeysOn;
    assert Indices(s, {key}) == {(key.channelId, s.index[key])};
    DropKeeps(s, Evict(s, key), {key});
  }

  predicate SettledKey(key: Key, c: byte, ack: AckView) {
    key.channelId == c && Covers(ack, key.sequence)
  }

  function SettledKeys(s: Sender, c: byte, ack: AckView): set<Key> {
    set key | key in s.pending && SettledKey(key, c, ack)
  }

  /** An ack removes the packets it covers on its channel, and nothing else. */
  function Acknowledge(s: Sender, c: byte, ack: AckView): Sender
    requires s.index.Keys == s.pending.Keys
  {
    var gone := SettledKeys(s, c, ack);
    s.(pending := s.pending - gone, index := s.index - gone, acked := s.acked + Indices(s, gone))
  }

  lemma AcknowledgeKeeps(s: Sender, c: byte, ack: AckView)
    requires Inv(s)
    ensures Inv(Acknowledge(s, c, ack))
  {
    hide ToWire, ChannelPacket, TakenOn, KeysOn, Covers;
    DropKeeps(s, Acknowledge(s, c, ack), SettledKeys(s, c, ack));
  }

  predicate Due(item: PendingReliable, now: int) {
    now - item.lastSent >= RESEND_AFTER
  }

  function Stamped(item: PendingReliable, now: int): PendingReliable {
    if Due(item, now) then item.(lastSent := now) else item
  }

  /** Resending restarts the clock of every packet that is due. */
  function Resend(s: Sender, now: int): Sender {
    s.(pending := map key | key in s.pending :: Stamped(s.pending[key], now))
  }

  lemma ResendEntries(s: Sender, now: int)
    requires EntriesInv(s)
    ensures EntriesInv(Resend(s, now))
  {
    hide EntryOk;
    EntriesFrame(s, Resend(s, now));
  }

  lemma ResendKeeps(s: Sender, now: int)
    requires Inv(s)
    ensures Inv(Resend(s, now))
  {
    hide EntriesInv, FatesInv, CountersInv, BoundsInv, TakenOn, KeysOn;
    var t := Resend(s, now);
    assert t.pending.Keys == s.pending.Keys;
    ResendEntries(s, now);
    FatesFrame(s, t);
    CountersFrame(s, t);
    BoundsFrame(s, t);
  }

  /** Sends the first taken payload: the next sequence of its channel, into the buffer. */
  function Record(s: Sender, stamp: int): Sender
    requires s.taken != [] && s.connectionNumber < 4
  {
    var (c, payload) := s.taken[0];
    var sequence := NextOf(s, c);
    var key := Key(c, sequence);
    var bytes := ChannelPacket(s.connectionNumber, sequence, c, payload);
    s.(taken := s.taken[1..],
       next := s.next[c := (sequence + 1) % MAX_SEQUENCE],
       sent := s.sent[c := Log(s.sent, c) + [payload]],
       pending := s.pending[key := PendingReliable(bytes, stamp)],
       index := s.index[key := |Log(s.sent, c)|],
       overwritten := s.overwritten + (if key in s.index then {(c, s.index[key])} else {}))
  }

  lemma RecordQueues(s: Sender, stamp: int)
    requires QueuesInv(s) && s.taken != [] && s.connectionNumber < 4
    ensures QueuesInv(Record(s, stamp))
  {
    hide Record, TakenOn, Log;
    var t := Record(s, stamp);
    forall b: byte ensures Log(t.sent, b) + TakenOn(t.taken, b) + Log(t.outgoing, b) == Log(t.enqueued, b) {
      assert Log(s.sent, b) + TakenOn(s.taken, b) + Log(s.outgoing, b) == Log(s.enqueued, b);
      RecordOn(s, stamp, b);
    }
  }

  lemma RecordOn(s: Sender, stamp: int, b: byte)
    requires s.taken != [] && s.connectionNumber < 4
    ensures var t := Record(s, stamp);
            && t.outgoing == s.outgoing && t.enqueued == s.enqueued
            && Log(t.sent, b) + TakenOn(t.taken, b) == Log(s.sent, b) + TakenOn(s.taken, b)
  {
    hide ToWire, ChannelPacket;
    var t, payload := Record(s, stamp), s.taken[0].1;
    if b == s.taken[0].0 {
      assert TakenOn(s.taken, b) == [payload] + TakenOn(s.taken[1..], b);
      assert (Log(s.sent, b) + [payload]) + TakenOn(t.taken, b) == Log(s.sent, b) + TakenOn(s.taken, b);
    }
  }

  lemma NextWire(n: nat)
    ensures (ToWire(n) + 1) % MAX_SEQUENCE == ToWire(n + 1)
  {
    var q := n / MAX_SEQUENCE;
    if ToWire(n) == MAX_SEQUENCE - 1 {
      SequenceRemainder(n + 1, q + 1, 0);
    } else {
      SequenceRemainder(n + 1, q, ToWire(n) + 1);
    }
  }

  lemma RecordCounters(s: Sender, stamp: int)
    requires CountersInv(s) && s.taken != [] && s.connectionNumber < 4
    ensures CountersInv(Record(s, stamp))
  {
    hide ToWire, ChannelPacket;
    var t, c := Record(s, stamp), s.taken[0].0;
    NextWire(|Log(s.sent, c)|);
    forall b: byte ensures NextOf(t, b) == ToWire(|Log(t.sent, b)|) {
      assert NextOf(s, b) == ToWire(|Log(s.sent, b)|);
    }
  }

  lemma RecordBounds(s: Sender, stamp: int)
    requires BoundsInv(s) && s.taken != [] && s.connectionNumber < 4
    requires |s.pending.Keys| < MAX_PENDING_RELIABLE_PER_PEER
    ensures BoundsInv(Record(s, stamp))
  {
    hide ToWire, ChannelPacket, KeysOn, TakenOn, ChannelBound;
    var t, c := Record(s, stamp), s.taken[0].0;
    var key := Key(c, NextOf(s, c));
    InsertedKeys(s.pending, key, t.pending[key]);
    forall b: byte ensures ChannelBound(t.pending.Keys, t.taken, b) {
      BoundMoves(s.pending.Keys, key, s.taken, b);
    }
  }

  lemma InsertedKeys(m: map<Key, PendingReliable>, key: Key, item: PendingReliable)
    ensures m[key := item].Keys == m.Keys + {key}
    ensures |m[key := item].Keys| <= |m.Keys| + 1
  {}

  /** A packet that moves from the taken list into the buffer keeps every channel's bound. */
  lemma BoundMoves(keys: set<Key>, key: Key, taken: seq<(byte, Payload)>, b: byte)
    requires taken != [] && taken[0].0 == key.channelId
    requires ChannelBound(keys, taken, b)
    ensures ChannelBound(keys + {key}, taken[1..], b)
  {
    hide KeysOn, TakenOn;
    KeysOnAdd(keys, key, b);
    TakenTail(taken, b);
  }

  lemma KeysOnAdd(keys: set<Key>, key: Key, c: byte)
    ensures |KeysOn(keys + {key}, c)| <= |KeysOn(keys, c)| + (if key.channelId == c then 1 else 0)
  {
    if key.channelId == c {
      assert KeysOn(keys + {key}, c) == KeysOn(keys, c) + {key};
    } else {
      assert KeysOn(keys + {key}, c) == KeysOn(keys, c);
    }
  }

  lemma TakenTail(taken: seq<(byte, Payload)>, c: byte)
    requires taken != []
    ensures |TakenOn(taken, c)| == (if taken[0].0 == c then 1 else 0) + |TakenOn(taken[1..], c)|
  {}

  /** A buffered entry meets the next send of its channel on the wire only 32768 sends later. */
  lemma WrapMeets(k: nat, n: nat)
    requires k < n <= k + MAX_SEQUENCE
    ensures ToWire(k) == ToWire(n) <==> n == k + MAX_SEQUENCE
  {
    if ToWire(k) == ToWire(n) && n < k + MAX_SEQUENCE { WireApart(n, k); }
    var q := k / MAX_SEQUENCE;
    SequenceRemainder(k + MAX_SEQUENCE, q + 1, ToWire(k));
  }

  lemma RecordEntries(s: Sender, stamp: int)
    requires EntriesInv(s) && CountersInv(s) && s.taken != [] && s.connectionNumber < 4
    ensures EntriesInv(Record(s, stamp))
  {
    hide ToWire, ChannelPacket;
    var t := Record(s, stamp);
    var (c, payload) := s.taken[0];
    var n := |Log(s.sent, c)|;
    var key := Key(c, NextOf(s, c));
    assert NextOf(s, c) == ToWire(n);
    forall e | e in t.pending ensures EntryOk(t, e) {
      if e != key {
        assert EntryOk(s, e);
        if e.channelId == c { WrapMeets(s.index[e], n); }
      }
    }
  }

  /** A packet sent before keeps its fate, or is overwritten when the new one takes its key. */
  lemma RecordOlder(s: Sender, stamp: int, b: byte, k: nat)
    requires EntriesInv(s) && CountersInv(s) && s.taken != [] && s.connectionNumber < 4
    requires k < |Log(s.sent, b)| && FateOk(s, b, k)
    ensures FateOk(Record(s, stamp), b, k)
  {
    hide ToWire, ChannelPacket;
    var c := s.taken[0].0;
    var n := |Log(s.sent, c)|;
    var key := Key(c, NextOf(s, c));
    assert NextOf(s, c) == ToWire(n);
    if key in s.index {
      assert EntryOk(s, key);
      WrapMeets(s.index[key], n);
    }
  }

  lemma RecordFates(s: Sender, stamp: int)
    requires EntriesInv(s) && CountersInv(s) && FatesInv(s) && s.taken != [] && s.connectionNumber < 4
    ensures FatesInv(Record(s, stamp))
  {
    hide ToWire, ChannelPacket, EntriesInv;
    var t, c := Record(s, stamp), s.taken[0].0;
    var n := |Log(s.sent, c)|;
    forall b: byte, k: nat | k < |Log(t.sent, b)| ensures FateOk(t, b, k) {
      if b == c && k == n {
        assert NextOf(s, c) == ToWire(n);
        assert (c, n) !in s.acked + s.evicted + s.overwritten;
        RecordsOverwritten(s, stamp);
      } else {
        hide Record;
        assert FateOk(s, b, k);
        RecordOlder(s, stamp, b, k);
      }
    }
    RecordsOverwritten(s, stamp);
  }

  /** Only packets already sent are overwritten. */
  lemma RecordsOverwritten(s: Sender, stamp: int)
    requires EntriesInv(s) && s.taken != [] && s.connectionNumber < 4
    ensures forall x :: x in Record(s, stamp).overwritten ==> x in s.overwritten || x.1 < |Log(s.sent, x.0)|
  {
    hide ToWire, ChannelPacket;
    var key := Key(s.taken[0].0, NextOf(s, s.taken[0].0));
    if key in s.index { assert EntryOk(s, key); }
  }

  lemma RecordKeeps(s: Sender, stamp: int)
    requires Inv(s) && s.taken != []
    requires |s.pending.Keys| < MAX_PENDING_RELIABLE_PER_PEER
    ensures Inv(Record(s, stamp))
  {
    RecordQueues(s, stamp);
    RecordCounters(s, stamp);
    RecordBounds(s, stamp);
    RecordEntries(s, stamp);
    RecordFates(s, stamp);
    hide EntriesInv, FatesInv, QueuesInv, CountersInv, BoundsInv, TakenOn, KeysOn, ToWire, ChannelPacket;
  }

  lemma {:induction false} Smaller<T>(a: set<T>, b: set<T>)
    requires a <= b
    ensures |a| <= |b|
  {
    if a != {} {
      var x :| x in a;
      Smaller(a - {x}, b - {x});
    }
  }

  // --- Runs ---------------------------------------------------------------------------

  datatype Step =
    | EnqueueStep(channelId: byte, payload: Payload)
    | TakeStep(channelId: byte)
    | EvictStep(key: Key)
    | RecordStep(stamp: int)
    | AckStep(channelId: byte, ack: AckView)
    | ResendStep(now: int)

  predicate Enabled(s: Sender, step: Step) {
    match step
    case TakeStep(c) =>
      Log(s.outgoing, c) != [] && |KeysOn(s.pending.Keys, c)| + |TakenOn(s.taken, c)| < DEFAULT_WINDOW_SIZE
    case EvictStep(key) => key in s.pending && key in s.index
    case RecordStep(_) =>
      s.taken != [] && |s.pending.Keys| < MAX_PENDING_RELIABLE_PER_PEER && s.connectionNumber < 4
    case AckStep(_, _) => s.index.Keys == s.pending.Keys
    case _ => true
  }

  function Apply(s: Sender, step: Step): Sender
    requires Enabled(s, step)
  {
    match step
    case EnqueueStep(c, payload) => Enqueue(s, c, payload)
    case TakeStep(c) => Take(s, c)
    case EvictStep(key) => Evict(s, key)
    case RecordStep(stamp) => Record(s, stamp)
    case AckStep(c, ack) => Acknowledge(s, c, ack)
    case ResendStep(now) => Resend(s, now)
  }

  lemma StepKeeps(s: Sender, step: Step)
    requires Inv(s) && Enabled(s, step)
    ensures Inv(Apply(s, step))
  {
    hide Inv, Enqueue, Take, Evict, Record, Acknowledge, Resend, KeysOn, TakenOn;
    match step
    case EnqueueStep(c, payload) => EnqueueKeeps(s, c, payload);
    case TakeStep(c) => TakeKeeps(s, c);
    case EvictStep(key) => EvictKeeps(s, key);
    case RecordStep(stamp) => RecordKeeps(s, stamp);
    case AckStep(c, ack) => AcknowledgeKeeps(s, c, ack);
    case ResendStep(now) => ResendKeeps(s, now);
  }

  /** A run: the states between the steps, each the result of its step. */
  ghost predicate Run(states: seq<Sender>, steps: seq<Step>) {
    && |states| == |steps| + 1
    && forall i :: 0 <= i < |steps| ==> Enabled(states[i], steps[i]) && states[i + 1] == Apply(states[i], steps[i])
  }

  lemma {:induction false} RunKeeps(states: seq<Sender>, steps: seq<Step>, i: nat)
    requires Run(states, steps) && Inv(states[0]) && i < |states|
    ensures Inv(states[i])
  {
    if i > 0 {
      RunKeeps(states, steps, i - 1);
      StepKeeps(states[i - 1], steps[i - 1]);
    }
  }

  /** A packet neither acknowledged nor evicted is still buffered, byte for byte under its own
      sequence, until 32768 later sends of its channel. */
  ghost predicate StillBuffered(s: Sender, c: byte, k: nat) {
    k < |Log(s.sent, c)| <= k + MAX_SEQUENCE && (c, k) !in s.acked && (c, k) !in s.evicted ==>
      && s.connectionNumber < 4 && k < |Log(s.enqueued, c)|
      && Key(c, ToWire(k)) in s.pending
      && s.pending[Key(c, ToWire(k))].bytes == ChannelPacket(s.connectionNumber, ToWire(k), c, Log(s.enqueued, c)[k])
  }

  lemma BufferedUntilSettled(s: Sender, c: byte, k: nat)
    requires Inv(s)
    ensures StillBuffered(s, c, k)
  {
    hide ToWire, ChannelPacket, KeysOn, TakenOn, BoundsInv, CountersInv;
    if k < |Log(s.sent, c)| <= k + MAX_SEQUENCE && (c, k) !in s.acked && (c, k) !in s.evicted {
      assert FateOk(s, c, k);
      assert EntryOk(s, Key(c, ToWire(k)));
      SentIsEnqueued(s, c, k);
    }
  }

  lemma SentIsEnqueued(s: Sender, c: byte, k: nat)
    requires QueuesInv(s) && k < |Log(s.sent, c)|
    ensures k < |Log(s.enqueued, c)| && Log(s.enqueued, c)[k] == Log(s.sent, c)[k]
  {}

  /** At every point of every run: the window and buffer bounds hold, what was sent on a channel
      followed by what still waits is what was enqueued, sends are numbered in order, and no packet
      is lost silently. */
  lemma WindowGuarantees(states: seq<Sender>, steps: seq<Step>, i: nat, c: byte, k: nat)
    requires Run(states, steps) && Inv(states[0]) && i < |states|
    ensures |states[i].pending.Keys| <= 4096
    ensures |KeysOn(states[i].pending.Keys, c)| + |TakenOn(states[i].taken, c)| <= 128
    ensures Log(states[i].sent, c) + TakenOn(states[i].taken, c) + Log(states[i].outgoing, c)
        == Log(states[i].enqueued, c)
    ensures NextOf(states[i], c) == ToWire(|Log(states[i].sent, c)|)
    ensures StillBuffered(states[i], c, k)
  {
    RunKeeps(states, steps, i);
    BufferedUntilSettled(states[i], c, k);
    assert ChannelBound(states[i].pending.Keys, states[i].taken, c);
    hide Run, StillBuffered, TakenOn, KeysOn, FatesInv, EntriesInv, NextOf, ToWire;
  }
}
