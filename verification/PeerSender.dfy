/** One connection's reliable sender as it runs: enqueues, acks, and the three phases of a
    resend tick. Every method takes one step of `SendWindow.Sender`. */
module PeerSender {
  import opened Bits
  import opened AckWindow
  import opened AckPackets
  import opened SendWindow

  ghost predicate Counts(counts: map<byte, nat>, keys: set<Key>) {
    forall c: byte :: (if c in counts then counts[c] else 0) == |KeysOn(keys, c)|
  }

  lemma KeysOnInsert(keys: set<Key>, key: Key, c: byte)
    requires key !in keys
    ensures |KeysOn(keys + {key}, c)| == |KeysOn(keys, c)| + (if key.channelId == c then 1 else 0)
  {
    if key.channelId == c {
      assert KeysOn(keys + {key}, c) == KeysOn(keys, c) + {key};
    } else {
      assert KeysOn(keys + {key}, c) == KeysOn(keys, c);
    }
  }

  lemma CountsInsert(counts: map<byte, nat>, seen: set<Key>, key: Key)
    requires Counts(counts, seen) && key !in seen
    ensures var before := if key.channelId in counts then counts[key.channelId] else 0;
            Counts(counts[key.channelId := before + 1], seen + {key})
  {
    var before := if key.channelId in counts then counts[key.channelId] else 0;
    var after := counts[key.channelId := before + 1];
    hide KeysOn;
    forall c: byte ensures (if c in after then after[c] else 0) == |KeysOn(seen + {key}, c)| {
      KeysOnInsert(seen, key, c);
      assert (if c in counts then counts[c] else 0) == |KeysOn(seen, c)|;
    }
  }

  /** Buffered packets per channel. */
  method CountByChannel(keys: set<Key>) returns (counts: map<byte, nat>)
    ensures Counts(counts, keys)
  {
    hide KeysOn;
    counts := map[];
    var rest := keys;
    ghost var seen: set<Key> := {};
    assert Counts(counts, seen) by { NoKeys(); }
    while rest != {}
      invariant seen + rest == keys && seen !! rest
      invariant Counts(counts, seen)
      decreases rest
    {
      hide Counts;
      var key :| key in rest;
      CountsInsert(counts, seen, key);
      var before := if key.channelId in counts then counts[key.channelId] else 0;
      counts := counts[key.channelId := before + 1];
      rest, seen := rest - {key}, seen + {key};
    }
    assert seen == keys;
  }

  lemma NoKeys()
    ensures forall c: byte :: KeysOn({}, c) == {}
  {}

  /** The packets of the buffer that an ack does not settle. */
  method KeepUnsettled(
      pending: map<Key, PendingReliable>, channelId: byte, ackWindowStart: AckWindow.Wire, ackBits: seq<byte>)
    returns (kept: map<Key, PendingReliable>)
    ensures var ack := AckView(ackWindowStart, SlotsOf(ackBits));
            kept == map key | key in pending && !(key.channelId == channelId && Covers(ack, key.sequence)) ::
                      pending[key]
  {
    ghost var ack := AckView(ackWindowStart, SlotsOf(ackBits));
    kept := map[];
    var rest := pending.Keys;
    while rest != {}
      invariant rest <= pending.Keys
      invariant kept == map key | key in pending && key !in rest
                                && !(key.channelId == channelId && Covers(ack, key.sequence)) :: pending[key]
      decreases rest
    {
      var key :| key in rest;
      var keep := KeepPacket(key, channelId, ackWindowStart, ackBits);
      if keep { kept := kept[key := pending[key]]; }
      rest := rest - {key};
    }
  }

  method KeepPacket(key: Key, channelId: byte, ackWindowStart: AckWindow.Wire, ackBits: seq<byte>) returns (keep: bool)
    ensures keep <==> key.channelId != channelId || !Covers(AckView(ackWindowStart, SlotsOf(ackBits)), key.sequence)
  {
    if key.channelId != channelId { return true; }
    var rel := RelativeSequence(key.sequence, ackWindowStart);
    if rel < 0 || rel >= DEFAULT_WINDOW_SIZE { return true; }
    var pos := key.sequence % DEFAULT_WINDOW_SIZE;
    keep := !SlotSet(ackBits, pos);
  }

  /** `sends` holds the bytes of every due packet, each once, in some order. */
  ghost predicate DueOnce(items: map<Key, PendingReliable>, now: int, order: seq<Key>, sends: seq<seq<byte>>) {
    && (forall key :: key in order <==> key in items && now - items[key].lastSent >= 150)
    && (forall i, j :: 0 <= i < j < |order| ==> order[i] != order[j])
    && |sends| == |order|
    && forall i :: 0 <= i < |order| ==> order[i] in items && sends[i] == items[order[i]].bytes
  }

  /** Restarts the clock of every due packet and collects their bytes. */
  method RestartDue(items: map<Key, PendingReliable>, now: int)
    returns (after: map<Key, PendingReliable>, sends: seq<seq<byte>>)
    ensures after == map key | key in items :: Stamped(items[key], now)
    ensures exists order :: DueOnce(items, now, order, sends)
  {
    after, sends := items, [];
    var rest := items.Keys;
    ghost var order: seq<Key> := [];
    while rest != {}
      invariant rest <= items.Keys && after.Keys == items.Keys
      invariant forall key :: key in items ==>
                  after[key] == if key in rest then items[key] else Stamped(items[key], now)
      invariant forall key :: key in order <==> key in items && key !in rest && now - items[key].lastSent >= 150
      invariant forall i, j :: 0 <= i < j < |order| ==> order[i] != order[j]
      invariant |sends| == |order|
      invariant forall i :: 0 <= i < |order| ==> order[i] in items && sends[i] == items[order[i]].bytes
      decreases rest
    {
      var key :| key in rest;
      if now - items[key].lastSent >= RESEND_AFTER {
        after := after[key := items[key].(lastSent := now)];
        sends, order := sends + [items[key].bytes], order + [key];
      }
      rest := rest - {key};
    }
    assert DueOnce(items, now, order, sends);
  }

  function Room(pendingCount: nat): nat {
    if pendingCount < DEFAULT_WINDOW_SIZE then DEFAULT_WINDOW_SIZE - pendingCount else 0
  }

  function TakeCount(s: Sender, c: byte): nat {
    var room := Room(|KeysOn(s.pending.Keys, c)|);
    if |Log(s.outgoing, c)| < room then |Log(s.outgoing, c)| else room
  }

  /** The taking phase, stated for one channel: as many payloads as the window has room for
      move from the front of the queue to the taken list, in order. */
  ghost predicate TookFront(before: Sender, after: Sender, c: byte) {
    var n := TakeCount(before, c);
    && Log(after.outgoing, c) == Log(before.outgoing, c)[n..]
    && TakenOn(after.taken, c) == Log(before.outgoing, c)[..n]
  }

  /** In other words: the payloads stay in order between the taken list and the queue, at most 128
      packets are under way, and a payload waits on only when that many are. */
  ghost predicate TookAll(before: Sender, after: Sender, c: byte) {
    var underWay := |KeysOn(after.pending.Keys, c)| + |TakenOn(after.taken, c)|;
    && TakenOn(after.taken, c) + Log(after.outgoing, c) == Log(before.outgoing, c)
    && underWay <= 128 && (Log(after.outgoing, c) != [] ==> underWay == 128)
  }

  lemma FrontIsAll(before: Sender, after: Sender, c: byte)
    requires Inv(before) && after.pending == before.pending && TookFront(before, after, c)
    ensures TookAll(before, after, c)
  {
    hide KeysOn, TakenOn, Log, QueuesInv, CountersInv, EntriesInv, FatesInv;
    assert ChannelBound(before.pending.Keys, before.taken, c);
    SplitAt(Log(before.outgoing, c), TakeCount(before, c));
  }

  lemma SplitAt<T>(s: seq<T>, n: nat)
    requires n <= |s|
    ensures s[..n] + s[n..] == s && |s[..n]| == n && (s[n..] != [] <==> n < |s|)
  {}

  lemma AllTaken(before: Sender, after: Sender)
    requires Inv(before) && OnlyQueuesMoved(before, after) && forall c: byte :: TookFront(before, after, c)
    ensures forall c: byte :: TookAll(before, after, c)
  {
    hide Inv, TookFront, TookAll;
    forall c: byte ensures TookAll(before, after, c) { FrontIsAll(before, after, c); }
  }

  /** `after` differs from `before` in the queues and the taken list at most. */
  ghost predicate OnlyQueuesMoved(before: Sender, after: Sender) {
    after == before.(outgoing := after.outgoing, taken := after.taken)
  }

  /** The packet that carries the first taken payload. */
  function NextPacket(s: Sender): seq<byte>
    requires s.taken != [] && s.connectionNumber < 4
  {
    ChannelPacket(s.connectionNumber, NextOf(s, s.taken[0].0), s.taken[0].0, s.taken[0].1)
  }

  /** What recording changes besides the histories. */
  lemma RecordMoves(s: Sender, stamp: int)
    requires s.taken != [] && s.connectionNumber < 4
    ensures var after, c := Record(s, stamp), s.taken[0].0;
            after == s.(
              taken := s.taken[1..],
              next := s.next[c := (NextOf(s, c) + 1) % MAX_SEQUENCE],
              pending := s.pending[Key(c, NextOf(s, c)) := PendingReliable(NextPacket(s), stamp)],
              sent := after.sent, index := after.index, overwritten := after.overwritten)
  {}

  class PeerSender {
    const connectionNumber: nat
    var nextReliableSequence: map<byte, AckWindow.Wire>
    var pendingReliable: map<Key, PendingReliable>
    var outgoingReliable: map<byte, seq<Payload>>
    var newlyQueued: seq<(byte, Payload)>  // payloads the resend tick has taken but not yet sent
    ghost var enqueued: map<byte, seq<Payload>>
    ghost var sent: map<byte, seq<Payload>>
    ghost var index: map<Key, nat>
    ghost var acked: set<(byte, nat)>
    ghost var evicted: set<(byte, nat)>
    ghost var overwritten: set<(byte, nat)>

    ghost function View(): Sender
      reads this
    {
      Sender(connectionNumber, nextReliableSequence, pendingReliable, outgoingReliable, newlyQueued,
             enqueued, sent, index, acked, evicted, overwritten)
    }

    ghost predicate Valid()
      reads this
    {
      Inv(View())
    }

    constructor (connectionNumber: nat)
      requires connectionNumber < 4
      ensures Valid()
      ensures View() == Sender(connectionNumber, map[], map[], map[], [], map[], map[], map[], {}, {}, {})
    {
      this.connectionNumber := connectionNumber;
      nextReliableSequence, pendingReliable, outgoingReliable, newlyQueued := map[], map[], map[], [];
      enqueued, sent, index, acked, evicted, overwritten := map[], map[], map[], {}, {}, {};
      new;
      EmptyInv(View());
    }

    method EnqueueReliablePayload(channelId: byte, payload: Payload)
      requires Valid()
      modifies this
      ensures Valid() && View() == Enqueue(old(View()), channelId, payload)
    {
      hide Inv;
      EnqueueKeeps(View(), channelId, payload);
      var queue := if channelId in outgoingReliable then outgoingReliable[channelId] else [];
      outgoingReliable := outgoingReliable[channelId := queue + [payload]];
      enqueued := enqueued[channelId := Log(enqueued, channelId) + [payload]];
    }

    /** Keeps the packets the ack does not settle. */
    method ProcessAck(channelId: byte, ackWindowStart: AckWindow.Wire, ackBits: seq<byte>)
      requires Valid()
      modifies this
      ensures Valid()
      ensures old(View()).index.Keys == old(View()).pending.Keys
      ensures View() == Acknowledge(old(View()), channelId, AckView(ackWindowStart, SlotsOf(ackBits)))
      ensures pendingReliable == map key | key in old(pendingReliable)
                && !(key.channelId == channelId && Covers(AckView(ackWindowStart, SlotsOf(ackBits)), key.sequence))
                :: old(pendingReliable)[key]
    {
      hide Inv, Covers, SlotsOf, Indices;
      ghost var ack, before := AckView(ackWindowStart, SlotsOf(ackBits)), View();
      IndexCovers(before);
      AcknowledgeKeeps(before, channelId, ack);
      ghost var gone := SettledKeys(before, channelId, ack);
      var kept := KeepUnsettled(pendingReliable, channelId, ackWindowStart, ackBits);
      assert kept == pendingReliable - gone;
      pendingReliable := kept;
      acked := acked + Indices(before, gone);
      index := index - gone;
    }

    /** First phase of a tick: per channel, in any channel order, as many payloads leave the
        queue as the window has room for. */
    method TakeQueued()
      requires Valid() && newlyQueued == []
      modifies this
      ensures Valid()
      ensures OnlyQueuesMoved(old(View()), View())
      ensures forall c: byte :: TookFront(old(View()), View(), c)
      ensures forall c: byte :: TookAll(old(View()), View(), c)
    {
      hide Inv, KeysOn, TakenOn, TookAll;
      var counts := CountByChannel(pendingReliable.Keys);
      ghost var before := View();
      var rest := outgoingReliable.Keys;
      NothingTaken(before);
      while rest != {}
        invariant Inv(View()) && OnlyQueuesMoved(before, View())
        invariant rest <= before.outgoing.Keys == outgoingReliable.Keys
        invariant forall c: byte ::
                    if c in rest
                    then Log(outgoingReliable, c) == Log(before.outgoing, c) && TakenOn(newlyQueued, c) == []
                                    else TookFront(before, View(), c)
        decreases rest
      {
        var c :| c in rest;
        var pendingCount := if c in counts then counts[c] else 0;
        TakeChannel(c, Room(pendingCount), before);
        rest := rest - {c};
      }
      AllTaken(before, View());
    }

    method TakeChannel(c: byte, capacity: nat, ghost before: Sender)
      requires Valid() && OnlyQueuesMoved(before, View()) && c in outgoingReliable
      requires capacity == Room(|KeysOn(pendingReliable.Keys, c)|)
      requires Log(outgoingReliable, c) == Log(before.outgoing, c) && TakenOn(newlyQueued, c) == []
      modifies this
      ensures Valid() && OnlyQueuesMoved(before, View())
      ensures outgoingReliable.Keys == old(outgoingReliable).Keys
      ensures TookFront(before, View(), c)
      ensures forall b: byte :: b != c ==>
                Log(outgoingReliable, b) == Log(old(outgoingReliable), b)
                && TakenOn(newlyQueued, b) == TakenOn(old(newlyQueued), b)
    {
      hide Inv, KeysOn, TakenOn;
      var done := 0;
      while done < capacity && outgoingReliable[c] != []
        invariant Inv(View()) && OnlyQueuesMoved(before, View())
        invariant done <= capacity && done <= |Log(before.outgoing, c)|
        invariant outgoingReliable.Keys == old(outgoingReliable).Keys
        invariant outgoingReliable[c] == Log(before.outgoing, c)[done..]
        invariant TakenOn(newlyQueued, c) == Log(before.outgoing, c)[..done]
        invariant forall b: byte :: b != c ==>
                    Log(outgoingReliable, b) == Log(old(outgoingReliable), b)
                    && TakenOn(newlyQueued, b) == TakenOn(old(newlyQueued), b)
        decreases capacity - done
      {
        TakeKeeps(View(), c);
        var payload := outgoingReliable[c][0];
        forall b: byte
          ensures TakenOn(newlyQueued + [(c, payload)], b)
               == TakenOn(newlyQueued, b) + if b == c then [payload] else []
        {
          TakenAppend(newlyQueued, (c, payload), b);
        }
        newlyQueued := newlyQueued + [(c, payload)];
        outgoingReliable := outgoingReliable[c := outgoingReliable[c][1..]];
        done := done + 1;
      }
    }

    /** Makes room for one packet if the buffer is full. */
    method MakeRoom() returns (gone: set<Key>)
      requires Valid()
      modifies this
      ensures Valid() && |pendingReliable.Keys| < MAX_PENDING_RELIABLE_PER_PEER
      ensures newlyQueued == old(newlyQueued) && nextReliableSequence == old(nextReliableSequence)
      ensures old(View()).index.Keys == old(View()).pending.Keys
      ensures |old(View()).pending.Keys| < MAX_PENDING_RELIABLE_PER_PEER ==> gone == {} && View() == old(View())
      ensures |old(View()).pending.Keys| >= MAX_PENDING_RELIABLE_PER_PEER ==>
                exists key :: IsOldest(old(View()).pending, key) && gone == {key} && View() == Evict(old(View()), key)
    {
      hide Inv;
      ghost var before := View();
      IndexCovers(before);
      gone := {};
      if |pendingReliable.Keys| >= MAX_PENDING_RELIABLE_PER_PEER {
        var oldest := Oldest(pendingReliable);
        EvictKeeps(before, oldest);
        evicted := evicted + {(oldest.channelId, index[oldest])};
        index := index - {oldest};
        assert (pendingReliable - {oldest}).Keys == pendingReliable.Keys - {oldest};
        assert |pendingReliable.Keys - {oldest}| == |pendingReliable.Keys| - 1;
        pendingReliable := pendingReliable - {oldest};
        gone := {oldest};
      }
    }

    /** Numbers the first taken payload and buffers it. */
    method BufferNext(stamp: int) returns (bytes: seq<byte>)
      requires connectionNumber < 4 && newlyQueued != []
      modifies this
      ensures View() == Record(old(View()), stamp)
      ensures bytes == NextPacket(old(View()))
    {
      hide ChannelPacket, Log, Record;
      ghost var after := Record(View(), stamp);
      RecordMoves(View(), stamp);
      var channelId, payload := newlyQueued[0].0, newlyQueued[0].1;
      var sequence := if channelId in nextReliableSequence then nextReliableSequence[channelId] else 0;
      bytes := ChannelPacket(connectionNumber, sequence, channelId, payload);
      newlyQueued := newlyQueued[1..];
      nextReliableSequence := nextReliableSequence[channelId := (sequence + 1) % MAX_SEQUENCE];
      pendingReliable := pendingReliable[Key(channelId, sequence) := PendingReliable(bytes, stamp)];
      sent, index, overwritten := after.sent, after.index, after.overwritten;
    }

    /** Second phase, once per taken payload: make room, number it, buffer it. */
    method RecordNext(stamp: int) returns (bytes: seq<byte>, gone: set<Key>)
      requires Valid() && newlyQueued != []
      modifies this
      ensures Valid() && connectionNumber < 4
      ensures old(View()).index.Keys == old(View()).pending.Keys
      ensures |old(View()).pending.Keys| < 4096 ==>
                gone == {} && View() == Record(old(View()), stamp)
      ensures |old(View()).pending.Keys| >= 4096 ==>
                exists key :: IsOldest(old(View()).pending, key) && gone == {key}
                  && View() == Record(Evict(old(View()), key), stamp)
      ensures bytes == NextPacket(old(View()))
    {
      hide Inv, ChannelPacket, Record, IsOldest;
      gone := MakeRoom();
      IndexCovers(View());
      RecordKeeps(View(), stamp);
      bytes := BufferNext(stamp);
    }

    /** Third phase: everything not sent for 150 ms goes out again. */
    method ResendDue(now: int) returns (sends: seq<seq<byte>>)
      requires Valid()
      modifies this
      ensures Valid() && View() == Resend(old(View()), now)
      ensures exists order :: DueOnce(old(pendingReliable), now, order, sends)
    {
      hide Inv, Stamped, DueOnce;
      ResendKeeps(View(), now);
      var after: map<Key, PendingReliable>;
      after, sends := RestartDue(pendingReliable, now);
      pendingReliable := after;
    }
  }

  lemma IndexCovers(s: Sender)
    requires Inv(s)
    ensures s.index.Keys == s.pending.Keys && s.connectionNumber < 4
    ensures |s.pending.Keys| <= MAX_PENDING_RELIABLE_PER_PEER
  {}

  lemma EmptyInv(s: Sender)
    requires s.connectionNumber < 4
    requires s == Sender(s.connectionNumber, map[], map[], map[], [], map[], map[], map[], {}, {}, {})
    ensures Inv(s)
  {}

  lemma NothingTaken(s: Sender)
    requires s.taken == []
    ensures forall c: byte :: TakenOn(s.taken, c) == []
    ensures forall c: byte :: c !in s.outgoing ==> TookFront(s, s, c)
  {}

  ghost predicate IsOldest(pending: map<Key, PendingReliable>, key: Key) {
    && key in pending
    && forall other :: other in pending ==> pending[key].lastSent <= pending[other].lastSent
  }

  /** Some packet sent longest ago; ties may go either way. */
  method Oldest(pending: map<Key, PendingReliable>) returns (oldest: Key)
    requires pending.Keys != {}
    ensures IsOldest(pending, oldest)
  {
    var rest := pending.Keys;
    oldest :| oldest in rest;
    rest := rest - {oldest};
    while rest != {}
      invariant oldest in pending && rest <= pending.Keys
      invariant forall key :: key in pending && key !in rest ==> pending[oldest].lastSent <= pending[key].lastSent
      decreases rest
    {
      var key :| key in rest;
      if pending[key].lastSent < pending[oldest].lastSent { oldest := key; }
      rest := rest - {key};
    }
  }
}
