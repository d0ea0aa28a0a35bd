/** Which packets the relay sends, read off the events of a run alone: the newest update heard from
    a sender, and what a receiver has had of it. Event numbers stand where the relay keeps generations. */
module RelayDelivery {
  import opened Bits
  import opened Ids
  import opened Wrappers
  import opened Relay

  /** What the last accepted update of a sender left behind: its sequence, the outbound sequence, the
      packets of the newest build that succeeded, and which event it was. */
  datatype Heard = Heard(last: byte, outbound: byte, packets: Qualities, at: nat)

  function Newest(events: seq<Event>, sender: PeerId): Option<Heard>
    decreases |events|
  {
    if events == [] then None
    else
      var n := |events| - 1;
      var heard := Newest(events[..n], sender);
      match events[n]
      case Update(peer, sequence, build) =>
        if peer != sender then heard
        else if heard.None? then (if build(0).Some? then Some(Heard(sequence, 0, build(0).value, n)) else None)
        else if 0 < (sequence - heard.value.last) % 256 < 128 then
          var outbound := (heard.value.outbound + 1) % 256;
          var packets := if build(outbound).Some? then build(outbound).value else heard.value.packets;
          Some(Heard(sequence, outbound, packets, n))
        else heard
      case Remove(peer) => if peer == sender then None else heard
      case Visit(_, _, _, _, _) => heard
  }

  /** A sender as a receiver has it: the measure it goes by, the events that have passed up to the last
      packet, and the time of that packet. */
  datatype Served = Served(measure: Measure, since: nat, time: int)

  /** A receiver that has had nothing yet counts as served a minute ago. */
  function Facing(served: Option<Served>, now: int, measure: Measure, refresh: bool): Served {
    match served
    case None => Served(measure, 0, now - 60000)
    case Some(s) => if refresh then s.(measure := measure) else s
  }

  /** A packet is owed: there was an accepted update since the last packet, the sender has a packet
      of the quality, and the interval is over. */
  predicate Owed(heard: Heard, s: Served, now: int, base: nat) {
    && heard.at >= s.since
    && s.measure.quality < 4 && heard.packets[s.measure.quality].Some?
    && now - s.time >= base + s.measure.intervalByte
  }

  function Had(events: seq<Event>, base: nat, receiver: PeerId, sender: PeerId): Option<Served>
    decreases |events|
  {
    if events == [] then None
    else
      var n := |events| - 1;
      var served, heard := Had(events[..n], base, receiver, sender), Newest(events[..n], sender);
      match events[n]
      case Visit(r, s, now, measure, refresh) =>
        if r != receiver || s != sender || heard.None? then served
        else
          var facing := Facing(served, now, measure, refresh);
          if Owed(heard.value, facing, now, base) then Some(Served(facing.measure, n, now)) else Some(facing)
      case Remove(peer) => if peer == receiver || peer == sender then None else served
      case Update(_, _, _) => served
  }

  // --- The relay keeps just this ------------------------------------------------------

  function Updates(events: seq<Event>): nat {
    if events == [] then 0 else Updates(events[..|events| - 1]) + if events[|events| - 1].Update? then 1 else 0
  }

  lemma {:induction false} UpdatesGrow(events: seq<Event>, i: nat, j: nat)
    requires i <= j <= |events|
    ensures Updates(events[..i]) <= Updates(events[..j])
    ensures i < j && events[i].Update? ==> Updates(events[..i]) < Updates(events[..j])
    decreases j
  {
    if i < j {
      assert events[..j][..j - 1] == events[..j - 1];
      UpdatesGrow(events, i, j - 1);
    }
  }

  ghost predicate HeardRight(events: seq<Event>, r: RelayState, sender: PeerId) {
    && (sender in r.states <==> Newest(events, sender).Some?)
    && (sender in r.states ==>
          var a, h := r.states[sender], Newest(events, sender).value;
          && h.at < |events| && events[h.at].Update?
          && a.receivedFirst && a.lastInbound == h.last && a.outbound == h.outbound && a.qualities == h.packets
          && a.generation == 1 + Updates(events[..h.at]))
  }

  ghost predicate ServedRight(events: seq<Event>, base: nat, r: RelayState, receiver: PeerId, sender: PeerId) {
    && (Tracks(r, receiver, sender) <==> Had(events, base, receiver, sender).Some?)
    && (Tracks(r, receiver, sender) ==>
          var t, s := r.tracking[receiver][sender], Had(events, base, receiver, sender).value;
          && EntryRight(t, s, base) && s.since <= |events| && t.lastSeen <= Updates(events[..s.since])
          && (sender in r.states && Newest(events, sender).Some? && Newest(events, sender).value.at < s.since ==>
                r.states[sender].generation <= t.lastSeen))
  }

  predicate EntryRight(t: Tracking, s: Served, base: nat) {
    && t.quality == s.measure.quality && t.intervalByte == s.measure.intervalByte
    && t.intervalMs == base + s.measure.intervalByte && t.lastSent == s.time
  }

  lemma CountKept(events: seq<Event>, e: Event, base: nat)
    requires Run(events, base).generation == 1 + Updates(events)
    ensures Run(events + [e], base).generation == 1 + Updates(events + [e])
  {
    hide Run, Newer;
    RunOneMore(events, e, base);
    assert (events + [e])[..|events|] == events;
  }

  lemma RunOneMore(events: seq<Event>, e: Event, base: nat)
    ensures Run(events + [e], base) == Step(Run(events, base), e, base)
  {
    assert (events + [e])[..|events|] == events;
  }

  /** What the next event makes of what was heard. */
  lemma NewestNext(events: seq<Event>, e: Event, sender: PeerId)
    ensures (events + [e])[..|events|] == events && (events + [e])[|events|] == e
    ensures forall i: nat :: i <= |events| ==> (events + [e])[..i] == events[..i]
  {}

  lemma HeardAfterUpdate(
      events: seq<Event>, r: RelayState, peer: PeerId, sequence: byte, build: byte -> Option<Qualities>, sender: PeerId)
    requires r.generation == 1 + Updates(events) && HeardRight(events, r, sender)
    ensures HeardRight(events + [Update(peer, sequence, build)], AfterUpdate(r, peer, sequence, build), sender)
  {
    hide Updates;
    NewestNext(events, Update(peer, sequence, build), sender);
    if peer != sender {
      UpdateLeavesOthers(r, peer, sequence, build, sender);
      hide AfterUpdate;
    } else {
      HeardFrom(events, r, sequence, build, sender);
      hide HeardRight, AfterUpdate;
    }
  }

  lemma HeardFrom(
      events: seq<Event>, r: RelayState, sequence: byte, build: byte -> Option<Qualities>, sender: PeerId)
    requires r.generation == 1 + Updates(events) && HeardRight(events, r, sender)
    ensures HeardRight(events + [Update(sender, sequence, build)], AfterUpdate(r, sender, sequence, build), sender)
  {
    hide Updates;
    NewestNext(events, Update(sender, sequence, build), sender);
  }

  lemma HeardKept(events: seq<Event>, e: Event, r: RelayState, after: RelayState, sender: PeerId)
    requires HeardRight(events, r, sender) && !e.Update?
    requires after.states == if e.Remove? then r.states - {e.peer} else r.states
    ensures HeardRight(events + [e], after, sender)
  {
    hide Updates;
    NewestNext(events, e, sender);
  }

  lemma HeardNext(events: seq<Event>, e: Event, base: nat, sender: PeerId)
    requires Run(events, base).generation == 1 + Updates(events)
    requires HeardRight(events, Run(events, base), sender)
    ensures HeardRight(events + [e], Run(events + [e], base), sender)
  {
    hide Run, Updates, HeardRight, AfterUpdate;
    RunOneMore(events, e, base);
    match e
    case Update(peer, sequence, build) => HeardAfterUpdate(events, Run(events, base), peer, sequence, build, sender);
    case _ => HeardKept(events, e, Run(events, base), Run(events + [e], base), sender);
  }

  // --- Served pairs -------------------------------------------------------------------

  /** The entry a visit works with is what the receiver faces. */
  lemma EntryFaces(
      events: seq<Event>, r: RelayState, receiver: PeerId, sender: PeerId, now: int, measure: Measure, refresh: bool,
      base: nat)
    requires ServedRight(events, base, r, receiver, sender) && HeardRight(events, r, sender)
    ensures var t := Entry(r, receiver, sender, now, measure, refresh, base);
            var s := Facing(Had(events, base, receiver, sender), now, measure, refresh);
            && EntryRight(t, s, base) && s.since <= |events| && t.lastSeen <= Updates(events[..s.since])
            && (sender in r.states && Newest(events, sender).value.at < s.since ==>
                  r.states[sender].generation <= t.lastSeen)
  {}

  /** A later generation is an update accepted since. */
  lemma LaterIsSince(events: seq<Event>, at: nat, since: nat, lastSeen: nat)
    requires at < |events| && events[at].Update? && since <= |events| && lastSeen <= Updates(events[..since])
    requires at < since ==> 1 + Updates(events[..at]) <= lastSeen
    ensures 1 + Updates(events[..at]) > lastSeen <==> at >= since
  {
    hide Updates;
    if since <= at { UpdatesGrow(events, since, at); }
  }

  lemma DueIsOwed(
      events: seq<Event>, r: RelayState, receiver: PeerId, sender: PeerId, now: int, measure: Measure, refresh: bool,
      base: nat)
    requires ServedRight(events, base, r, receiver, sender) && HeardRight(events, r, sender) && sender in r.states
    ensures var facing := Facing(Had(events, base, receiver, sender), now, measure, refresh);
            Due(Entry(r, receiver, sender, now, measure, refresh, base), r.states[sender], now, base) <==>
              Owed(Newest(events, sender).value, facing, now, base)
  {
    hide Had, Newest, Entry, Facing, Updates, ServedRight;
    EntryFaces(events, r, receiver, sender, now, measure, refresh, base);
    var t := Entry(r, receiver, sender, now, measure, refresh, base);
    var s := Facing(Had(events, base, receiver, sender), now, measure, refresh);
    LaterIsSince(events, Newest(events, sender).value.at, s.since, t.lastSeen);
  }

  lemma HadAfterVisit(
      events: seq<Event>, base: nat, receiver: PeerId, sender: PeerId, now: int, measure: Measure, refresh: bool)
    requires Newest(events, sender).Some?
    ensures var more := events + [Visit(receiver, sender, now, measure, refresh)];
            var facing := Facing(Had(events, base, receiver, sender), now, measure, refresh);
            && Newest(more, sender) == Newest(events, sender)
            && Had(more, base, receiver, sender)
               == Some(if Owed(Newest(events, sender).value, facing, now, base)
                       then Served(facing.measure, |events|, now)
                       else facing)
  {
    hide Facing, Owed;
    NewestNext(events, Visit(receiver, sender, now, measure, refresh), sender);
  }

  lemma TrackedAfterVisit(
      r: RelayState, receiver: PeerId, sender: PeerId, now: int, measure: Measure, refresh: bool, base: nat)
    requires sender in r.states
    ensures var after := AfterVisit(r, receiver, sender, now, measure, refresh, base);
            var t := Entry(r, receiver, sender, now, measure, refresh, base);
            && after.states == r.states && Tracks(after, receiver, sender)
            && after.tracking[receiver][sender]
               == if Due(t, r.states[sender], now, base)
                  then t.(lastSeen := r.states[sender].generation, lastSent := now)
                  else t
  {
    hide Due, Entry;
  }

  lemma ServedAfterVisit(
      events: seq<Event>, r: RelayState, receiver: PeerId, sender: PeerId, now: int, measure: Measure, refresh: bool,
      base: nat)
    requires ServedRight(events, base, r, receiver, sender) && HeardRight(events, r, sender) && sender in r.states
    ensures ServedRight(events + [Visit(receiver, sender, now, measure, refresh)], base,
                        AfterVisit(r, receiver, sender, now, measure, refresh, base), receiver, sender)
  {
    hide Updates, Entry, Facing, Due, Owed, Newest, Had, AfterVisit, Tracks;
    NewestNext(events, Visit(receiver, sender, now, measure, refresh), sender);
    EntryFaces(events, r, receiver, sender, now, measure, refresh, base);
    DueIsOwed(events, r, receiver, sender, now, measure, refresh, base);
    HadAfterVisit(events, base, receiver, sender, now, measure, refresh);
    TrackedAfterVisit(r, receiver, sender, now, measure, refresh, base);
    UpdatesGrow(events, Newest(events, sender).value.at, |events|);
  }

  lemma ServedAfterUpdate(
      events: seq<Event>, r: RelayState, peer: PeerId, sequence: byte, build: byte -> Option<Qualities>, base: nat,
      receiver: PeerId, sender: PeerId)
    requires ServedRight(events, base, r, receiver, sender) && HeardRight(events, r, sender)
    ensures ServedRight(events + [Update(peer, sequence, build)], base, AfterUpdate(r, peer, sequence, build),
                        receiver, sender)
  {
    hide Updates, EntryRight;
    NewestNext(events, Update(peer, sequence, build), sender);
  }

  /** A visit to another pair. */
  lemma ServedElsewhere(events: seq<Event>, e: Event, r: RelayState, base: nat, receiver: PeerId, sender: PeerId)
    requires ServedRight(events, base, r, receiver, sender) && HeardRight(events, r, sender)
    requires e.Visit? && !(e.receiver == receiver && e.sender == sender && sender in r.states)
    ensures ServedRight(events + [e], base, Step(r, e, base), receiver, sender)
  {
    hide Updates, EntryRight, Entry, Due, Sends, Facing, Owed;
    NewestNext(events, e, sender);
  }

  lemma ServedAfterRemove(events: seq<Event>, peer: PeerId, r: RelayState, base: nat, receiver: PeerId, sender: PeerId)
    requires ServedRight(events, base, r, receiver, sender) && HeardRight(events, r, sender)
    ensures ServedRight(events + [Remove(peer)], base, AfterRemove(r, peer), receiver, sender)
  {
    hide Updates, EntryRight;
    NewestNext(events, Remove(peer), sender);
  }

  lemma ServedNext(events: seq<Event>, e: Event, base: nat, receiver: PeerId, sender: PeerId)
    requires ServedRight(events, base, Run(events, base), receiver, sender)
    requires HeardRight(events, Run(events, base), sender)
    ensures ServedRight(events + [e], base, Run(events + [e], base), receiver, sender)
  {
    hide Run, HeardRight, ServedRight, AfterUpdate, AfterVisit, AfterRemove;
    var r := Run(events, base);
    RunOneMore(events, e, base);
    match e
    case Update(peer, sequence, build) => ServedAfterUpdate(events, r, peer, sequence, build, base, receiver, sender);
    case Visit(x, y, now, measure, refresh) =>
      if x == receiver && y == sender && sender in r.states {
        ServedAfterVisit(events, r, receiver, sender, now, measure, refresh, base);
      } else {
        ServedElsewhere(events, e, r, base, receiver, sender);
      }
    case Remove(peer) => ServedAfterRemove(events, peer, r, base, receiver, sender);
  }

  lemma {:induction false} RunFollows(events: seq<Event>, base: nat, receiver: PeerId, sender: PeerId)
    ensures Run(events, base).generation == 1 + Updates(events)
    ensures HeardRight(events, Run(events, base), sender)
    ensures ServedRight(events, base, Run(events, base), receiver, sender)
    decreases |events|
  {
    if events != [] {
      hide Run, HeardRight, ServedRight, Updates;
      var front, e := events[..|events| - 1], events[|events| - 1];
      assert front + [e] == events;
      RunFollows(front, base, receiver, sender);
      CountKept(front, e, base);
      HeardNext(front, e, base, sender);
      ServedNext(front, e, base, receiver, sender);
    }
  }

  // --- What is sent -------------------------------------------------------------------

  /** In every run a visit to a sender that was heard of sends one packet if one is owed, and nothing
      otherwise: the packet, at the quality the receiver goes by, of the newest build that succeeded. */
  lemma VisitSendsWhatIsOwed(
      events: seq<Event>, base: nat, receiver: PeerId, sender: PeerId, now: int, measure: Measure, refresh: bool)
    ensures sender in Run(events, base).states <==> Newest(events, sender).Some?
    ensures Newest(events, sender).Some? ==>
              var heard := Newest(events, sender).value;
              var facing := Facing(Had(events, base, receiver, sender), now, measure, refresh);
              var sends := Sends(Run(events, base), receiver, sender, now, measure, refresh, base);
              if Owed(heard, facing, now, base) then
                && |sends| == 1 && sends[0].time == now && sends[0].intervalByte == facing.measure.intervalByte
                && sends[0].packet == heard.packets[facing.measure.quality].value
              else sends == []
  {
    hide Run, Newest, Had, Facing, Owed, Updates, ServedRight, Entry, Due;
    var r := Run(events, base);
    RunFollows(events, base, receiver, sender);
    if sender in r.states {
      DueIsOwed(events, r, receiver, sender, now, measure, refresh, base);
      EntryFaces(events, r, receiver, sender, now, measure, refresh, base);
      var facing := Facing(Had(events, base, receiver, sender), now, measure, refresh);
      OwedHasPacket(Newest(events, sender).value, facing, now, base);
    }
  }

  lemma OwedHasPacket(heard: Heard, s: Served, now: int, base: nat)
    ensures Owed(heard, s, now, base) ==> s.measure.quality < 4 && heard.packets[s.measure.quality].Some?
  {}
}
