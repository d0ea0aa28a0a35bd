/** The avatar relay, updating its maps in place. */
module AvatarRelay {
  import opened Bits
  import opened Ids
  import opened Wrappers
  import opened Relay
  import P2p

  /** The newest update received from a sender since the last tick. */
  datatype Pending = Pending(sequence: byte, build: byte -> Option<Qualities>)

  function UpdateOf(peer: PeerId, pending: Pending): Event { Update(peer, pending.sequence, pending.build) }

  function UpdatesOf(order: seq<PeerId>, pending: map<PeerId, Pending>): (events: seq<Event>)
    requires forall i :: 0 <= i < |order| ==> order[i] in pending
    ensures |events| == |order|
    ensures forall i :: 0 <= i < |order| ==> events[i] == UpdateOf(order[i], pending[order[i]])
  {
    seq(|order|, i requires 0 <= i < |order| => UpdateOf(order[i], pending[order[i]]))
  }

  /** The senders a receiver is served, in order: not itself, nor one it exchanges updates with directly. */
  function VisitsOf(
      receiver: PeerId, order: seq<PeerId>, offloaded: set<nat>, now: int, measure: PeerId -> Measure,
      refresh: bool): seq<Event>
  {
    if order == [] then []
    else
      var front := VisitsOf(receiver, order[..|order| - 1], offloaded, now, measure, refresh);
      var sender := order[|order| - 1];
      if sender == receiver || P2p.PackPair(receiver, sender) in offloaded then front
      else front + [Visit(receiver, sender, now, measure(sender), refresh)]
  }

  /** The packets a list of visits sends. */
  function AllSends(r: RelayState, events: seq<Event>, base: nat): seq<Sent> {
    if events == [] then []
    else
      var front, last := events[..|events| - 1], events[|events| - 1];
      var before := After(r, front, base);
      AllSends(r, front, base) +
        if last.Visit? && last.sender in before.states
        then Sends(before, last.receiver, last.sender, last.now, last.measure, last.refresh, base) else []
  }

  lemma AfterOneMore(r: RelayState, events: seq<Event>, e: Event, base: nat)
    ensures After(r, events + [e], base) == Step(After(r, events, base), e, base)
    ensures AllSends(r, events + [e], base) == AllSends(r, events, base)
      + if e.Visit? && e.sender in After(r, events, base).states
        then Sends(After(r, events, base), e.receiver, e.sender, e.now, e.measure, e.refresh, base) else []
  {}

  lemma NoVisits(
      receiver: PeerId, offloaded: set<nat>, now: int, measure: PeerId -> Measure, refresh: bool, r: RelayState,
      base: nat)
    ensures VisitsOf(receiver, [], offloaded, now, measure, refresh) == []
    ensures After(r, [], base) == r && AllSends(r, [], base) == []
  {}

  lemma VisitNext(
      receiver: PeerId, order: seq<PeerId>, i: nat, offloaded: set<nat>, now: int, measure: PeerId -> Measure,
      refresh: bool)
    requires i < |order|
    ensures var front, sender := VisitsOf(receiver, order[..i], offloaded, now, measure, refresh), order[i];
            VisitsOf(receiver, order[..i + 1], offloaded, now, measure, refresh)
            == if sender == receiver || P2p.PackPair(receiver, sender) in offloaded then front
               else front + [Visit(receiver, sender, now, measure(sender), refresh)]
  {
    assert order[..i + 1][..i] == order[..i];
  }

  lemma NoUpdates(r: RelayState, pending: map<PeerId, Pending>, base: nat)
    ensures After(r, UpdatesOf([], pending), base) == r
  {}

  lemma OneMoreUpdate(r: RelayState, order: seq<PeerId>, pending: map<PeerId, Pending>, peer: PeerId, base: nat)
    requires peer in pending && forall i :: 0 <= i < |order| ==> order[i] in pending
    ensures After(r, UpdatesOf(order + [peer], pending), base)
         == AfterUpdate(After(r, UpdatesOf(order, pending), base), peer, pending[peer].sequence, pending[peer].build)
  {
    hide AfterUpdate, After;
    var events, e := UpdatesOf(order, pending), UpdateOf(peer, pending[peer]);
    assert UpdatesOf(order + [peer], pending) == events + [e];
    AfterOneMore(r, events, e, base);
  }

  class AvatarRelay {
    var states: map<PeerId, Avatar>
    var pending: map<PeerId, Pending>
    var tracking: map<PeerId, map<PeerId, Tracking>>
    var generation: nat
    ghost var accepted: map<PeerId, seq<byte>>
    ghost var log: map<(PeerId, PeerId), seq<Sent>>

    ghost function State(): RelayState
      reads this
    {
      RelayState(states, tracking, generation, accepted, log)
    }

    constructor ()
      ensures State() == EMPTY && pending == map[]
    {
      states, pending, tracking, generation := map[], map[], map[], 1;
      accepted, log := map[], map[];
    }

    /** A newer update takes the place of one still waiting. */
    method Upsert(peer: PeerId, update: Pending)
      modifies this`pending
      ensures pending == old(pending)[peer := update]
    {
      pending := pending[peer := update];
    }

    method ProcessUpdate(peer: PeerId, update: Pending)
      modifies this`states, this`generation, this`accepted
      ensures State() == AfterUpdate(old(State()), peer, update.sequence, update.build)
    {
      var taken := generation;
      generation := generation + 1;
      if peer in states {
        var current := states[peer];
        if current.receivedFirst {
          var delta := (update.sequence - current.lastInbound) % 256;
          if delta == 0 || delta >= 128 { return; }
        }
        var outbound := (current.outbound + 1) % 256;
        current := current.(
          lastInbound := update.sequence, outbound := outbound, receivedFirst := true, generation := taken);
        var built := update.build(outbound);
        if built.Some? {
          current := current.(qualities := built.value);
        }
        accepted := accepted[peer := Accepted(State(), peer) + [update.sequence]];
        states := states[peer := current];
        return;
      }
      var first := update.build(0);
      if first.Some? {
        states := states[peer := Avatar(taken, update.sequence, 0, true, first.value)];
        accepted := accepted[peer := [update.sequence]];
      }
    }

    /** Takes all waiting updates, in some order. */
    method ProcessPendingUpdates(base: nat) returns (count: nat, ghost order: seq<PeerId>)
      modifies this
      ensures pending == map[] && count == |order|
      ensures forall peer :: peer in old(pending) <==> peer in order
      ensures forall i, j :: 0 <= i < j < |order| ==> order[i] != order[j]
      ensures State() == After(old(State()), UpdatesOf(order, old(pending)), base)
    {
      hide AfterUpdate, After, UpdatesOf, UpdateOf;
      var rest := pending;
      NoUpdates(State(), pending, base);
      pending := map[];
      count, order := 0, [];
      while rest != map[]
        invariant pending == map[] && count == |order|
        invariant forall peer :: peer in old(pending) <==> peer in order || peer in rest
        invariant forall peer :: peer in rest ==> peer !in order && rest[peer] == old(pending)[peer]
        invariant forall i, j :: 0 <= i < j < |order| ==> order[i] != order[j]
        invariant State() == After(old(State()), UpdatesOf(order, old(pending)), base)
        decreases |rest.Keys|
      {
        NotEmpty(rest);
        var peer :| peer in rest;
        OneMoreUpdate(old(State()), order, old(pending), peer, base);
        ProcessUpdate(peer, rest[peer]);
        order := order + [peer];
        assert (rest - {peer}).Keys == rest.Keys - {peer};
        rest := rest - {peer};
        count := count + 1;
      }
    }

    method VisitSender(receiver: PeerId, sender: PeerId, now: int, measure: Measure, refresh: bool, base: nat)
      returns (sends: seq<Sent>)
      requires sender in states
      modifies this`tracking, this`log
      ensures State() == AfterVisit(old(State()), receiver, sender, now, measure, refresh, base)
      ensures sends == Sends(old(State()), receiver, sender, now, measure, refresh, base)
    {
      var inner := if receiver in tracking then tracking[receiver] else map[];
      ghost var known := if sender in inner then Log(State(), receiver, sender) else [];
      var entry := Tracking(0, now - 60000, measure.quality, measure.intervalByte, base + measure.intervalByte);
      if sender in inner { entry := inner[sender]; }
      if refresh {
        entry := entry.(
          quality := measure.quality, intervalByte := measure.intervalByte, intervalMs := base + measure.intervalByte);
      }
      var avatar := states[sender];
      sends := [];
      var required := if entry.intervalMs < base then base else entry.intervalMs;
      if entry.quality < 4 && avatar.qualities[entry.quality].Some? && avatar.generation > entry.lastSeen
          && now - entry.lastSent >= required {
        entry := entry.(lastSeen := avatar.generation, lastSent := now);
        sends := [Sent(avatar.generation, now, entry.intervalByte, avatar.qualities[entry.quality].value)];
      }
      assert known + [] == known;
      tracking := tracking[receiver := inner[sender := entry]];
      log := log[(receiver, sender) := known + sends];
    }

    /** Serves one receiver; every sender in `order` has a state. */
    method BuildSendsForReceiver(
        receiver: PeerId, order: seq<PeerId>, offloaded: set<nat>, now: int, measure: PeerId -> Measure, refresh: bool,
        base: nat)
      returns (sends: seq<Sent>)
      requires forall i :: 0 <= i < |order| ==> order[i] in states
      modifies this`tracking, this`log
      ensures State() == After(old(State()), VisitsOf(receiver, order, offloaded, now, measure, refresh), base)
      ensures sends == AllSends(old(State()), VisitsOf(receiver, order, offloaded, now, measure, refresh), base)
    {
      hide AfterVisit, Sends, P2p.PackPair, After, AllSends, VisitsOf, Entry, Due;
      sends := [];
      NoVisits(receiver, offloaded, now, measure, refresh, State(), base);
      for i := 0 to |order|
        invariant State() == After(old(State()), VisitsOf(receiver, order[..i], offloaded, now, measure, refresh), base)
        invariant sends
            == AllSends(old(State()), VisitsOf(receiver, order[..i], offloaded, now, measure, refresh), base)
        invariant states == old(states)
      {
        var sender := order[i];
        ghost var front := VisitsOf(receiver, order[..i], offloaded, now, measure, refresh);
        VisitNext(receiver, order, i, offloaded, now, measure, refresh);
        if sender == receiver || P2p.PackPair(receiver, sender) in offloaded { continue; }
        AfterOneMore(old(State()), front, Visit(receiver, sender, now, measure(sender), refresh), base);
        var sent := VisitSender(receiver, sender, now, measure(sender), refresh, base);
        sends := sends + sent;
      }
      assert order[..|order|] == order;
    }

    method RemovePlayer(peer: PeerId)
      modifies this
      ensures State() == AfterRemove(old(State()), peer)
      ensures pending == old(pending) - {peer}
    {
      states := states - {peer};
      pending := pending - {peer};
      tracking := tracking - {peer};
      var receivers := tracking.Keys;
      while receivers != {}
        invariant receivers <= tracking.Keys == old(tracking).Keys - {peer}
        invariant forall receiver :: receiver in tracking ==>
          tracking[receiver]
            == if receiver in receivers then old(tracking)[receiver] else old(tracking)[receiver] - {peer}
        invariant unchanged(`generation) && unchanged(`accepted) && unchanged(`log)
        invariant states == old(states) - {peer} && pending == old(pending) - {peer}
      {
        var receiver :| receiver in receivers;
        tracking := tracking[receiver := tracking[receiver] - {peer}];
        receivers := receivers - {receiver};
      }
    }
  }

  lemma NotEmpty(m: map<PeerId, Pending>)
    requires m != map[]
    ensures exists peer :: peer in m
  {}
}
