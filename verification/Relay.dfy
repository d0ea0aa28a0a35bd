/** Relaying avatar updates: the newest update of each sender wins, and each receiver gets it no
    more often than the interval for that sender allows. Times are in milliseconds. */
module Relay {
  import opened Bits
  import opened Ids
  import opened Wrappers

  type Packet = seq<byte>
  type Qualities = q: seq<Option<Packet>> | |q| == 4 witness [None, None, None, None]

  datatype Avatar = Avatar(
    generation: nat, lastInbound: byte, outbound: byte, receivedFirst: bool, qualities: Qualities)

  /** What a distance comes to: the quality to send, and how many milliseconds to add to the interval. */
  datatype Measure = Measure(quality: nat, intervalByte: byte)

  datatype Tracking = Tracking(lastSeen: nat, lastSent: int, quality: nat, intervalByte: byte, intervalMs: nat)

  /** A packet sent to a receiver. */
  datatype Sent = Sent(generation: nat, time: int, intervalByte: byte, packet: Packet)

  /** The relay, with two histories: the sequences accepted from each sender, and what went from a
      sender to a receiver since the receiver began to track the sender. */
  datatype RelayState = RelayState(
    states: map<PeerId, Avatar>, tracking: map<PeerId, map<PeerId, Tracking>>, generation: nat,
    accepted: map<PeerId, seq<byte>>, log: map<(PeerId, PeerId), seq<Sent>>)

  // --- Inbound ------------------------------------------------------------------------

  /** The 8-bit sequence is ahead of the last one, by less than half the number space. */
  predicate Newer(last: byte, sequence: byte) {
    var delta := (sequence - last) % 256;
    delta != 0 && delta < 128
  }

  /** For true numbers less than 128 apart, the wire test says exactly which is larger. */
  lemma NewerExactly(last: nat, number: nat)
    requires -128 < number - last < 128
    ensures Newer(last % 256, number % 256) <==> number > last
  {
    var delta := (number % 256 - last % 256) % 256;
    assert delta == (number - last) % 256;
  }

  function Accepted(r: RelayState, peer: PeerId): seq<byte> { if peer in r.accepted then r.accepted[peer] else [] }

  /** An update takes a generation whether it is accepted or not. `build` makes the packets that
      carry an outbound sequence, or fails. */
  function AfterUpdate(r: RelayState, peer: PeerId, sequence: byte, build: byte -> Option<Qualities>): RelayState {
    var next := r.(generation := r.generation + 1);
    if peer in r.states then
      var a := r.states[peer];
      if a.receivedFirst && !Newer(a.lastInbound, sequence) then next
      else
        var outbound := (a.outbound + 1) % 256;
        var built := build(outbound);
        var qualities := if built.Some? then built.value else a.qualities;
        next.(
          states := r.states[peer := Avatar(r.generation, sequence, outbound, true, qualities)],
          accepted := r.accepted[peer := Accepted(r, peer) + [sequence]])
    else if build(0).None? then next
    else next.(
      states := r.states[peer := Avatar(r.generation, sequence, 0, true, build(0).value)],
      accepted := r.accepted[peer := [sequence]])
  }

  // --- Outbound -----------------------------------------------------------------------

  function Log(r: RelayState, receiver: PeerId, sender: PeerId): seq<Sent> {
    if (receiver, sender) in r.log then r.log[(receiver, sender)] else []
  }

  predicate Tracks(r: RelayState, receiver: PeerId, sender: PeerId) {
    receiver in r.tracking && sender in r.tracking[receiver]
  }

  /** `base` is the default interval, at least one millisecond. */
  function Measured(t: Tracking, measure: Measure, base: nat): Tracking {
    t.(quality := measure.quality, intervalByte := measure.intervalByte, intervalMs := base + measure.intervalByte)
  }

  /** The tracking entry a tick works with: a new one counts as last sent a minute ago. */
  function Entry(
      r: RelayState, receiver: PeerId, sender: PeerId, now: int, measure: Measure, refresh: bool, base: nat): Tracking {
    if Tracks(r, receiver, sender) then
      var t := r.tracking[receiver][sender];
      if refresh then Measured(t, measure, base) else t
    else Measured(Tracking(0, now - 60000, 0, 0, 0), measure, base)
  }

  predicate Due(t: Tracking, a: Avatar, now: int, base: nat) {
    && t.quality < 4 && a.qualities[t.quality].Some?
    && a.generation > t.lastSeen
    && now - t.lastSent >= if t.intervalMs < base then base else t.intervalMs
  }

  function WithEntry(r: RelayState, receiver: PeerId, sender: PeerId, t: Tracking, log: seq<Sent>): RelayState {
    var inner := if receiver in r.tracking then r.tracking[receiver] else map[];
    r.(tracking := r.tracking[receiver := inner[sender := t]], log := r.log[(receiver, sender) := log])
  }

  /** What one sender has for one receiver now: one packet, or nothing. */
  function Sends(
      r: RelayState, receiver: PeerId, sender: PeerId, now: int, measure: Measure, refresh: bool, base: nat): seq<Sent>
    requires sender in r.states
  {
    var t, a := Entry(r, receiver, sender, now, measure, refresh, base), r.states[sender];
    if Due(t, a, now, base) then [Sent(a.generation, now, t.intervalByte, a.qualities[t.quality].value)] else []
  }

  /** One sender considered for one receiver. */
  function AfterVisit(
      r: RelayState, receiver: PeerId, sender: PeerId, now: int, measure: Measure, refresh: bool, base: nat): RelayState
    requires sender in r.states
  {
    var t := Entry(r, receiver, sender, now, measure, refresh, base);
    var log := if Tracks(r, receiver, sender) then Log(r, receiver, sender) else [];
    var sends := Sends(r, receiver, sender, now, measure, refresh, base);
    if sends != []
    then WithEntry(r, receiver, sender, t.(lastSeen := r.states[sender].generation, lastSent := now), log + sends)
    else WithEntry(r, receiver, sender, t, log)
  }

  function AfterRemove(r: RelayState, peer: PeerId): RelayState {
    r.(
      states := r.states - {peer},
      tracking := map receiver | receiver in r.tracking && receiver != peer :: r.tracking[receiver] - {peer})
  }

  datatype Event =
    | Update(peer: PeerId, sequence: byte, build: byte -> Option<Qualities>)
    | Visit(receiver: PeerId, sender: PeerId, now: int, measure: Measure, refresh: bool)
    | Remove(peer: PeerId)

  function Step(r: RelayState, e: Event, base: nat): RelayState {
    match e
    case Update(peer, sequence, build) => AfterUpdate(r, peer, sequence, build)
    case Visit(receiver, sender, now, measure, refresh) =>
      if sender in r.states then AfterVisit(r, receiver, sender, now, measure, refresh, base) else r
    case Remove(peer) => AfterRemove(r, peer)
  }

  const EMPTY: RelayState := RelayState(map[], map[], 1, map[], map[])

  function Run(events: seq<Event>, base: nat): RelayState {
    if events == [] then EMPTY else Step(Run(events[..|events| - 1], base), events[|events| - 1], base)
  }

  // --- What every run keeps -----------------------------------------------------------

  /** Each accepted sequence is 1 to 127 ahead of the one before it, modulo 256. */
  ghost predicate Advancing(sequences: seq<byte>) {
    forall i, j :: 0 <= i && j == i + 1 && j < |sequences| ==> Newer(sequences[i], sequences[j])
  }

  ghost predicate SenderKept(a: Avatar, accepted: seq<byte>) {
    && a.receivedFirst && accepted != [] && Advancing(accepted)
    && a.lastInbound == accepted[|accepted| - 1]
    && a.outbound == (|accepted| - 1) % 256
  }

  /** Later packets carry later generations, and each comes at least its own interval after those before it. */
  predicate Spaced(log: seq<Sent>, base: nat) {
    forall i, j :: 0 <= i < j < |log| ==>
      log[i].generation < log[j].generation && log[j].time - log[i].time >= base + log[j].intervalByte
  }

  ghost predicate PairKept(t: Tracking, log: seq<Sent>, base: nat) {
    && Spaced(log, base) && t.intervalMs == base + t.intervalByte
    && (log != [] ==> t.lastSeen == log[|log| - 1].generation && t.lastSent == log[|log| - 1].time)
  }

  ghost predicate SendersKept(r: RelayState) {
    forall peer :: peer in r.states ==> SenderKept(r.states[peer], Accepted(r, peer))
  }

  ghost predicate PairsKept(r: RelayState, base: nat) {
    forall receiver, sender :: Tracks(r, receiver, sender) ==>
      PairKept(r.tracking[receiver][sender], Log(r, receiver, sender), base)
  }

  lemma AdvancingStep(sequences: seq<byte>, sequence: byte)
    requires sequences != [] && Advancing(sequences) && Newer(sequences[|sequences| - 1], sequence)
    ensures Advancing(sequences + [sequence])
  {}

  lemma UpdateKeepsOne(r: RelayState, peer: PeerId, sequence: byte, build: byte -> Option<Qualities>)
    requires peer in r.states ==> SenderKept(r.states[peer], Accepted(r, peer))
    ensures var after := AfterUpdate(r, peer, sequence, build);
            peer in after.states ==> SenderKept(after.states[peer], Accepted(after, peer))
  {
    hide Newer, Advancing;
    if peer in r.states {
      var a, accepted := r.states[peer], Accepted(r, peer);
      if Newer(a.lastInbound, sequence) {
        AdvancingStep(accepted, sequence);
        SenderAdvances(|accepted|);
      }
    } else {
      FirstAdvances(sequence);
    }
  }

  lemma UpdateLeavesOthers(r: RelayState, peer: PeerId, sequence: byte, build: byte -> Option<Qualities>, p: PeerId)
    requires p != peer
    ensures var after := AfterUpdate(r, peer, sequence, build);
            && (p in after.states <==> p in r.states)
            && (p in r.states ==> after.states[p] == r.states[p] && Accepted(after, p) == Accepted(r, p))
  {
    hide Newer;
  }

  lemma UpdateKeepsSenders(r: RelayState, peer: PeerId, sequence: byte, build: byte -> Option<Qualities>)
    requires SendersKept(r)
    ensures SendersKept(AfterUpdate(r, peer, sequence, build))
  {
    hide SenderKept, AfterUpdate;
    var after := AfterUpdate(r, peer, sequence, build);
    forall p | p in after.states ensures SenderKept(after.states[p], Accepted(after, p)) {
      if p == peer {
        UpdateKeepsOne(r, peer, sequence, build);
      } else {
        UpdateLeavesOthers(r, peer, sequence, build, p);
      }
    }
  }

  lemma SenderAdvances(n: nat)
    requires n > 0
    ensures ((n - 1) % 256 + 1) % 256 == n % 256
  {}

  lemma FirstAdvances(sequence: byte)
    ensures Advancing([sequence])
  {}

  lemma SpacedStep(t: Tracking, log: seq<Sent>, sent: Sent, base: nat)
    requires PairKept(t, log, base)
    requires sent.generation > t.lastSeen && sent.time - t.lastSent >= t.intervalMs
        && sent.intervalByte == t.intervalByte
    ensures Spaced(log + [sent], base)
  {}

  lemma VisitKeepsPairs(
      r: RelayState, receiver: PeerId, sender: PeerId, now: int, measure: Measure, refresh: bool, base: nat)
    requires PairsKept(r, base) && sender in r.states
    ensures PairsKept(AfterVisit(r, receiver, sender, now, measure, refresh, base), base)
  {
    hide Spaced, Entry, Measured;
    var after := AfterVisit(r, receiver, sender, now, measure, refresh, base);
    var t, a := Entry(r, receiver, sender, now, measure, refresh, base), r.states[sender];
    var log := if Tracks(r, receiver, sender) then Log(r, receiver, sender) else [];
    EntryKept(r, receiver, sender, now, measure, refresh, base);
    if Due(t, a, now, base) {
      SpacedStep(t, log, Sent(a.generation, now, t.intervalByte, a.qualities[t.quality].value), base);
    }
    forall x, y | Tracks(after, x, y) ensures PairKept(after.tracking[x][y], Log(after, x, y), base) {
      if x != receiver || y != sender {
        assert Tracks(r, x, y) && Log(after, x, y) == Log(r, x, y);
      }
    }
  }

  lemma EntryKept(
      r: RelayState, receiver: PeerId, sender: PeerId, now: int, measure: Measure, refresh: bool, base: nat)
    requires PairsKept(r, base)
    ensures PairKept(Entry(r, receiver, sender, now, measure, refresh, base),
                     if Tracks(r, receiver, sender) then Log(r, receiver, sender) else [], base)
  {}

  lemma StepKeeps(r: RelayState, e: Event, base: nat)
    requires SendersKept(r) && PairsKept(r, base)
    ensures SendersKept(Step(r, e, base)) && PairsKept(Step(r, e, base), base)
  {
    hide SenderKept, PairKept, Newer;
    match e
    case Update(peer, sequence, build) =>
      UpdateKeepsSenders(r, peer, sequence, build);
      TrackingUntouched(r, AfterUpdate(r, peer, sequence, build), base);
    case Visit(receiver, sender, now, measure, refresh) =>
      if sender in r.states { VisitKeepsPairs(r, receiver, sender, now, measure, refresh, base); }
    case Remove(peer) =>
  }

  lemma TrackingUntouched(r: RelayState, after: RelayState, base: nat)
    requires PairsKept(r, base) && after.tracking == r.tracking && after.log == r.log
    ensures PairsKept(after, base)
  {}

  lemma {:induction false} RunKeeps(events: seq<Event>, base: nat)
    ensures SendersKept(Run(events, base)) && PairsKept(Run(events, base), base)
    decreases |events|
  {
    hide Step, SendersKept, PairsKept;
    if events == [] {
      EmptyKept(base);
    } else {
      RunKeeps(events[..|events| - 1], base);
      StepKeeps(Run(events[..|events| - 1], base), events[|events| - 1], base);
    }
  }

  lemma EmptyKept(base: nat)
    ensures SendersKept(EMPTY) && PairsKept(EMPTY, base)
  {}

  /** Over every run: the sequences accepted from a sender only advance, and its outbound sequence
      has risen by one for each of them after the first. */
  lemma NewestWins(events: seq<Event>, base: nat, peer: PeerId)
    requires peer in Run(events, base).states
    ensures var r := Run(events, base);
            && Advancing(Accepted(r, peer)) && Accepted(r, peer) != []
            && r.states[peer].outbound == (|Accepted(r, peer)| - 1) % 256
            && r.states[peer].lastInbound == Accepted(r, peer)[|Accepted(r, peer)| - 1]
  {
    hide Run;
    RunKeeps(events, base);
    assert SenderKept(Run(events, base).states[peer], Accepted(Run(events, base), peer));
  }

  /** Over every run: what a receiver gets of a sender it tracks has strictly rising generations,
      and each packet comes at least the default interval plus its own interval byte after those before it. */
  lemma ReceiversRateLimited(events: seq<Event>, base: nat, receiver: PeerId, sender: PeerId)
    requires Tracks(Run(events, base), receiver, sender)
    ensures Spaced(Log(Run(events, base), receiver, sender), base)
  {
    hide Run, Spaced;
    RunKeeps(events, base);
    var r := Run(events, base);
    assert PairKept(r.tracking[receiver][sender], Log(r, receiver, sender), base);
  }

  // --- Ticks --------------------------------------------------------------------------

  /** Several events from a state on. */
  function After(r: RelayState, events: seq<Event>, base: nat): RelayState {
    if events == [] then r else Step(After(r, events[..|events| - 1], base), events[|events| - 1], base)
  }

  /** Ticks are runs: what holds of every run holds at every point of one. */
  lemma {:induction false} RunsCompose(first: seq<Event>, later: seq<Event>, base: nat)
    ensures After(Run(first, base), later, base) == Run(first + later, base)
    decreases |later|
  {
    hide Step;
    if later == [] {
      assert first + later == first;
    } else {
      var front, last := later[..|later| - 1], later[|later| - 1];
      RunsCompose(first, front, base);
      assert (first + later)[..|first + later| - 1] == first + front;
    }
  }
}
