/** Whole runs of one acknowledged channel over a network that loses, duplicates and reorders.
    Packets carry their true send index for the proofs; the protocol sees only wire numbers. */
module AckRuns {
  import opened AckWindow
  import opened Wrappers

  /** An ack, with the arrivals since the last drain that it was made from. */
  datatype Ack = Ack(view: AckView, arrivals: seq<nat>)

  /** The sender's buffer, what became of everything sent, and the receiver's ack state.
      Anything ever sent may still arrive, any number of times and in any order. */
  datatype Link<A> = Link(
    sent: set<nat>, pending: set<nat>, acked: set<nat>, evicted: set<nat>,
    received: set<nat>, queue: Option<A>, flying: set<A>)

  datatype Step<A> =
    | Send(k: nat)          // indices grow; other channels may use some up in between
    | Arrive(k: nat)        // server side: the arrival joins the queued ack
    | ArriveReply(k: nat)   // client side: the arrival is acked at once
    | Drain                 // the queued ack is sent and forgotten
    | AckArrives(ack: A)
    | Evict(k: nat)         // dropped from the buffer for lack of room or overwritten

  predicate Enabled<A(==)>(s: Link<A>, step: Step<A>) {
    match step
    case Send(k) => forall q :: q in s.sent ==> q < k
    case Arrive(k) => k in s.sent
    case ArriveReply(k) => k in s.sent
    case Drain => s.queue.Some?
    case AckArrives(ack) => ack in s.flying
    case Evict(k) => k in s.pending
  }

  /** What a step does, given what arrivals do to acks and what an ack settles. */
  function Take<A(==)>(s: Link<A>, step: Step<A>, first: A, noted: A, settled: set<nat>): Link<A> {
    match step
    case Send(k) => s.(sent := s.sent + {k}, pending := s.pending + {k})
    case Arrive(k) => s.(received := s.received + {k}, queue := Some(if s.queue.Some? then noted else first))
    case ArriveReply(k) => s.(received := s.received + {k}, flying := s.flying + {first})
    case Drain => if s.queue.Some? then s.(queue := None, flying := s.flying + {s.queue.value}) else s
    case AckArrives(_) => s.(pending := s.pending - settled, acked := s.acked + settled)
    case Evict(k) => s.(pending := s.pending - {k}, evicted := s.evicted + {k})
  }

  // --- The protocol on the wire -------------------------------------------------------

  const INIT: Link<Ack> := Link({}, {}, {}, {}, {}, None, {})

  function First(k: nat): Ack { Ack(QueueAck(NewAck(ToWire(k)), ToWire(k)), [k]) }

  function Note(ack: Ack, k: nat): Ack { Ack(QueueAck(ack.view, ToWire(k)), ack.arrivals + [k]) }

  function Settled(s: Link<Ack>, ack: Ack): set<nat> {
    set k | k in s.pending && Covers(ack.view, ToWire(k))
  }

  function Index(step: Step<Ack>): nat {
    match step
    case Arrive(k) => k
    case ArriveReply(k) => k
    case _ => 0
  }

  function Apply(s: Link<Ack>, step: Step<Ack>): Link<Ack> {
    var k := Index(step);
    Take(s, step, First(k), if s.queue.Some? then Note(s.queue.value, k) else First(k),
         if step.AckArrives? then Settled(s, step.ack) else {})
  }

  /** The steps can be taken one after the other. */
  predicate Runs(s: Link<Ack>, steps: seq<Step<Ack>>)
    decreases |steps|
  {
    steps == [] || (Enabled(s, steps[0]) && Runs(Apply(s, steps[0]), steps[1..]))
  }

  function Exec(s: Link<Ack>, steps: seq<Step<Ack>>): Link<Ack>
    decreases |steps|
  {
    if steps == [] then s else Exec(Apply(s, steps[0]), steps[1..])
  }

  // --- What every run keeps -----------------------------------------------------------

  /** The ack is the one for its arrivals, all of which were received. */
  predicate Truthful(ack: Ack, received: set<nat>) {
    && ack.arrivals != [] && ack.view == WireAfter(ack.arrivals)
    && forall q :: q in ack.arrivals ==> q in received
  }

  ghost predicate Inv(s: Link<Ack>) {
    && s.sent == s.pending + s.acked + s.evicted
    && s.pending !! s.acked && s.pending !! s.evicted && s.acked !! s.evicted
    && s.received <= s.sent
    && (s.queue.Some? ==> Truthful(s.queue.value, s.received))
    && (forall ack :: ack in s.flying ==> Truthful(ack, s.received))
    && (forall k :: k in s.acked ==> WireIn(ToWire(k), s.received))
  }

  lemma NoteTruthful(ack: Ack, k: nat, received: set<nat>)
    requires Truthful(ack, received)
    ensures Truthful(Note(ack, k), received + {k})
  {
    hide QueueAck, ToWire;
    assert (ack.arrivals + [k])[..|ack.arrivals|] == ack.arrivals;
  }

  lemma FirstTruthful(k: nat, received: set<nat>)
    ensures Truthful(First(k), received + {k})
  {
    hide QueueAck, ToWire;
    assert [k][..0] == [];
  }

  /** Every step keeps the invariant. */
  lemma StepKeeps(s: Link<Ack>, step: Step<Ack>)
    requires Inv(s) && Enabled(s, step)
    ensures Inv(Apply(s, step))
  {
    hide Note, First, Truthful, WireIn, ToWire, Covers;
    match step
    case Send(k) =>
    case Arrive(k) =>
      ReceiptsGrow(s, k);
      if s.queue.Some? { NoteTruthful(s.queue.value, k, s.received); }
      FirstTruthful(k, s.received);
    case ArriveReply(k) =>
      ReceiptsGrow(s, k);
      FirstTruthful(k, s.received);
    case Drain =>
    case AckArrives(ack) => SettledArrived(s, ack);
    case Evict(k) =>
  }

  lemma ReceiptsGrow(s: Link<Ack>, k: nat)
    requires Inv(s)
    ensures s.queue.Some? ==> Truthful(s.queue.value, s.received + {k})
    ensures forall ack :: ack in s.flying ==> Truthful(ack, s.received + {k})
    ensures forall q :: q in s.acked ==> WireIn(ToWire(q), s.received + {k})
  {}

  lemma SettledArrived(s: Link<Ack>, ack: Ack)
    requires Truthful(ack, s.received)
    ensures forall k :: k in Settled(s, ack) ==> WireIn(ToWire(k), s.received)
  {
    hide Covers, ToWire, QueueAck;
    forall k | k in Settled(s, ack) ensures WireIn(ToWire(k), s.received) {
      SpokenCovered(ack.arrivals, ToWire(k));
      SpokenArrived(ack.arrivals);
    }
  }

  lemma {:induction false} RunKeeps(s: Link<Ack>, steps: seq<Step<Ack>>)
    requires Inv(s) && Runs(s, steps)
    ensures Inv(Exec(s, steps))
    decreases |steps|
  {
    if steps != [] {
      StepKeeps(s, steps[0]);
      RunKeeps(Apply(s, steps[0]), steps[1..]);
    }
  }

  /** In every run, whatever the network does: each packet sent is still buffered, was evicted,
      or left on an ack after a packet with its wire number had arrived. */
  lemma AckSoundOnWire(steps: seq<Step<Ack>>, k: nat)
    requires Runs(INIT, steps)
    ensures var s := Exec(INIT, steps);
            k in s.sent ==> k in s.pending || k in s.evicted || WireIn(ToWire(k), s.received)
  {
    RunKeeps(INIT, steps);
  }

  /** A packet is buffered after a step if it was sent by it, or was buffered and neither evicted nor
      covered by an ack that arrived. */
  lemma BufferedExactly(s: Link<Ack>, step: Step<Ack>, k: nat)
    requires Inv(s) && Enabled(s, step)
    ensures k in Apply(s, step).pending <==>
              || step == Send(k)
              || (k in s.pending && step != Evict(k) && !(step.AckArrives? && Covers(step.ack.view, ToWire(k))))
    ensures k in Apply(s, step).received <==> k in s.received || step == Arrive(k) || step == ArriveReply(k)
    ensures k in Apply(s, step).sent <==> k in s.sent || step == Send(k)
    ensures k in Apply(s, step).evicted <==> k in s.evicted || step == Evict(k)
  {
    hide Covers, ToWire, First, Note;
  }

  // --- Acks and drains ----------------------------------------------------------------

  /** The arrivals of a run since its last drain, read off the steps. */
  function SinceDrain(before: seq<nat>, steps: seq<Step<Ack>>): seq<nat>
    decreases |steps|
  {
    if steps == [] then before
    else SinceDrain(
      if steps[0].Drain? then [] else if steps[0].Arrive? then before + [steps[0].k] else before, steps[1..])
  }

  lemma {:induction false} QueueFollows(s: Link<Ack>, steps: seq<Step<Ack>>, before: seq<nat>)
    requires Runs(s, steps)
    requires before == if s.queue.Some? then s.queue.value.arrivals else []
    requires s.queue.Some? ==> s.queue.value.arrivals != []
    ensures var t := Exec(s, steps);
            SinceDrain(before, steps) == if t.queue.Some? then t.queue.value.arrivals else []
    decreases |steps|
  {
    if steps != [] {
      hide QueueAck, ToWire, Covers;
      var next := if steps[0].Drain? then [] else if steps[0].Arrive? then before + [steps[0].k] else before;
      QueueFollows(Apply(s, steps[0]), steps[1..], next);
    }
  }

  /** In every run the queued ack is made from the arrivals since the last drain: a wire number it
      covers is that of one of them, and nothing from before the drain is left in it. */
  lemma QueueSpeaksSinceDrain(steps: seq<Step<Ack>>, w: Wire)
    requires Runs(INIT, steps)
    ensures var s, arrivals := Exec(INIT, steps), SinceDrain([], steps);
            && (s.queue.Some? <==> arrivals != [])
            && (s.queue.Some? ==> s.queue.value.view == WireAfter(arrivals))
            && (s.queue.Some? && Covers(s.queue.value.view, w) ==> exists q :: q in arrivals && ToWire(q) == w)
  {
    hide QueueAck, Covers, ToWire, Exec, Runs, SinceDrain;
    RunKeeps(INIT, steps);
    QueueFollows(INIT, steps, []);
    var arrivals := SinceDrain([], steps);
    if arrivals != [] {
      SpokenCovered(arrivals, w);
      SpokenArrived(arrivals);
    }
  }

  // --- Exactly when an ack is read as it was meant -------------------------------------

  /** No buffered packet that the ack does not speak of is a multiple of 32768 sends away from one
      that it does. */
  predicate Unaliased(pending: set<nat>, spoken: set<nat>) {
    forall k, q :: k in pending && k !in spoken && q in spoken ==> (k - q) % MAX_SEQUENCE != 0
  }

  lemma SameWire(k: nat, q: nat)
    ensures ToWire(k) == ToWire(q) <==> (k - q) % MAX_SEQUENCE == 0
  {}

  /** An ack settles exactly the buffered packets it speaks of, if and only if none is aliased. */
  lemma DeliveryExactIff(s: Link<Ack>, ack: Ack)
    requires Inv(s) && ack in s.flying
    ensures Settled(s, ack) == s.pending * Spoken(ack.arrivals) <==> Unaliased(s.pending, Spoken(ack.arrivals))
  {
    hide Covers, ToWire, QueueAck, Spoken;
    var spoken := Spoken(ack.arrivals);
    forall k | k in s.pending ensures k in Settled(s, ack) <==> WireIn(ToWire(k), spoken) {
      SpokenCovered(ack.arrivals, ToWire(k));
    }
    forall k, q | k in s.pending && q in spoken ensures ToWire(k) == ToWire(q) <==> (k - q) % MAX_SEQUENCE == 0 {
      SameWire(k, q);
    }
    if Settled(s, ack) == s.pending * spoken {
      forall k, q | k in s.pending && k !in spoken && q in spoken ensures (k - q) % MAX_SEQUENCE != 0 {
        assert k !in Settled(s, ack);
      }
    }
    if Unaliased(s.pending, spoken) {
      forall k | k in s.pending ensures k in Settled(s, ack) <==> k in spoken {
        if WireIn(ToWire(k), spoken) {
          var q :| q in spoken && ToWire(q) == ToWire(k);
        }
      }
    }
  }

  /** No ack of the run is aliased when it is delivered. */
  predicate UnaliasedRun(s: Link<Ack>, steps: seq<Step<Ack>>)
    decreases |steps|
  {
    steps == [] || (
      && (steps[0].AckArrives? ==> Unaliased(s.pending, Spoken(steps[0].ack.arrivals)))
      && UnaliasedRun(Apply(s, steps[0]), steps[1..]))
  }

  lemma {:induction false} UnaliasedKeeps(s: Link<Ack>, steps: seq<Step<Ack>>)
    requires Inv(s) && s.acked <= s.received
    requires Runs(s, steps) && UnaliasedRun(s, steps)
    ensures Exec(s, steps).acked <= Exec(s, steps).received
    decreases |steps|
  {
    if steps != [] {
      hide Unaliased, Note, First, Settled, Spoken;
      StepKeeps(s, steps[0]);
      if steps[0].AckArrives? {
        DeliveryExactIff(s, steps[0].ack);
        SpokenArrived(steps[0].ack.arrivals);
      }
      UnaliasedKeeps(Apply(s, steps[0]), steps[1..]);
    }
  }

  /** In every run without aliased deliveries, a packet leaves the buffer on an ack only if that
      very packet arrived. */
  lemma AckSound(steps: seq<Step<Ack>>)
    requires Runs(INIT, steps) && UnaliasedRun(INIT, steps)
    ensures Exec(INIT, steps).acked <= Exec(INIT, steps).received
  {
    UnaliasedKeeps(INIT, steps);
  }

  /** Packets less than 32768 sends from what an ack speaks of are never aliased. */
  lemma NearUnaliased(pending: set<nat>, spoken: set<nat>)
    requires forall k, q :: k in pending && q in spoken ==> -MAX_SEQUENCE < k - q < MAX_SEQUENCE
    ensures Unaliased(pending, spoken)
  {}

  lemma {:induction false} ShortRunUnaliased(s: Link<Ack>, steps: seq<Step<Ack>>)
    requires Inv(s) && Runs(s, steps)
    requires forall k :: k in Exec(s, steps).sent ==> k < MAX_SEQUENCE
    ensures UnaliasedRun(s, steps)
    ensures s.sent <= Exec(s, steps).sent
    decreases |steps|
  {
    if steps != [] {
      hide Unaliased, Note, First, Settled, Spoken, Covers;
      StepKeeps(s, steps[0]);
      ShortRunUnaliased(Apply(s, steps[0]), steps[1..]);
      if steps[0].AckArrives? {
        SpokenArrived(steps[0].ack.arrivals);
        NearUnaliased(s.pending, Spoken(steps[0].ack.arrivals));
      }
    }
  }

  /** Until 32768 indices have been used, nothing has to be assumed about timing at all. */
  lemma AckSoundBeforeWrap(steps: seq<Step<Ack>>)
    requires Runs(INIT, steps)
    requires forall k :: k in Exec(INIT, steps).sent ==> k < MAX_SEQUENCE
    ensures Exec(INIT, steps).acked <= Exec(INIT, steps).received
  {
    ShortRunUnaliased(INIT, steps);
    AckSound(steps);
  }

  // --- Refinement of the protocol over unbounded numbers -------------------------------

  /** The same protocol with acks over unbounded numbers. */
  function TrueApply(s: Link<TrueAck>, step: Step<TrueAck>): Link<TrueAck> {
    var k := match step case Arrive(k) => k case ArriveReply(k) => k case _ => 0;
    var first := QueueTrueAck(TrueAck(k, {}), k);
    Take(s, step, first, if s.queue.Some? then QueueTrueAck(s.queue.value, k) else first,
         if step.AckArrives? then s.pending * step.ack.acked else {})
  }

  function Meant(ack: Ack): TrueAck { if ack.arrivals == [] then TrueAck(0, {}) else TrueAfter(ack.arrivals) }

  function Abstract(s: Link<Ack>): Link<TrueAck> {
    Link(s.sent, s.pending, s.acked, s.evicted, s.received,
         if s.queue.Some? then Some(Meant(s.queue.value)) else None,
         set ack | ack in s.flying :: Meant(ack))
  }

  function AbstractStep(step: Step<Ack>): Step<TrueAck> {
    match step
    case Send(k) => Send(k)
    case Arrive(k) => Arrive(k)
    case ArriveReply(k) => ArriveReply(k)
    case Drain => Drain
    case AckArrives(ack) => AckArrives(Meant(ack))
    case Evict(k) => Evict(k)
  }

  predicate AcksInStep(s: Link<Ack>) {
    (s.queue.Some? ==> InStep(s.queue.value.arrivals)) && forall ack :: ack in s.flying ==> InStep(ack.arrivals)
  }

  /** The step stays within the number space: an arrival is less than half of it from the true
      window start, and a delivered ack is not aliased. */
  predicate InRange(s: Link<Ack>, step: Step<Ack>) {
    && (step.Arrive? && s.queue.Some? ==>
          -(MAX_SEQUENCE / 2) < step.k - Meant(s.queue.value).start < MAX_SEQUENCE / 2)
    && (step.AckArrives? ==> Unaliased(s.pending, Meant(step.ack).acked))
  }

  lemma NoteMeant(ack: Ack, k: nat)
    requires ack.arrivals != [] && InStep(ack.arrivals)
    requires -(MAX_SEQUENCE / 2) < k - Meant(ack).start < MAX_SEQUENCE / 2
    ensures InStep(Note(ack, k).arrivals) && Meant(Note(ack, k)) == QueueTrueAck(Meant(ack), k)
  {
    hide QueueTrueAck;
    assert (ack.arrivals + [k])[..|ack.arrivals|] == ack.arrivals;
  }

  lemma FirstMeant(k: nat)
    ensures InStep(First(k).arrivals) && Meant(First(k)) == QueueTrueAck(TrueAck(k, {}), k)
  {
    hide QueueTrueAck;
    assert [k][..0] == [];
  }

  lemma SettledMeant(s: Link<Ack>, ack: Ack)
    requires Inv(s) && ack in s.flying && InStep(ack.arrivals) && Unaliased(s.pending, Meant(ack).acked)
    ensures Settled(s, ack) == s.pending * Meant(ack).acked
  {
    hide Settled, Unaliased, Spoken, TrueAfter;
    SpokenIsTrue(ack.arrivals);
    DeliveryExactIff(s, ack);
  }

  /** One step within range on the wire is the same step of the unbounded protocol. */
  lemma StepRefines(s: Link<Ack>, step: Step<Ack>)
    requires Inv(s) && AcksInStep(s) && Enabled(s, step) && InRange(s, step)
    ensures AcksInStep(Apply(s, step))
    ensures Enabled(Abstract(s), AbstractStep(step))
    ensures Abstract(Apply(s, step)) == TrueApply(Abstract(s), AbstractStep(step))
  {
    hide Note, First, Meant, Settled, InStep, QueueTrueAck, Unaliased, WireIn, ToWire;
    match step
    case Send(k) =>
    case Arrive(k) =>
      FirstMeant(k);
      if s.queue.Some? { NoteMeant(s.queue.value, k); }
    case ArriveReply(k) => FirstMeant(k);
    case Drain =>
    case AckArrives(ack) => SettledMeant(s, ack);
    case Evict(k) =>
  }

  predicate RunInRange(s: Link<Ack>, steps: seq<Step<Ack>>)
    decreases |steps|
  {
    steps == [] || (InRange(s, steps[0]) && RunInRange(Apply(s, steps[0]), steps[1..]))
  }

  function TrueExec(s: Link<TrueAck>, steps: seq<Step<Ack>>): Link<TrueAck>
    decreases |steps|
  {
    if steps == [] then s else TrueExec(TrueApply(s, AbstractStep(steps[0])), steps[1..])
  }

  /** A whole run within range on the wire is a run of the unbounded protocol: the same packets
      stay buffered and leave on the same acks. */
  lemma {:induction false} RunRefines(s: Link<Ack>, steps: seq<Step<Ack>>)
    requires Inv(s) && AcksInStep(s) && Runs(s, steps) && RunInRange(s, steps)
    ensures Abstract(Exec(s, steps)) == TrueExec(Abstract(s), steps)
    decreases |steps|
  {
    if steps != [] {
      hide Abstract, AbstractStep, Apply, TrueApply, InRange, Enabled, AcksInStep;
      StepKeeps(s, steps[0]);
      StepRefines(s, steps[0]);
      RunRefines(Apply(s, steps[0]), steps[1..]);
    }
  }

  // --- Examples -----------------------------------------------------------------------

  lemma RunFrom(s: Link<Ack>, step: Step<Ack>, rest: seq<Step<Ack>>)
    requires Enabled(s, step) && Runs(Apply(s, step), rest)
    ensures Runs(s, [step] + rest)
    ensures Exec(s, [step] + rest) == Exec(Apply(s, step), rest)
  {}

  /** The condition cannot be dropped: an ack kept back for 32768 sends settles a packet that
      never arrived. */
  lemma StaleAckExample() returns (steps: seq<Step<Ack>>)
    ensures Runs(INIT, steps)
    ensures 32768 in Exec(INIT, steps).acked && 32768 !in Exec(INIT, steps).received
  {
    var s1 := Apply(INIT, Send(0));
    var s2 := Apply(s1, ArriveReply(0));
    var s3 := Apply(s2, Send(32768));
    var ack := First(0);
    QueueAckCovers(NewAck(ToWire(0)), ToWire(0), ToWire(0));
    FreshCovers(ToWire(0), ToWire(0));
    hide First, Covers;
    assert ToWire(32768) == ToWire(0);
    var last: seq<Step<Ack>> := [AckArrives(ack)];
    assert last == [AckArrives(ack)] + [];
    RunFrom(s3, AckArrives(ack), []);
    RunFrom(s2, Send(32768), last);
    RunFrom(s1, ArriveReply(0), [Send(32768)] + last);
    RunFrom(INIT, Send(0), [ArriveReply(0)] + ([Send(32768)] + last));
    steps := [Send(0)] + ([ArriveReply(0)] + ([Send(32768)] + last));
  }

  /** Acks do their work: the ack drained after an arrival settles the packet that arrived, if and
      only if the arrival was not behind the window of an ack already queued. */
  lemma DrainedAckSettlesIff(s: Link<Ack>, k: nat)
    requires Inv(s) && k in s.pending
    ensures var arrived := Apply(s, Arrive(k));
            var ack, sent := arrived.queue.value, Apply(arrived, Drain);
            && ack in sent.flying
            && (k !in Apply(sent, AckArrives(ack)).pending
                <==> s.queue.Some? ==> RelativeSequence(ToWire(k), s.queue.value.view.start) >= 0)
  {
    hide QueueAck, RelativeSequence, ToWire;
    var w := ToWire(k);
    FreshCovers(w, w);
    QueueAckCovers(if s.queue.Some? then s.queue.value.view else NewAck(w), w, w);
    if s.queue.Some? { BehindNotCovered(s.queue.value.view, w); }
  }

  lemma BehindNotCovered(ack: AckView, w: Wire)
    ensures Covers(ack, w) ==> RelativeSequence(w, ack.start) >= 0
  {}
}
