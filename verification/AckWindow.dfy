/** Acknowledgement windows over 15-bit sequence numbers: the modular comparison, the 128-slot
    bitmap a receiver keeps per channel, and what a delivered ack packet covers. */
module AckWindow {
  const DEFAULT_WINDOW_SIZE: int := 128
  const MAX_SEQUENCE: int := 32768

  /** Sequence numbers as they travel on the wire. */
  type Wire = w: int | 0 <= w < 32768

  function ToWire(index: nat): Wire { index % MAX_SEQUENCE }

  function RelativeSequence(sequence: int, expected: int): int {
    var diff := sequence - expected;
    if diff <= -(MAX_SEQUENCE / 2) then diff + MAX_SEQUENCE
    else if diff >= MAX_SEQUENCE / 2 then diff - MAX_SEQUENCE
    else diff
  }

  /** The modular comparison of two unbounded numbers gives their true difference exactly when
      they are less than half the space apart, or exactly half apart with the later number
      having the smaller wire value. */
  lemma RelativeSequenceExact(s: nat, e: nat)
    ensures RelativeSequence(ToWire(s), ToWire(e)) == s - e
            <==> || -(MAX_SEQUENCE / 2) < s - e < MAX_SEQUENCE / 2
                 || (s - e == MAX_SEQUENCE / 2 && ToWire(s) < ToWire(e))
                 || (e - s == MAX_SEQUENCE / 2 && ToWire(e) < ToWire(s))
  {}

  /** Distance of `w` ahead of `start` on the circle of wire numbers. */
  function Ahead(w: Wire, start: Wire): (d: nat)
    ensures d < MAX_SEQUENCE
  {
    if w >= start then w - start else w - start + MAX_SEQUENCE
  }

  lemma InWindow(w: Wire, start: Wire)
    ensures 0 <= RelativeSequence(w, start) < DEFAULT_WINDOW_SIZE <==> Ahead(w, start) < DEFAULT_WINDOW_SIZE
    ensures RelativeSequence(w, start) >= 0 ==> RelativeSequence(w, start) == Ahead(w, start) <= MAX_SEQUENCE / 2
  {}

  /** What an ack says: a window start and the occupied slots of the 128-slot ring. */
  datatype AckView = AckView(start: Wire, slots: set<nat>)

  function Slot(w: Wire): (r: nat)
    ensures r < DEFAULT_WINDOW_SIZE
  {
    w % DEFAULT_WINDOW_SIZE
  }

  /** The sender's test whether an ack settles the packet with wire number `w`. */
  predicate Covers(ack: AckView, w: Wire) {
    var rel := RelativeSequence(w, ack.start);
    0 <= rel < DEFAULT_WINDOW_SIZE && Slot(w) in ack.slots
  }

  /** Slot `r` belongs to one of the `shift` numbers from `start` on. */
  predicate Slides(start: Wire, shift: nat, r: nat) {
    (r - start) % DEFAULT_WINDOW_SIZE < shift
  }

  /** Ring slots left behind when the window start moves forward by `shift`. */
  function SlidOut(start: Wire, shift: nat): set<nat> {
    set r | 0 <= r < DEFAULT_WINDOW_SIZE && Slides(start, shift, r)
  }

  function NewAck(sequence: Wire): AckView { AckView(sequence, {}) }

  /** The receiver's bookkeeping for one arrival. */
  function QueueAck(ack: AckView, sequence: Wire): AckView {
    var rel := RelativeSequence(sequence, ack.start);
    if rel < 0 then ack
    else if rel >= DEFAULT_WINDOW_SIZE then
      var shift := rel - DEFAULT_WINDOW_SIZE + 1;
      AckView((ack.start + shift) % MAX_SEQUENCE, (ack.slots - SlidOut(ack.start, shift)) + {Slot(sequence)})
    else AckView(ack.start, ack.slots + {Slot(sequence)})
  }

  /** The wire number `d` places ahead of `start`. */
  function Forward(start: Wire, d: nat): Wire { (start + d) % MAX_SEQUENCE }

  lemma AheadForward(start: Wire, d: nat)
    requires d < MAX_SEQUENCE
    ensures Ahead(Forward(start, d), start) == d
  {}

  /** The slot of a number `d` ahead of the start is `d` ahead of the start's slot. */
  lemma SlotAhead(w: Wire, start: Wire)
    ensures (Slot(w) - start) % DEFAULT_WINDOW_SIZE == Ahead(w, start) % DEFAULT_WINDOW_SIZE
  {}

  /** Two numbers of one window with one slot are the same number. */
  lemma SlotsSeparate(v: Wire, w: Wire, start: Wire)
    requires Ahead(v, start) < DEFAULT_WINDOW_SIZE && Ahead(w, start) < DEFAULT_WINDOW_SIZE
    requires Slot(v) == Slot(w)
    ensures v == w
  {}

  /** An occupied slot stands for exactly one number of the window. */
  lemma SlotStandsForOne(ack: AckView, r: nat) returns (w: Wire)
    requires r < DEFAULT_WINDOW_SIZE && r in ack.slots
    ensures Slot(w) == r && Covers(ack, w)
    ensures forall v: Wire :: Slot(v) == r && Covers(ack, v) ==> v == w
  {
    var d := (r - ack.start) % DEFAULT_WINDOW_SIZE;
    w := Forward(ack.start, d);
    AheadForward(ack.start, d);
    SlotAhead(w, ack.start);
    InWindow(w, ack.start);
    SameResidue(Slot(w), r, ack.start);
    forall v: Wire | Slot(v) == r && Covers(ack, v) ensures v == w {
      InWindow(v, ack.start);
      SlotsSeparate(v, w, ack.start);
    }
  }

  lemma SameResidue(a: nat, b: nat, start: int)
    requires a < DEFAULT_WINDOW_SIZE && b < DEFAULT_WINDOW_SIZE
    requires (a - start) % DEFAULT_WINDOW_SIZE == (b - start) % DEFAULT_WINDOW_SIZE
    ensures a == b
  {}

  /** After an arrival the ack covers what it covered before and the window still holds, plus
      the arrival itself unless it lies behind the window: nothing else, however far the
      window jumps and wherever the numbers wrap. */
  lemma QueueAckCovers(ack: AckView, sequence: Wire, w: Wire)
    ensures var after := QueueAck(ack, sequence);
            Covers(after, w) <==>
              if RelativeSequence(sequence, ack.start) < 0 then Covers(ack, w)
              else w == sequence || (Covers(ack, w) && RelativeSequence(w, after.start) >= 0)
  {
    var rel := RelativeSequence(sequence, ack.start);
    if rel >= 0 {
      InWindow(sequence, ack.start);
      InWindow(w, ack.start);
      if rel < DEFAULT_WINDOW_SIZE {
        if Ahead(w, ack.start) < DEFAULT_WINDOW_SIZE && Slot(w) == Slot(sequence) {
          SlotsSeparate(w, sequence, ack.start);
        }
      } else {
        var shift := rel - DEFAULT_WINDOW_SIZE + 1;
        JumpCovers(ack, sequence, w, shift);
      }
    }
  }

  /** Positions relative to a start moved forward by `shift`. */
  lemma AheadAfterShift(w: Wire, start: Wire, shift: nat)
    requires shift <= MAX_SEQUENCE / 2
    ensures var later := Forward(start, shift);
            Ahead(w, later) == if Ahead(w, start) >= shift then Ahead(w, start) - shift
                               else Ahead(w, start) - shift + MAX_SEQUENCE
  {}

  lemma SlidOutAhead(w: Wire, start: Wire, shift: nat)
    ensures Ahead(w, start) < DEFAULT_WINDOW_SIZE ==> (Slot(w) in SlidOut(start, shift) <==> Ahead(w, start) < shift)
    ensures DEFAULT_WINDOW_SIZE <= Ahead(w, start) < shift + DEFAULT_WINDOW_SIZE ==> Slot(w) in SlidOut(start, shift)
  {
    hide Ahead;
    SlotAhead(w, start);
  }

  lemma JumpCovers(ack: AckView, sequence: Wire, w: Wire, shift: nat)
    requires RelativeSequence(sequence, ack.start) == shift + DEFAULT_WINDOW_SIZE - 1
    requires shift >= 1
    ensures var after := QueueAck(ack, sequence);
            Covers(after, w) <==> w == sequence || (Covers(ack, w) && RelativeSequence(w, after.start) >= 0)
  {
    hide RelativeSequence, SlidOut, Slot, Ahead;
    var after := QueueAck(ack, sequence);
    InWindow(sequence, ack.start);
    InWindow(w, ack.start);
    InWindow(w, after.start);
    InWindow(sequence, after.start);
    AheadAfterShift(w, ack.start, shift);
    AheadAfterShift(sequence, ack.start, shift);
    SlidOutAhead(w, ack.start, shift);
    if Ahead(w, after.start) < DEFAULT_WINDOW_SIZE && Slot(w) == Slot(sequence) {
      SlotsSeparate(w, sequence, after.start);
    }
  }

  // --- The same protocol on unbounded numbers -------------------------------------------

  /** An ack window over unbounded numbers: its start and the numbers it acknowledges. */
  datatype TrueAck = TrueAck(start: nat, acked: set<nat>)

  function QueueTrueAck(ack: TrueAck, k: nat): TrueAck {
    if k < ack.start then ack
    else if k >= ack.start + DEFAULT_WINDOW_SIZE then
      var start := k - DEFAULT_WINDOW_SIZE + 1;
      TrueAck(start, (set q | q in ack.acked && q >= start) + {k})
    else TrueAck(ack.start, ack.acked + {k})
  }

  /** `ack` is the wire form of `truth`. */
  ghost predicate Represents(ack: AckView, truth: TrueAck) {
    && ack.start == ToWire(truth.start)
    && (forall q :: q in truth.acked ==> truth.start <= q < truth.start + DEFAULT_WINDOW_SIZE)
    && (forall w: Wire :: Covers(ack, w) <==> WireIn(w, truth.acked))
  }

  /** One of the numbers has wire form `w`. */
  ghost predicate WireIn(w: Wire, indices: set<nat>) {
    exists q :: q in indices && ToWire(q) == w
  }

  lemma WireApart(p: nat, q: nat)
    requires ToWire(p) == ToWire(q) && -MAX_SEQUENCE < p - q < MAX_SEQUENCE
    ensures p == q
  {}

  /** As long as an arrival is less than half the space from the window start, the modular
      receiver does what the receiver over unbounded numbers does. */
  lemma QueueAckRefines(ack: AckView, truth: TrueAck, k: nat)
    requires Represents(ack, truth)
    requires -(MAX_SEQUENCE / 2) < k - truth.start < MAX_SEQUENCE / 2
    ensures Represents(QueueAck(ack, ToWire(k)), QueueTrueAck(truth, k))
  {
    RelativeSequenceExact(k, truth.start);
    if k >= truth.start { StartsAgree(ack, truth, k); }
    forall w: Wire ensures Covers(QueueAck(ack, ToWire(k)), w) <==> WireIn(w, QueueTrueAck(truth, k).acked) {
      if k >= truth.start { RefinesAt(ack, truth, k, w); }
    }
  }

  lemma StartsAgree(ack: AckView, truth: TrueAck, k: nat)
    requires ack.start == ToWire(truth.start)
    requires truth.start <= k < truth.start + MAX_SEQUENCE / 2
    ensures QueueAck(ack, ToWire(k)).start == ToWire(QueueTrueAck(truth, k).start)
  {
    hide SlidOut, RelativeSequence, ToWire;
    RelativeSequenceExact(k, truth.start);
    if k >= truth.start + DEFAULT_WINDOW_SIZE {
      WireShift(truth.start, k - truth.start - DEFAULT_WINDOW_SIZE + 1);
    }
  }

  lemma WireShift(start: nat, shift: nat)
    ensures (ToWire(start) + shift) % MAX_SEQUENCE == ToWire(start + shift)
  {}

  lemma RefinesAt(ack: AckView, truth: TrueAck, k: nat, w: Wire)
    requires Represents(ack, truth)
    requires truth.start <= k < truth.start + MAX_SEQUENCE / 2
    ensures Covers(QueueAck(ack, ToWire(k)), w) <==> WireIn(w, QueueTrueAck(truth, k).acked)
  {
    hide RelativeSequence, SlidOut;
    RelativeSequenceExact(k, truth.start);
    QueueAckCovers(ack, ToWire(k), w);
    var later := QueueTrueAck(truth, k);
    StartsAgree(ack, truth, k);
    if w == ToWire(k) {
      assert k in later.acked;
    } else {
      hide QueueAck, Covers;
      forall q: nat | q in truth.acked
        ensures RelativeSequence(ToWire(q), ToWire(later.start)) >= 0 <==> q in later.acked
      {
        StillInWindow(q, truth.start, later.start);
      }
    }
  }

  lemma StillInWindow(q: nat, start: nat, later: nat)
    requires start <= q < start + DEFAULT_WINDOW_SIZE
    requires start <= later < start + MAX_SEQUENCE / 2
    ensures RelativeSequence(ToWire(q), ToWire(later)) >= 0 <==> q >= later
  {
    hide RelativeSequence, ToWire;
    RelativeSequenceExact(q, later);
  }

  /** A sender whose packet is within the 15-bit space of everything acknowledged reads the ack
      correctly. */
  lemma CoversRefines(ack: AckView, truth: TrueAck, p: nat)
    requires Represents(ack, truth)
    requires forall q :: q in truth.acked ==> -MAX_SEQUENCE < p - q < MAX_SEQUENCE
    ensures Covers(ack, ToWire(p)) <==> p in truth.acked
  {
    if Covers(ack, ToWire(p)) {
      var q :| q in truth.acked && ToWire(q) == ToWire(p);
      WireApart(p, q);
    }
  }

  // --- A list of arrivals ----------------------------------------------------------------

  /** The ack for a list of arrivals. */
  function WireAfter(arrivals: seq<nat>): AckView
    requires arrivals != []
  {
    var front, sequence := arrivals[..|arrivals| - 1], ToWire(arrivals[|arrivals| - 1]);
    QueueAck(if front == [] then NewAck(sequence) else WireAfter(front), sequence)
  }

  /** The same over unbounded numbers. */
  function TrueAfter(arrivals: seq<nat>): TrueAck
    requires arrivals != []
  {
    var front, k := arrivals[..|arrivals| - 1], arrivals[|arrivals| - 1];
    QueueTrueAck(if front == [] then TrueAck(k, {}) else TrueAfter(front), k)
  }

  /** Each arrival is less than half the space from the window start it finds. */
  predicate InStep(arrivals: seq<nat>) {
    |arrivals| <= 1
    || var front := arrivals[..|arrivals| - 1];
       InStep(front) && -(MAX_SEQUENCE / 2) < arrivals[|arrivals| - 1] - TrueAfter(front).start < MAX_SEQUENCE / 2
  }

  lemma FirstRefines(k: nat)
    ensures Represents(NewAck(ToWire(k)), TrueAck(k, {}))
  {}

  /** For any list of arrivals in step, the ack on the wire is the wire form of the unbounded one. */
  lemma {:induction false} ArrivalsRefine(arrivals: seq<nat>)
    requires arrivals != [] && InStep(arrivals)
    ensures Represents(WireAfter(arrivals), TrueAfter(arrivals))
  {
    hide Represents, QueueAck, QueueTrueAck, NewAck, ToWire;
    var front, k := arrivals[..|arrivals| - 1], arrivals[|arrivals| - 1];
    if front == [] {
      FirstRefines(k);
      QueueAckRefines(NewAck(ToWire(k)), TrueAck(k, {}), k);
    } else {
      ArrivalsRefine(front);
      QueueAckRefines(WireAfter(front), TrueAfter(front), k);
    }
  }

  /** The arrivals the ack still speaks of: those whose wire number has stayed in the window. */
  function Spoken(arrivals: seq<nat>): set<nat> {
    if arrivals == [] then {}
    else
      var front, k := arrivals[..|arrivals| - 1], arrivals[|arrivals| - 1];
      if front != [] && RelativeSequence(ToWire(k), WireAfter(front).start) < 0 then Spoken(front)
      else (set q | q in Spoken(front) && RelativeSequence(ToWire(q), WireAfter(arrivals).start) >= 0) + {k}
  }

  lemma {:induction false} SpokenArrived(arrivals: seq<nat>)
    ensures forall q :: q in Spoken(arrivals) ==> q in arrivals
  {
    if arrivals != [] { SpokenArrived(arrivals[..|arrivals| - 1]); }
  }

  /** For any arrivals at all, the ack covers the wire numbers of what it speaks of, and no others. */
  lemma {:induction false} SpokenCovered(arrivals: seq<nat>, w: Wire)
    requires arrivals != []
    ensures Covers(WireAfter(arrivals), w) <==> WireIn(w, Spoken(arrivals))
  {
    hide QueueAck, Covers, RelativeSequence, ToWire;
    var front, k := arrivals[..|arrivals| - 1], arrivals[|arrivals| - 1];
    var before := if front == [] then NewAck(ToWire(k)) else WireAfter(front);
    QueueAckCovers(before, ToWire(k), w);
    if front == [] {
      FreshCovers(ToWire(k), w);
      assert w == ToWire(k) ==> k in Spoken(arrivals);
    } else {
      SpokenCovered(front, w);
      if RelativeSequence(ToWire(k), before.start) >= 0 {
        if WireIn(w, Spoken(front)) {
          var q :| q in Spoken(front) && ToWire(q) == w;
          assert q in Spoken(arrivals) <==> RelativeSequence(w, WireAfter(arrivals).start) >= 0 || q == k;
        }
        assert k in Spoken(arrivals);
      }
    }
  }

  lemma FreshCovers(start: Wire, w: Wire)
    ensures !Covers(NewAck(start), w) && RelativeSequence(start, start) == 0
  {}

  /** In step, what the ack speaks of is what the unbounded ack acknowledges. */
  lemma {:induction false} SpokenIsTrue(arrivals: seq<nat>)
    requires arrivals != [] && InStep(arrivals)
    ensures Spoken(arrivals) == TrueAfter(arrivals).acked
  {
    hide RelativeSequence, Covers, QueueAck, ToWire;
    var front, k := arrivals[..|arrivals| - 1], arrivals[|arrivals| - 1];
    if front != [] {
      var start := TrueAfter(front).start;
      SpokenIsTrue(front);
      ArrivalsRefine(front);
      ArrivalsRefine(arrivals);
      SignAgrees(k, start);
      forall q | k >= start && q in Spoken(front)
        ensures RelativeSequence(ToWire(q), WireAfter(arrivals).start) >= 0 <==> q >= TrueAfter(arrivals).start
      {
        StillInWindow(q, start, TrueAfter(arrivals).start);
      }
    }
  }

  lemma SignAgrees(k: nat, start: nat)
    requires -(MAX_SEQUENCE / 2) < k - start < MAX_SEQUENCE / 2
    ensures RelativeSequence(ToWire(k), ToWire(start)) == k - start
  {
    RelativeSequenceExact(k, start);
  }
}
