/** Round-robin slices of the receivers, whose number adapts to the time ticks take. */
module Scheduler {

  const MAX_SLICE_COUNT: nat := 32

  datatype Config = Config(minSlices: nat, maxSlices: nat, tickBudget: nat, cycleBudget: nat)

  /** What configurations read from the environment satisfy. */
  predicate ValidConfig(c: Config) { 1 <= c.minSlices <= c.maxSlices <= MAX_SLICE_COUNT }

  /** The slice range of a configuration as adapting sees it. */
  function MinSlices(c: Config): nat { if c.minSlices < 1 then 1 else c.minSlices }

  function MaxSlices(c: Config): nat {
    var wide := if c.maxSlices < MinSlices(c) then MinSlices(c) else c.maxSlices;
    if wide < MAX_SLICE_COUNT then wide else MAX_SLICE_COUNT
  }

  function Clamp(x: nat, lo: nat, hi: nat): (r: nat)
    requires lo <= hi
    ensures lo <= r <= hi
  {
    if x < lo then lo else if x > hi then hi else x
  }

  // --- Slices -------------------------------------------------------------------------

  /** Receivers `start` up to `end` out of `receivers`. */
  datatype Slice = Slice(start: nat, end: nat)

  function CeilDiv(a: nat, b: nat): (q: nat)
    requires b > 0
    ensures q * b >= a && (a > 0 ==> (q - 1) * b < a)
  {
    (a + b - 1) / b
  }

  function SliceOf(index: nat, count: nat, receivers: nat): (s: Slice)
    requires count > 0
    ensures s.start <= s.end <= receivers
  {
    var size := CeilDiv(receivers, count);
    var start := if index * size < receivers then index * size else receivers;
    Slice(start, if start + size < receivers then start + size else receivers)
  }

  predicate Covers(s: Slice, r: nat) { s.start <= r < s.end }

  /** The slice with as many whole slices before it as fit before the receiver. */
  function Own(count: nat, receivers: nat, r: nat): nat
    requires count > 0 && r < receivers
  {
    var size := CeilDiv(receivers, count);
    if size == 0 then 0 else r / size
  }

  /** A receiver is in its own slice and in no other. */
  lemma CoveredOnce(index: nat, count: nat, receivers: nat, r: nat)
    requires count > 0 && r < receivers
    ensures Own(count, receivers, r) < count
    ensures Covers(SliceOf(index, count, receivers), r) <==> index == Own(count, receivers, r)
  {
    hide CeilDiv;
    var size := CeilDiv(receivers, count);
    if size == 0 { Cancels(count); }
    var q := r / size;
    QuotientBounds(r, size);
    Commutes(count, size);
    SliceBounds(index, count, size, receivers, r, q);
  }

  /** What is left when all products are known. */
  lemma SliceBounds(index: nat, count: nat, size: nat, receivers: nat, r: nat, q: nat)
    requires q * size <= r < q * size + size && r < receivers <= count * size
    ensures q < count
    ensures var start := if index * size < receivers then index * size else receivers;
            var end := if start + size < receivers then start + size else receivers;
            start <= r < end <==> index == q
  {
    if q > count { Times(count, q, size); }
    if index < q {
      Times(index, q, size);
    } else if index > q {
      Times(q, index, size);
    }
  }

  lemma Cancels(count: nat)
    ensures 0 * count == 0
  {}

  lemma Commutes(a: nat, b: nat)
    ensures a * b == b * a
  {}

  lemma QuotientBounds(r: nat, size: nat)
    requires size > 0
    ensures (r / size) * size <= r < (r / size) * size + size
  {}

  lemma {:induction false} Times(a: nat, b: nat, size: nat)
    requires a < b
    ensures a * size + size <= b * size
    decreases b
  {
    if a + 1 < b { Times(a, b - 1, size); }
    assert b * size == (b - 1) * size + size;
  }

  /** A number has one remainder. */
  lemma RemainderIs(x: nat, q: nat, r: nat, n: nat)
    requires r < n && x == q * n + r
    ensures x % n == r
  {
    var p, m := x / n, x % n;
    assert x == p * n + m;
    if p < q {
      Times(p, q, n);
    } else if p > q {
      Times(q, p, n);
    }
  }

  lemma SmallRemainder(x: nat, n: nat)
    requires x < n
    ensures x % n == x
  {
    Cancels(n);
    RemainderIs(x, 0, x, n);
  }

  lemma NextRemainder(x: nat, n: nat)
    requires n > 0
    ensures (x + 1) % n == if x % n + 1 == n then 0 else x % n + 1
  {
    var q, m := x / n, x % n;
    assert x == q * n + m;
    if m + 1 == n {
      assert (q + 1) * n == q * n + n;
      RemainderIs(x + 1, q + 1, 0, n);
    } else {
      RemainderIs(x + 1, q, m + 1, n);
    }
  }

  // --- Ticks --------------------------------------------------------------------------

  datatype Slices = Slices(count: nat, index: nat)

  /** The number of the slice whose turn it is. */
  function Current(s: Slices): (i: nat)
    requires s.count > 0
    ensures i < s.count
  {
    s.index % s.count
  }

  /** The receivers served by a tick. */
  function TickSlice(s: Slices, receivers: nat): Slice
    requires s.count > 0
  {
    SliceOf(Current(s), s.count, receivers)
  }

  function AfterAdvance(s: Slices): Slices
    requires s.count > 0
  {
    Slices(s.count, (s.index + 1) % s.count)
  }

  /** The state after `k` ticks that keep the number of slices. */
  function AfterTicks(s: Slices, k: nat): (t: Slices)
    requires s.count > 0
    ensures t.count == s.count
  {
    if k == 0 then s else AfterAdvance(AfterTicks(s, k - 1))
  }

  /** Over one turn the slices rise by one and start again at zero. */
  lemma {:induction false} CurrentAfter(s: Slices, k: nat)
    requires s.count > 0 && k < s.count
    ensures Current(AfterTicks(s, k))
      == if Current(s) + k < s.count then Current(s) + k else Current(s) + k - s.count
  {
    if k > 0 {
      hide Current;
      CurrentAfter(s, k - 1);
      CurrentNext(AfterTicks(s, k - 1));
    }
  }

  lemma CurrentNext(s: Slices)
    requires s.count > 0
    ensures Current(AfterAdvance(s)) == if Current(s) + 1 == s.count then 0 else Current(s) + 1
  {
    NextRemainder(s.index, s.count);
    SmallRemainder((s.index + 1) % s.count, s.count);
  }

  /** A tick serves a receiver exactly when it is the turn of the receiver's own slice. */
  lemma ServedInOwnSlice(s: Slices, receivers: nat, r: nat)
    requires s.count > 0 && r < receivers
    ensures Own(s.count, receivers, r) < s.count
    ensures Covers(TickSlice(s, receivers), r) <==> Current(s) == Own(s.count, receivers, r)
  {
    hide SliceOf, CeilDiv, Covers, Current;
    CoveredOnce(Current(s), s.count, receivers, r);
  }

  /** With the number of slices and of receivers fixed, as many consecutive ticks as there are slices
      serve every receiver exactly once, whatever tick comes first. */
  lemma TurnServesOnce(s: Slices, receivers: nat, r: nat) returns (tick: nat)
    requires s.count > 0 && r < receivers
    ensures tick < s.count
    ensures forall k: nat :: k < s.count ==> (Covers(TickSlice(AfterTicks(s, k), receivers), r) <==> k == tick)
  {
    hide TickSlice, Own, Covers, AfterTicks, Current;
    var own := Own(s.count, receivers, r);
    ServedInOwnSlice(s, receivers, r);
    tick := if own >= Current(s) then own - Current(s) else own - Current(s) + s.count;
    forall k: nat | k < s.count ensures Covers(TickSlice(AfterTicks(s, k), receivers), r) <==> k == tick {
      CurrentAfter(s, k);
      ServedInOwnSlice(AfterTicks(s, k), receivers, r);
    }
  }

  // --- Adapting -----------------------------------------------------------------------

  const U64_MAX: nat := 0xFFFF_FFFF_FFFF_FFFF

  function Saturating(x: nat): nat { if x > U64_MAX then U64_MAX else x }

  /** The time a turn of `count` ticks takes. */
  function CycleTime(smoothed: nat, count: nat): nat { Saturating(smoothed * count) }

  /** Three quarters of the tick budget. */
  function EasyBudget(c: Config): nat { Saturating(c.tickBudget * 3) / 4 }

  lemma EasyIsLess(c: Config)
    ensures EasyBudget(c) <= c.tickBudget
  {}

  /** The number of slices after a tick; at most one more or fewer than before. */
  function NextCount(count: nat, elapsed: nat, smoothed: nat, c: Config): (next: nat)
    ensures MinSlices(c) <= count <= MaxSlices(c) ==> MinSlices(c) <= next <= MaxSlices(c)
    ensures count - 1 <= next <= count + 1
    ensures next > count ==> elapsed > c.tickBudget
    ensures next < count ==> CycleTime(smoothed, count) > c.cycleBudget || elapsed < c.tickBudget
  {
    EasyIsLess(c);
    if CycleTime(smoothed, count) > c.cycleBudget then
      if elapsed > c.tickBudget && count < MaxSlices(c) then count + 1
      else if count > MinSlices(c) then count - 1
      else count
    else if elapsed < EasyBudget(c) && count > MinSlices(c) then count - 1
    else if elapsed > c.tickBudget && CycleTime(smoothed, count + 1) <= c.cycleBudget && count < MaxSlices(c)
    then count + 1
    else count
  }

  /** The index is brought below the new count only when adapting itself changed the count. */
  function AfterAdapt(s: Slices, elapsed: nat, smoothed: nat, c: Config): Slices
    requires ValidConfig(c)
  {
    var clamped := Clamp(s.count, MinSlices(c), MaxSlices(c));
    var next := NextCount(clamped, elapsed, smoothed, c);
    if next != clamped then Slices(next, s.index % (if next < 1 then 1 else next)) else Slices(clamped, s.index)
  }

  function AfterConfig(s: Slices, c: Config): Slices
    requires ValidConfig(c)
  {
    var count := Clamp(s.count, c.minSlices, c.maxSlices);
    Slices(count, s.index % (if count < 1 then 1 else count))
  }

  /** A new configuration leaves a number of slices it allows, and an index below it, as they are;
      otherwise the number becomes the nearest one allowed, and the index its remainder. */
  lemma ConfigExactly(s: Slices, c: Config)
    requires ValidConfig(c)
    ensures var after := AfterConfig(s, c);
            && c.minSlices <= after.count <= c.maxSlices
            && (after.count > s.count ==> after.count == c.minSlices)
            && (after.count < s.count ==> after.count == c.maxSlices)
            && after.index == s.index % after.count
            && (s.index < after.count ==> after.index == s.index)
  {
    var after := AfterConfig(s, c);
    if s.index < after.count { SmallRemainder(s.index, after.count); }
  }

  /** When the number of slices rises and when it falls. */
  lemma NextCountExactly(count: nat, elapsed: nat, smoothed: nat, c: Config)
    requires MinSlices(c) <= count <= MaxSlices(c)
    ensures NextCount(count, elapsed, smoothed, c) == count + 1 <==>
              && elapsed > c.tickBudget && count < MaxSlices(c)
              && (CycleTime(smoothed, count) > c.cycleBudget || CycleTime(smoothed, count + 1) <= c.cycleBudget)
    ensures NextCount(count, elapsed, smoothed, c) == count - 1 <==>
              && count > MinSlices(c)
              && if CycleTime(smoothed, count) > c.cycleBudget then elapsed <= c.tickBudget || count == MaxSlices(c)
                 else elapsed < Saturating(c.tickBudget * 3) / 4
  {
    hide CycleTime, Saturating;
    EasyIsLess(c);
  }

  /** As many ticks in a row as `n`, each with the same load. */
  function AfterAdapts(s: Slices, n: nat, elapsed: nat, smoothed: nat, c: Config): Slices
    requires ValidConfig(c)
  {
    if n == 0 then s else AfterAdapt(AfterAdapts(s, n - 1, elapsed, smoothed, c), elapsed, smoothed, c)
  }

  lemma CycleGrows(smoothed: nat, a: nat, b: nat)
    requires a <= b
    ensures CycleTime(smoothed, a) <= CycleTime(smoothed, b)
  {
    assert smoothed * a <= smoothed * b;
  }

  /** While ticks take longer than their budget, and a turn has room for it,
      every tick adds a slice up to the most allowed. */
  lemma {:induction false} OverloadSpreads(s: Slices, n: nat, elapsed: nat, smoothed: nat, c: Config)
    requires ValidConfig(c) && c.minSlices <= s.count <= c.maxSlices
    requires elapsed > c.tickBudget && CycleTime(smoothed, c.maxSlices) <= c.cycleBudget
    ensures AfterAdapts(s, n, elapsed, smoothed, c).count
         == if s.count + n < c.maxSlices then s.count + n else c.maxSlices
  {
    if n > 0 {
      hide NextCount, CycleTime, Saturating;
      OverloadSpreads(s, n - 1, elapsed, smoothed, c);
      var count := AfterAdapts(s, n - 1, elapsed, smoothed, c).count;
      NextCountExactly(count, elapsed, smoothed, c);
      EasyIsLess(c);
      CycleGrows(smoothed, count, c.maxSlices);
      if count < c.maxSlices { CycleGrows(smoothed, count + 1, c.maxSlices); }
    }
  }

  /** While ticks take less than three quarters of their budget, every tick takes a slice away down to
      the fewest allowed. */
  lemma {:induction false} EaseGathers(s: Slices, n: nat, elapsed: nat, smoothed: nat, c: Config)
    requires ValidConfig(c) && c.minSlices <= s.count <= c.maxSlices
    requires elapsed < c.tickBudget * 3 / 4 && c.tickBudget * 3 <= U64_MAX
    ensures AfterAdapts(s, n, elapsed, smoothed, c).count
         == if s.count - n > c.minSlices then s.count - n else c.minSlices
  {
    if n > 0 {
      hide NextCount, CycleTime;
      EaseGathers(s, n - 1, elapsed, smoothed, c);
      NextCountExactly(AfterAdapts(s, n - 1, elapsed, smoothed, c).count, elapsed, smoothed, c);
    }
  }

  predicate InRange(s: Slices) { 1 <= s.count <= MAX_SLICE_COUNT && s.index < s.count }

  /** Adapting keeps the index below the count exactly unless fitting the count to the configuration
      alone cuts it off, which takes a configuration the count was not fitted to before. */
  lemma AdaptKeepsRangeExactly(s: Slices, elapsed: nat, smoothed: nat, c: Config)
    requires InRange(s) && ValidConfig(c)
    ensures var clamped := Clamp(s.count, c.minSlices, c.maxSlices);
            InRange(AfterAdapt(s, elapsed, smoothed, c))
            <==> s.index < clamped || NextCount(clamped, elapsed, smoothed, c) != clamped
    ensures s.count <= c.maxSlices ==> InRange(AfterAdapt(s, elapsed, smoothed, c))
  {
    hide NextCount;
  }

  /** Whatever the state, the count ends up within the configuration. */
  lemma AdaptFitsCount(s: Slices, elapsed: nat, smoothed: nat, c: Config)
    requires ValidConfig(c)
    ensures c.minSlices <= AfterAdapt(s, elapsed, smoothed, c).count <= c.maxSlices
  {
    hide NextCount;
  }

  // --- Whole runs ---------------------------------------------------------------------

  /** A tick reads the configuration when it begins, and adapts to it when it ends; another one may
      be put in force in between. */
  datatype Event =
    | Advance
    | Adapt(elapsed: nat, smoothed: nat, config: Config)
    | NewConfig(config: Config)

  predicate Enabled(e: Event) { !e.Advance? ==> ValidConfig(e.config) }

  function Step(s: Slices, e: Event): Slices
    requires s.count > 0 && Enabled(e)
  {
    match e
    case Advance => AfterAdvance(s)
    case Adapt(elapsed, smoothed, config) => AfterAdapt(s, elapsed, smoothed, config)
    case NewConfig(config) => AfterConfig(s, config)
  }

  const INITIAL: Slices := Slices(1, 0)

  lemma StepKeepsCount(s: Slices, e: Event)
    requires 1 <= s.count <= MAX_SLICE_COUNT && Enabled(e)
    ensures 1 <= Step(s, e).count <= MAX_SLICE_COUNT
  {
    hide AfterAdapt;
    if e.Adapt? { AdaptFitsCount(s, e.elapsed, e.smoothed, e.config); }
  }

  predicate Enableds(events: seq<Event>) { forall i :: 0 <= i < |events| ==> Enabled(events[i]) }

  function Run(events: seq<Event>): (s: Slices)
    requires Enableds(events)
    ensures 1 <= s.count <= MAX_SLICE_COUNT
  {
    if events == [] then INITIAL
    else
      var before, e := Run(events[..|events| - 1]), events[|events| - 1];
      StepKeepsCount(before, e);
      Step(before, e)
  }

  /** No tick adapts to a configuration that allows fewer slices than there are. */
  predicate NoStaleConfig(events: seq<Event>)
    requires Enableds(events)
  {
    events == [] || (
      && NoStaleConfig(events[..|events| - 1])
      && var e := events[|events| - 1];
         e.Adapt? ==> Run(events[..|events| - 1]).count <= e.config.maxSlices)
  }

  /** Over every such run the index stays below the count. */
  lemma {:induction false} RunInRange(events: seq<Event>)
    requires Enableds(events) && NoStaleConfig(events)
    ensures InRange(Run(events))
  {
    hide AfterAdapt, MAX_SLICE_COUNT;
    if events != [] {
      var e, front := events[|events| - 1], events[..|events| - 1];
      RunInRange(front);
      if e.Adapt? { AdaptKeepsRangeExactly(Run(front), e.elapsed, e.smoothed, e.config); }
    }
  }

  /** The configuration in force after the events, `first` being the one at the start. */
  function InForce(first: Config, events: seq<Event>): Config {
    if events == [] then first
    else if events[|events| - 1].NewConfig? then events[|events| - 1].config
    else InForce(first, events[..|events| - 1])
  }

  /** No tick is overtaken: each adapts to the configuration in force. */
  predicate UpToDate(first: Config, events: seq<Event>) {
    events == [] || (
      && UpToDate(first, events[..|events| - 1])
      && var e := events[|events| - 1];
         e.Adapt? ==> e.config == InForce(first, events[..|events| - 1]))
  }

  lemma {:induction false} CountFits(first: Config, events: seq<Event>)
    requires ValidConfig(first) && Enableds(events) && UpToDate(first, events)
    ensures ValidConfig(InForce(first, events)) && Run(events).count <= InForce(first, events).maxSlices
    ensures NoStaleConfig(events)
  {
    hide AfterAdapt, MAX_SLICE_COUNT;
    if events != [] {
      var e, front := events[|events| - 1], events[..|events| - 1];
      CountFits(first, front);
      if e.Adapt? { AdaptFitsCount(Run(front), e.elapsed, e.smoothed, e.config); }
    }
  }

  /** Without overtaken ticks the index is below the count at all times. */
  lemma UpToDateInRange(first: Config, events: seq<Event>)
    requires ValidConfig(first) && Enableds(events) && UpToDate(first, events)
    ensures InRange(Run(events))
  {
    hide Run, NoStaleConfig;
    CountFits(first, events);
    RunInRange(events);
  }

  /** A tick that is overtaken by a new configuration and adapts to the old one leaves the index at
      the count. */
  lemma OvertakenTick() returns (events: seq<Event>)
    ensures Enableds(events)
    ensures events == [NewConfig(Config(4, 5, 4, 9)), Advance, Adapt(4, 2, Config(1, 1, 4, 9))]
    ensures Run(events) == Slices(1, 1) && !InRange(Run(events))
  {
    var first := [NewConfig(Config(4, 5, 4, 9))];
    var second := first + [Advance];
    events := second + [Adapt(4, 2, Config(1, 1, 4, 9))];
    assert events[..2] == second && second[..1] == first && first[..0] == [];
    assert Run([]) == INITIAL;
    assert Run(first) == Slices(4, 0);
    assert Run(second) == Slices(4, 1);
  }

  // --- In place -----------------------------------------------------------------------

  class SliceScheduler {
    var sliceCount: nat
    var sliceIndex: nat
    var smoothedTick: nat

    function State(): Slices
      reads this
    {
      Slices(sliceCount, sliceIndex)
    }

    predicate Valid()
      reads this
    {
      1 <= sliceCount <= MAX_SLICE_COUNT
    }

    constructor ()
      ensures Valid() && State() == INITIAL
    {
      sliceCount, sliceIndex, smoothedTick := 1, 0, 0;
    }

    /** The slice of this tick; the next one is next in turn. */
    method Advance(receivers: nat) returns (slice: Slice)
      requires Valid()
      modifies this`sliceIndex
      ensures Valid() && slice == TickSlice(old(State()), receivers) && State() == AfterAdvance(old(State()))
    {
      hide CeilDiv;
      var count := if sliceCount < 1 then 1 else sliceCount;
      var index := sliceIndex % count;
      sliceIndex := (sliceIndex + 1) % count;
      var size := CeilDiv(receivers, count);
      var start := if index * size < receivers then index * size else receivers;
      var end := if start + size < receivers then start + size else receivers;
      slice := Slice(start, end);
    }

    /** `smoothed` stands for the floating-point average of tick times. */
    method Adapt(elapsed: nat, smoothed: nat, config: Config)
      requires Valid() && ValidConfig(config)
      modifies this
      ensures Valid() && State() == AfterAdapt(old(State()), elapsed, smoothed, config)
    {
      hide CycleTime, EasyBudget;
      AdaptFitsCount(State(), elapsed, smoothed, config);
      smoothedTick := smoothed;
      var minSlices, maxSlices := MinSlices(config), MaxSlices(config);
      sliceCount := Clamp(sliceCount, minSlices, maxSlices);
      var next := sliceCount;
      if CycleTime(smoothed, sliceCount) > config.cycleBudget {
        if elapsed > config.tickBudget && sliceCount < maxSlices {
          next := sliceCount + 1;
        } else if sliceCount > minSlices {
          next := sliceCount - 1;
        }
      } else if elapsed < EasyBudget(config) && sliceCount > minSlices {
        next := sliceCount - 1;
      } else if elapsed > config.tickBudget && CycleTime(smoothed, sliceCount + 1) <= config.cycleBudget
          && sliceCount < maxSlices {
        next := sliceCount + 1;
      }
      if next != sliceCount {
        sliceCount := next;
        sliceIndex := sliceIndex % (if sliceCount < 1 then 1 else sliceCount);
      }
    }

    method UpdateConfig(config: Config)
      requires Valid() && ValidConfig(config)
      modifies this`sliceCount, this`sliceIndex
      ensures Valid() && State() == AfterConfig(old(State()), config)
    {
      sliceCount := Clamp(sliceCount, config.minSlices, config.maxSlices);
      sliceIndex := sliceIndex % (if sliceCount < 1 then 1 else sliceCount);
    }
  }
}
