/** Where fields lie when slots of given component widths are packed without gaps. */
module SlotLayout {

  /** Width of one slot: two bits for the largest component, then three components. */
  function SlotBits(bpc: nat): nat { 2 + 3 * bpc }

  /** First bit of slot `n`: the widths of all earlier slots added up. */
  function BitOffset(bpc: seq<nat>, n: nat): nat
    requires n <= |bpc|
    decreases |bpc|, n
  {
    if n == 0 then 0 else BitOffset(bpc, n - 1) + SlotBits(bpc[n - 1])
  }

  lemma NoOffset(bpc: seq<nat>)
    ensures BitOffset(bpc, 0) == 0
  {}

  lemma OffsetStep(bpc: seq<nat>, n: nat)
    requires n < |bpc|
    ensures BitOffset(bpc, n + 1) == BitOffset(bpc, n) + 2 + 3 * bpc[n]
  {}

  lemma {:induction false} OffsetsMonotone(bpc: seq<nat>, m: nat, n: nat)
    requires m <= n <= |bpc|
    ensures BitOffset(bpc, m) <= BitOffset(bpc, n)
  {
    if m < n { OffsetsMonotone(bpc, m, n - 1); }
  }

  /** The digits of an earlier slot end before those of a later one begin. */
  lemma {:induction false} SlotsDisjoint(bpc: seq<nat>, m: nat, n: nat)
    requires m < n <= |bpc|
    ensures BitOffset(bpc, m) + 2 + 3 * bpc[m] <= BitOffset(bpc, n)
  {
    OffsetsMonotone(bpc, m + 1, n);
  }

  /** The total grows by the run's length times its width over a run of equal widths. */
  lemma {:induction false} RunOfWidths(bpc: seq<nat>, m: nat, n: nat, width: nat)
    requires m <= n <= |bpc|
    requires forall i :: m <= i < n ==> bpc[i] == width
    ensures BitOffset(bpc, n) == BitOffset(bpc, m) + (n - m) * SlotBits(width)
  {
    if m < n {
      RunOfWidths(bpc, m, n - 1, width);
      assert (n - m) * SlotBits(width) == (n - 1 - m) * SlotBits(width) + SlotBits(width);
    }
  }

  /** Widths added up over the runs that all quality tables share. */
  lemma FirstRuns(bpc: seq<nat>)
    requires |bpc| == 51
    requires forall i :: 0 <= i < 17 ==> bpc[i] == bpc[0]
    requires bpc[17] == bpc[18]
    requires bpc[19] == bpc[20]
    requires bpc[21] == bpc[22]
    requires bpc[23] == bpc[24]
    ensures BitOffset(bpc, 26) == BitOffset(bpc, 0) + 52
        + 51 * bpc[0]
        + 6 * bpc[17]
        + 6 * bpc[19]
        + 6 * bpc[21]
        + 6 * bpc[23]
        + 3 * bpc[25]
  {
    hide BitOffset;
    RunOfWidths(bpc, 0, 17, bpc[0]);
    RunOfWidths(bpc, 17, 19, bpc[17]);
    RunOfWidths(bpc, 19, 21, bpc[19]);
    RunOfWidths(bpc, 21, 23, bpc[21]);
    RunOfWidths(bpc, 23, 25, bpc[23]);
    RunOfWidths(bpc, 25, 26, bpc[25]);
  }

  lemma MiddleRuns(bpc: seq<nat>)
    requires |bpc| == 51
    requires bpc[26] == bpc[27] && bpc[28] == bpc[29] && bpc[31] == bpc[32]
    ensures BitOffset(bpc, 33) == BitOffset(bpc, 26) + 14 + 6 * bpc[26] + 6 * bpc[28] + 3 * bpc[30] + 6 * bpc[31]
  {
    hide BitOffset;
    RunOfWidths(bpc, 26, 28, bpc[26]);
    RunOfWidths(bpc, 28, 30, bpc[28]);
    RunOfWidths(bpc, 30, 31, bpc[30]);
    RunOfWidths(bpc, 31, 33, bpc[31]);
  }

  lemma LastRuns(bpc: seq<nat>)
    requires |bpc| == 51
    requires bpc[33] == bpc[34] == bpc[35] && bpc[36] == bpc[37]
    requires forall i :: 38 <= i < 51 ==> bpc[i] == bpc[38]
    ensures BitOffset(bpc, 51) == BitOffset(bpc, 33) + 36 + 9 * bpc[33] + 6 * bpc[36] + 39 * bpc[38]
  {
    hide BitOffset;
    RunOfWidths(bpc, 33, 36, bpc[33]);
    RunOfWidths(bpc, 36, 38, bpc[36]);
    RunOfWidths(bpc, 38, 51, bpc[38]);
  }

  /** The loop that fills the offset table. */
  method BitOffsets(bpc: seq<nat>) returns (offsets: seq<nat>)
    ensures |offsets| == |bpc|
    ensures forall i :: 0 <= i < |bpc| ==> offsets[i] == BitOffset(bpc, i)
  {
    hide BitOffset;
    offsets := [];
    var bit := 0;
    NoOffset(bpc);
    var index := 0;
    while index < |bpc|
      invariant 0 <= index <= |bpc|
      invariant |offsets| == index
      invariant bit == BitOffset(bpc, index)
      invariant forall i :: 0 <= i < index ==> offsets[i] == BitOffset(bpc, i)
    {
      OffsetStep(bpc, index);
      offsets := offsets + [bit];
      bit := bit + 2 + 3 * bpc[index];
      index := index + 1;
    }
  }
}
