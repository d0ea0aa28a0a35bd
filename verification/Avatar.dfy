/** Avatar pose payloads: quality tables, the byte-chunked bit reader and writer, and the
    in-place repacking of a high-quality payload into a lower quality. */
module Avatar {
  import opened Bits
  import opened Rescale
  import opened SlotLayout
  import opened PackedSlot
  import opened SlotTable

  const SYNC_BONE_COUNT: nat := 51

  datatype BitQuality = VeryLow | Low | Medium | High
  {
    function PayloadLen(): nat {
      match this
      case VeryLow => 112
      case Low => 131
      case Medium => 156
      case High => 182
    }

    function RotationLen(): nat {
      match this
      case VeryLow => 78
      case Low => 97
      case Medium => 122
      case High => 148
    }

    /** Bits per quantised component: the bone tables, written as their runs of equal width. */
    function Bpc(slot: nat): (w: nat)
      requires slot < SYNC_BONE_COUNT
      ensures 1 <= w <= 10
    {
      match this
      case VeryLow =>
        if slot < 17 then 5 else if slot < 19 then 4 else if slot < 21 then 2
        else if slot < 23 then 4 else if slot < 25 then 3 else if slot < 26 then 2
        else if slot < 28 then 4 else if slot < 30 then 3 else if slot < 31 then 2
        else if slot < 33 then 3 else if slot < 36 then 2 else if slot < 38 then 3 else 2
      case Low =>
        if slot < 17 then 6 else if slot < 19 then 5 else if slot < 21 then 3
        else if slot < 23 then 5 else if slot < 25 then 4 else if slot < 26 then 3
        else if slot < 28 then 5 else if slot < 30 then 4 else if slot < 31 then 3
        else if slot < 33 then 4 else if slot < 36 then 3 else if slot < 38 then 4 else 3
      case Medium =>
        if slot < 17 then 8 else if slot < 19 then 6 else if slot < 21 then 3
        else if slot < 23 then 6 else if slot < 25 then 5 else if slot < 26 then 4
        else if slot < 28 then 6 else if slot < 30 then 5 else if slot < 31 then 4
        else if slot < 33 then 5 else if slot < 36 then 4 else if slot < 38 then 5 else 4
      case High =>
        if slot < 17 then 10 else if slot < 19 then 9 else if slot < 21 then 5
        else if slot < 25 then 6 else if slot < 26 then 5 else if slot < 30 then 6
        else if slot < 31 then 5 else if slot < 33 then 6 else if slot < 36 then 5
        else if slot < 38 then 6 else 5
    }

    function Table(): (bpc: seq<nat>) {
      seq(SYNC_BONE_COUNT, i requires 0 <= i < SYNC_BONE_COUNT => Bpc(i))
    }
  }

  // The tables entry by entry.

  lemma HighWrittenOut()
    ensures High.Table() ==
            [10, 10, 10, 10, 10, 10, 10, 10, 10, 10, 10, 10, 10, 10, 10, 10, 10] + [9, 9] + [5, 5] +
            [6, 6, 6, 6] + [5] + [6, 6, 6, 6] + [5] + [6, 6] + [5, 5, 5] + [6, 6] +
            [5, 5, 5, 5, 5, 5, 5, 5, 5, 5, 5, 5, 5]
  {}

  lemma MediumWrittenOut()
    ensures Medium.Table() ==
            [8, 8, 8, 8, 8, 8, 8, 8, 8, 8, 8, 8, 8, 8, 8, 8, 8] + [6, 6] + [3, 3] + [6, 6] + [5, 5] + [4] +
            [6, 6] + [5, 5] + [4] + [5, 5] + [4, 4, 4] + [5, 5] + [4, 4, 4, 4, 4, 4, 4, 4, 4, 4, 4, 4, 4]
  {}

  lemma LowWrittenOut()
    ensures Low.Table() ==
            [6, 6, 6, 6, 6, 6, 6, 6, 6, 6, 6, 6, 6, 6, 6, 6, 6] + [5, 5] + [3, 3] + [5, 5] + [4, 4] + [3] +
            [5, 5] + [4, 4] + [3] + [4, 4] + [3, 3, 3] + [4, 4] + [3, 3, 3, 3, 3, 3, 3, 3, 3, 3, 3, 3, 3]
  {}

  lemma VeryLowWrittenOut()
    ensures VeryLow.Table() ==
            [5, 5, 5, 5, 5, 5, 5, 5, 5, 5, 5, 5, 5, 5, 5, 5, 5] + [4, 4] + [2, 2] + [4, 4] + [3, 3] + [2] +
            [4, 4] + [3, 3] + [2] + [3, 3] + [2, 2, 2] + [3, 3] + [2, 2, 2, 2, 2, 2, 2, 2, 2, 2, 2, 2, 2]
  {}

  lemma VeryLowTotal()
    ensures BitOffset(VeryLow.Table(), SYNC_BONE_COUNT) == 621
  {
    var bpc := VeryLow.Table();
    hide BitOffset;
    FirstRuns(bpc);
    MiddleRuns(bpc);
    LastRuns(bpc);
    NoOffset(bpc);
  }

  lemma LowTotal()
    ensures BitOffset(Low.Table(), SYNC_BONE_COUNT) == 774
  {
    var bpc := Low.Table();
    hide BitOffset;
    FirstRuns(bpc);
    MiddleRuns(bpc);
    LastRuns(bpc);
    NoOffset(bpc);
  }

  lemma MediumTotal()
    ensures BitOffset(Medium.Table(), SYNC_BONE_COUNT) == 972
  {
    var bpc := Medium.Table();
    hide BitOffset;
    FirstRuns(bpc);
    MiddleRuns(bpc);
    LastRuns(bpc);
    NoOffset(bpc);
  }

  lemma HighTotal()
    ensures BitOffset(High.Table(), SYNC_BONE_COUNT) == 1182
  {
    var bpc := High.Table();
    hide BitOffset;
    FirstRuns(bpc);
    MiddleRuns(bpc);
    LastRuns(bpc);
    NoOffset(bpc);
  }

  /** The slots of every quality fit into its rotation bytes, with less than one spare byte. */
  lemma RotationsFit(q: BitQuality)
    ensures 8 * (q.RotationLen() - 1) < BitOffset(q.Table(), SYNC_BONE_COUNT) <= 8 * q.RotationLen()
  {
    match q
    case VeryLow => VeryLowTotal();
    case Low => LowTotal();
    case Medium => MediumTotal();
    case High => HighTotal();
  }

  lemma TableAt(q: BitQuality, slot: nat)
    requires slot < SYNC_BONE_COUNT
    ensures |q.Table()| == SYNC_BONE_COUNT && q.Table()[slot] == q.Bpc(slot)
  {}

  /** Every quality has a width for each bone, all at least one, and its slots fit its rotation bytes. */
  lemma QualityFits(q: BitQuality)
    ensures |q.Table()| == SYNC_BONE_COUNT
    ensures EndsBy(q.Table(), WRITE_POSITION + q.RotationLen())
    ensures q.PayloadLen() == WRITE_POSITION + q.RotationLen() + TAIL_BYTES
    ensures forall i :: 0 <= i < SYNC_BONE_COUNT ==> q.Table()[i] >= 1
  {
    RotationsFit(q);
  }

  /** What a receiver of a payload reads for bone `slot`. */
  function DecodeBone(payload: seq<byte>, q: BitQuality, slot: nat): Rotation
    requires slot < SYNC_BONE_COUNT
    requires |payload| >= q.PayloadLen()
  {
    QualityFits(q);
    DecodeSlot(payload, q.Table(), slot)
  }

  datatype RepackOutcome = Repacked | PayloadTooSmall | TargetNotLower | BufferTooSmall

  /** The whole effect of repacking on a buffer, see `SlotTable.PayloadRepacked`. */
  ghost predicate RepackedInto(high: seq<byte>, target: BitQuality, before: seq<byte>, after: seq<byte>)
    requires |high| >= High.PayloadLen() && |before| >= target.PayloadLen()
  {
    QualityFits(High);
    QualityFits(target);
    PayloadRepacked(high, High.Table(), target.Table(),
                    WRITE_POSITION + High.RotationLen(), WRITE_POSITION + target.RotationLen(), before, after)
  }

  /** Every bone of a repacked payload: the same component is dropped, and the three stored ones are
      those of the source bone, each rescaled, in their order. */
  lemma RepackedBone(high: seq<byte>, target: BitQuality, before: seq<byte>, after: seq<byte>, slot: nat)
    requires |high| >= High.PayloadLen() && |before| >= target.PayloadLen()
    requires RepackedInto(high, target, before, after)
    requires slot < SYNC_BONE_COUNT
    ensures |after| == |before|
    ensures var s, d := DecodeBone(high, High, slot), DecodeBone(after, target, slot);
            var w, v := High.Bpc(slot), target.Bpc(slot);
            && d.largest == s.largest
            && d.a == RescaleQuant(s.a, w, v) && d.b == RescaleQuant(s.b, w, v) && d.c == RescaleQuant(s.c, w, v)
  {
    hide Field, RescaleQuant, BitOffset, BitQuality.Table, BitQuality.Bpc;
    QualityFits(High);
    QualityFits(target);
    TableAt(High, slot);
    TableAt(target, slot);
    assert SlotRescaled(high, High.Table(), target.Table(), after, slot);
    RescaledDecodes(high, High.Table(), target.Table(), after, slot);
  }

  method RepackHighToLowerInto(high: seq<byte>, target: BitQuality, out: array<byte>) returns (r: RepackOutcome)
    modifies out
    ensures r.PayloadTooSmall? <==> |high| < 182
    ensures r.TargetNotLower? <==> |high| >= 182 && target == High
    ensures r.BufferTooSmall? <==> |high| >= 182 && target != High && out.Length < target.PayloadLen()
    ensures r.Repacked? ==>
              && RepackedInto(high, target, old(out[..]), out[..])
              && out[..12] == high[..12]
              && out[target.PayloadLen() - 22..target.PayloadLen()] == high[160..182]
              && out[target.PayloadLen()..] == old(out[target.PayloadLen()..])
    ensures !r.Repacked? ==> out[..] == old(out[..])
  {
    if |high| < High.PayloadLen() { return PayloadTooSmall; }
    if target == High { return TargetNotLower; }
    if out.Length < target.PayloadLen() { return BufferTooSmall; }
    QualityFits(target);
    QualityFits(High);
    RepackPayload(high, High.Table(), target.Table(),
                  WRITE_POSITION + High.RotationLen(), WRITE_POSITION + target.RotationLen(), out);
    return Repacked;
  }
}
