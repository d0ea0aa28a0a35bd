/** Repacking of a whole table of slots, for any two tables of component widths. */
module SlotTable {
  import opened Bits
  import opened Rescale
  import opened SlotLayout
  import opened PackedSlot

  const WRITE_POSITION: nat := 12
  const TAIL_BYTES: nat := 22

  /** Absolute bit position of a slot inside a payload. */
  function SlotPos(bpc: seq<nat>, slot: nat): nat
    requires slot <= |bpc|
  {
    8 * WRITE_POSITION + BitOffset(bpc, slot)
  }

  /** All slots of the table end before byte `end`. */
  predicate EndsBy(bpc: seq<nat>, end: nat) {
    SlotPos(bpc, |bpc|) <= 8 * end
  }

  lemma SlotInside(bpc: seq<nat>, slot: nat, end: nat)
    requires slot < |bpc| && EndsBy(bpc, end)
    ensures SlotPos(bpc, slot + 1) == SlotPos(bpc, slot) + 2 + 3 * bpc[slot] <= 8 * end
  {
    OffsetsMonotone(bpc, slot + 1, |bpc|);
  }

  /** What a receiver of a payload reads for one bone. */
  function DecodeSlot(payload: seq<byte>, bpc: seq<nat>, slot: nat): (r: Rotation)
    requires slot < |bpc| && EndsBy(bpc, |payload|)
  {
    SlotInside(bpc, slot, |payload|);
    DecodeAt(payload, SlotPos(bpc, slot), bpc[slot])
  }

  /** A pair of width tables for the same slots; every source width is at least one. */
  predicate Tables(src: seq<nat>, dst: seq<nat>) {
    |src| == |dst| && forall i :: 0 <= i < |src| ==> src[i] >= 1
  }

  /** The fields of a slot of the source, the components rescaled. */
  function RepackedSlot(high: seq<byte>, src: seq<nat>, dst: seq<nat>, slot: nat): Rotation
    requires Tables(src, dst) && slot < |src| && EndsBy(src, |high|)
  {
    SlotInside(src, slot, |high|);
    var p, w, v := SlotPos(src, slot), src[slot], dst[slot];
    Rotation(Field(high, p, 2),
             RescaleQuant(Field(high, p + 2, w), w, v),
             RescaleQuant(Field(high, p + 2 + w, w), w, v),
             RescaleQuant(Field(high, p + 2 + 2 * w, w), w, v))
  }

  /** Field by field: the index of the dropped component is copied, and each of the other three
      is rescaled into the place of its own number. */
  ghost predicate SlotRescaled(high: seq<byte>, src: seq<nat>, dst: seq<nat>, out: seq<byte>, slot: nat)
    requires Tables(src, dst) && slot < |src| && EndsBy(src, |high|) && EndsBy(dst, |out|)
  {
    SlotInside(src, slot, |high|);
    SlotInside(dst, slot, |out|);
    var p, w := SlotPos(src, slot), src[slot];
    var q, v := SlotPos(dst, slot), dst[slot];
    && Field(out, q, 2) == Field(high, p, 2)
    && Field(out, q + 2, v) == RescaleQuant(Field(high, p + 2, w), w, v)
    && Field(out, q + 2 + v, v) == RescaleQuant(Field(high, p + 2 + w, w), w, v)
    && Field(out, q + 2 + 2 * v, v) == RescaleQuant(Field(high, p + 2 + 2 * w, w), w, v)
  }

  lemma RescaledDecodes(high: seq<byte>, src: seq<nat>, dst: seq<nat>, out: seq<byte>, slot: nat)
    requires Tables(src, dst) && slot < |src| && EndsBy(src, |high|) && EndsBy(dst, |out|)
    ensures SlotRescaled(high, src, dst, out, slot)
       <==> DecodeSlot(out, dst, slot) == RepackedSlot(high, src, dst, slot)
  {
    hide Field, RescaleQuant, BitOffset;
  }

  ghost predicate SlotsRepacked(high: seq<byte>, src: seq<nat>, dst: seq<nat>, out: seq<byte>, count: nat)
    requires Tables(src, dst) && count <= |src| && EndsBy(src, |high|) && EndsBy(dst, |out|)
  {
    forall slot: nat :: slot < count ==> SlotRescaled(high, src, dst, out, slot)
  }

  /** No digit is set from the start of slot `count` to byte `end`. */
  ghost predicate ClearFrom(dst: seq<nat>, out: seq<byte>, count: nat, end: nat)
    requires count <= |dst| && end <= |out|
  {
    forall k: nat :: SlotPos(dst, count) <= k < 8 * end ==> !BufferBit(out, k)
  }

  /** One slot's store: its packed word ORed in at its place. */
  ghost predicate SlotStored(
      high: seq<byte>, src: seq<nat>, dst: seq<nat>, before: seq<byte>, after: seq<byte>, slot: nat)
    requires Tables(src, dst) && slot < |src| && EndsBy(src, |high|)
  {
    OrWritten(before, after, SlotPos(dst, slot), 2 + 3 * dst[slot],
              Pack(RepackedSlot(high, src, dst, slot), dst[slot]))
  }

  /** A slot written over clear digits decodes to its repacked rotation. */
  lemma NewSlotDecodes(high: seq<byte>, src: seq<nat>, dst: seq<nat>, before: seq<byte>, after: seq<byte>, slot: nat)
    requires Tables(src, dst) && slot < |src| && EndsBy(src, |high|) && EndsBy(dst, |before|)
    requires forall k: nat :: SlotPos(dst, slot) <= k < SlotPos(dst, slot) + 2 + 3 * dst[slot] && k < 8 * |before| ==>
               !BufferBit(before, k)
    requires SlotStored(high, src, dst, before, after, slot)
    ensures SlotRescaled(high, src, dst, after, slot)
  {
    hide Field, RescaleQuant, BitOffset, SlotRescaled;
    SlotInside(dst, slot, |before|);
    SlotInside(src, slot, |high|);
    var p, w, r := SlotPos(dst, slot), dst[slot], RepackedSlot(high, src, dst, slot);
    DecodedFits(high, SlotPos(src, slot), src[slot]);
    RescaledFits(DecodeSlot(high, src, slot), src[slot], w);
    WrittenIsStored(before, after, p, 2 + 3 * w, Pack(r, w));
    StoredDecodes(after, p, w, r);
    RescaledDecodes(high, src, dst, after, slot);
  }

  /** Digits before and after a written slot are as they were. */
  lemma OtherDigits(high: seq<byte>, src: seq<nat>, dst: seq<nat>, before: seq<byte>, after: seq<byte>, slot: nat)
    requires Tables(src, dst) && slot < |src| && EndsBy(src, |high|) && EndsBy(dst, |before|)
    requires SlotStored(high, src, dst, before, after, slot)
    ensures |after| == |before|
    ensures forall k: nat :: k < 8 * |before| && (k < SlotPos(dst, slot) || SlotPos(dst, slot + 1) <= k) ==>
              BufferBit(after, k) == BufferBit(before, k)
  {
    SlotInside(dst, slot, |before|);
  }

  /** Writing one slot over clear digits extends the repacked prefix by that slot. */
  lemma SlotWritten(
      high: seq<byte>, src: seq<nat>, dst: seq<nat>, before: seq<byte>, after: seq<byte>, slot: nat, end: nat)
    requires Tables(src, dst) && slot < |src| && EndsBy(src, |high|)
    requires EndsBy(dst, end) && end <= |before|
    requires SlotsRepacked(high, src, dst, before, slot) && ClearFrom(dst, before, slot, end)
    requires SlotStored(high, src, dst, before, after, slot)
    ensures SlotsRepacked(high, src, dst, after, slot + 1) && ClearFrom(dst, after, slot + 1, end)
  {
    hide Field, RescaleQuant, SlotRescaled, RepackedSlot, BitOffset;
    SlotInside(dst, slot, end);
    OtherDigits(high, src, dst, before, after, slot);
    NewSlotDecodes(high, src, dst, before, after, slot);
    forall s: nat | s < slot ensures SlotRescaled(high, src, dst, after, s) {
      SlotInside(dst, s, end);
      SlotsDisjoint(dst, s, slot);
      SlotUnchanged(before, after, SlotPos(dst, s), dst[s]);
      RescaledDecodes(high, src, dst, before, s);
      RescaledDecodes(high, src, dst, after, s);
    }
  }

  /** Bytes outside the written digits stay as they are. */
  lemma BytesOutside(before: seq<byte>, after: seq<byte>, pos: nat, count: nat, value: nat, j: nat)
    requires OrWritten(before, after, pos, count, value)
    requires j < |before|
    requires 8 * j + 8 <= pos || pos + count <= 8 * j
    ensures after[j] == before[j]
  {
    var a, b := [after[j]], [before[j]];
    forall k: nat | k < 8 * |a| ensures BufferBit(a, k) == BufferBit(b, k) {
      assert BufferBit(after, 8 * j + k) == BufferBit(before, 8 * j + k);
    }
    BuffersDetermined(a, b);
  }

  lemma OutsideKept(
      high: seq<byte>, src: seq<nat>, dst: seq<nat>, before: seq<byte>, after: seq<byte>, slot: nat, end: nat)
    requires Tables(src, dst) && slot < |src| && EndsBy(src, |high|)
    requires EndsBy(dst, end) && end <= |before|
    requires SlotStored(high, src, dst, before, after, slot)
    ensures forall j: nat :: j < |before| && (j < WRITE_POSITION || end <= j) ==> after[j] == before[j]
  {
    SlotInside(dst, slot, end);
    forall j: nat | j < |before| && (j < WRITE_POSITION || end <= j) ensures after[j] == before[j] {
      BytesOutside(before, after, SlotPos(dst, slot), 2 + 3 * dst[slot],
                   Pack(RepackedSlot(high, src, dst, slot), dst[slot]), j);
    }
  }

  /** Changing bytes from `end` on leaves every slot as it was. */
  lemma SlotsKept(high: seq<byte>, src: seq<nat>, dst: seq<nat>, before: seq<byte>, after: seq<byte>, end: nat)
    requires Tables(src, dst) && EndsBy(src, |high|) && EndsBy(dst, end)
    requires end <= |before| == |after|
    requires SlotsRepacked(high, src, dst, before, |dst|) && ClearFrom(dst, before, |dst|, end)
    requires forall j: nat :: j < end ==> after[j] == before[j]
    ensures SlotsRepacked(high, src, dst, after, |dst|) && ClearFrom(dst, after, |dst|, end)
  {
    forall k: nat | k < 8 * end ensures BufferBit(after, k) == BufferBit(before, k) {}
    forall s: nat | s < |dst| ensures SlotRescaled(high, src, dst, after, s) {
      hide Field, RescaleQuant, SlotRescaled, RepackedSlot, BitOffset;
      SlotInside(dst, s, end);
      SlotUnchanged(before, after, SlotPos(dst, s), dst[s]);
      RescaledDecodes(high, src, dst, before, s);
      RescaledDecodes(high, src, dst, after, s);
    }
  }

  /** Taking a slot's word apart by shifts and masks, and packing the rescaled parts. */
  function RepackWord(raw: nat, srcBpc: nat, dstBpc: nat): nat
    requires srcBpc >= 1
  {
    var idx := And(raw, Mask(2));
    var qa := And(Shr(raw, 2), Mask(srcBpc));
    var qb := And(Shr(raw, 2 + srcBpc), Mask(srcBpc));
    var qc := And(Shr(raw, 2 + 2 * srcBpc), Mask(srcBpc));
    Or(Or(Or(idx, Shl(RescaleQuant(qa, srcBpc, dstBpc), 2)),
          Shl(RescaleQuant(qb, srcBpc, dstBpc), 2 + dstBpc)),
       Shl(RescaleQuant(qc, srcBpc, dstBpc), 2 + 2 * dstBpc))
  }

  /** Shifting and masking selects the fields of the rotation. */
  lemma RepackWordPacks(payload: seq<byte>, p: nat, w: nat, dstBpc: nat)
    requires w >= 1 && p + 2 + 3 * w <= 8 * |payload|
    ensures RepackWord(Field(payload, p, 2 + 3 * w), w, dstBpc)
            == Pack(Rotation(Field(payload, p, 2),
                             RescaleQuant(Field(payload, p + 2, w), w, dstBpc),
                             RescaleQuant(Field(payload, p + 2 + w, w), w, dstBpc),
                             RescaleQuant(Field(payload, p + 2 + 2 * w, w), w, dstBpc)), dstBpc)
  {
    hide Field, RescaleQuant, Or, And, Shl, Pow2;
    FieldOfField(payload, p, 2 + 3 * w, 0, 2);
    FieldOfField(payload, p, 2 + 3 * w, 2, w);
    FieldOfField(payload, p, 2 + 3 * w, 2 + w, w);
    FieldOfField(payload, p, 2 + 3 * w, 2 + 2 * w, w);
  }

  /** Moves one slot from the source payload to the target buffer. */
  method RepackOneSlot(high: seq<byte>, src: seq<nat>, dst: seq<nat>, out: array<byte>, slot: nat,
                       srcOffset: nat, dstOffset: nat)
    requires Tables(src, dst) && slot < |src| && EndsBy(src, |high|) && EndsBy(dst, out.Length)
    requires srcOffset == BitOffset(src, slot) && dstOffset == BitOffset(dst, slot)
    modifies out
    ensures SlotStored(high, src, dst, old(out[..]), out[..], slot)
  {
    hide Field, RescaleQuant, Or, And, Shl, Shr, Pow2, OrWritten;
    SlotInside(src, slot, |high|);
    SlotInside(dst, slot, out.Length);
    RepackWordPacks(high, SlotPos(src, slot), src[slot], dst[slot]);
    var raw := ReadBits(high, WRITE_POSITION, srcOffset, 2 + 3 * src[slot]);
    var packed := RepackWord(raw, src[slot], dst[slot]);
    WriteBits(out, WRITE_POSITION, dstOffset, packed, 2 + 3 * dst[slot]);
  }

  /** The loop over all slots. */
  method RepackSlots(high: seq<byte>, src: seq<nat>, dst: seq<nat>, out: array<byte>, ghost end: nat)
    requires Tables(src, dst) && EndsBy(src, |high|) && EndsBy(dst, end) && end <= out.Length
    requires ClearFrom(dst, out[..], 0, end)
    modifies out
    ensures SlotsRepacked(high, src, dst, out[..], |dst|) && ClearFrom(dst, out[..], |dst|, end)
    ensures forall j :: 0 <= j < out.Length && (j < WRITE_POSITION || end <= j) ==> out[j] == old(out[j])
  {
    hide Field, Or, Pack, BitOffset, SlotRescaled, DecodeAt, OrWritten, BufferBit, SlotStored;
    var srcOffsets := BitOffsets(src);
    var dstOffsets := BitOffsets(dst);
    for slot := 0 to |src|
      invariant SlotsRepacked(high, src, dst, out[..], slot) && ClearFrom(dst, out[..], slot, end)
      invariant forall j :: 0 <= j < out.Length && (j < WRITE_POSITION || end <= j) ==> out[j] == old(out[j])
    {
      ghost var mid := out[..];
      RepackOneSlot(high, src, dst, out, slot, srcOffsets[slot], dstOffsets[slot]);
      SlotWritten(high, src, dst, mid, out[..], slot, end);
      OutsideKept(high, src, dst, mid, out[..], slot, end);
      assert forall j: nat :: j < out.Length && (j < WRITE_POSITION || end <= j) ==> out[..][j] == mid[j];
    }
  }

  lemma ClearBytes(data: seq<byte>, lo: nat, hi: nat)
    requires hi <= |data|
    requires forall j :: lo <= j < hi ==> data[j] == 0
    ensures forall k: nat :: 8 * lo <= k < 8 * hi ==> !BufferBit(data, k)
  {
    forall k: nat | 8 * lo <= k < 8 * hi ensures !BufferBit(data, k) { ZeroBits(k % 8); }
  }

  /** The whole effect of repacking on a buffer: position and tail copied, every slot
      rescaled, spare digits clear, and nothing changed from `dstEnd + TAIL_BYTES` on. */
  ghost predicate PayloadRepacked(high: seq<byte>, src: seq<nat>, dst: seq<nat>, srcEnd: nat, dstEnd: nat,
                                  before: seq<byte>, after: seq<byte>)
    requires Tables(src, dst) && EndsBy(src, srcEnd) && EndsBy(dst, dstEnd)
    requires srcEnd + TAIL_BYTES <= |high| && dstEnd + TAIL_BYTES <= |before|
    requires WRITE_POSITION <= srcEnd && WRITE_POSITION <= dstEnd
  {
    && |after| == |before|
    && after[..WRITE_POSITION] == high[..WRITE_POSITION]
    && SlotsRepacked(high, src, dst, after, |dst|)
    && ClearFrom(dst, after, |dst|, dstEnd)
    && after[dstEnd..dstEnd + TAIL_BYTES] == high[srcEnd..srcEnd + TAIL_BYTES]
    && after[dstEnd + TAIL_BYTES..] == before[dstEnd + TAIL_BYTES..]
  }

  method RepackPayload(high: seq<byte>, src: seq<nat>, dst: seq<nat>, srcEnd: nat, dstEnd: nat, out: array<byte>)
    requires Tables(src, dst) && EndsBy(src, srcEnd) && EndsBy(dst, dstEnd)
    requires srcEnd + TAIL_BYTES <= |high| && dstEnd + TAIL_BYTES <= out.Length
    requires WRITE_POSITION <= srcEnd && WRITE_POSITION <= dstEnd
    modifies out
    ensures PayloadRepacked(high, src, dst, srcEnd, dstEnd, old(out[..]), out[..])
  {
    forall j | 0 <= j < dstEnd + TAIL_BYTES { out[j] := 0; }
    forall j | 0 <= j < WRITE_POSITION { out[j] := high[j]; }
    ClearBytes(out[..], WRITE_POSITION, dstEnd);
    RepackSlots(high, src, dst, out, dstEnd);
    ghost var rotated := out[..];
    forall j | 0 <= j < TAIL_BYTES { out[dstEnd + j] := high[srcEnd + j]; }
    SlotsKept(high, src, dst, rotated, out[..], dstEnd);
  }
}
