/** The client's bit-at-a-time pose writer, and its agreement with the server's chunked one. */
module ClientPose {
  import opened Bits
  import opened Rescale
  import opened PackedSlot
  import opened SlotLayout
  import opened SlotTable
  import opened Avatar

  /** Room left from digit `bit` on, at most `count` digits. */
  function Writable(len: nat, bit: nat, count: nat): nat {
    if bit + count <= 8 * len then count else if bit <= 8 * len then 8 * len - bit else 0
  }

  /** Two buffers written alike from one buffer are equal: what a writer leaves behind is
      settled by position, width and value, not by how many digits it stores at a time. */
  lemma WritersAgree(before: seq<byte>, a: seq<byte>, b: seq<byte>, pos: nat, count: nat, value: nat)
    requires OrWritten(before, a, pos, count, value)
    requires OrWritten(before, b, pos, count, value)
    ensures a == b
  {
    BuffersDetermined(a, b);
  }

  /** Writing the next `m` digits of a word after its first `n` has written the first `n + m`. */
  lemma WritesJoin(before: seq<byte>, mid: seq<byte>, after: seq<byte>, pos: nat, n: nat, m: nat, word: nat, part: nat)
    requires OrWritten(before, mid, pos, n, word)
    requires OrWritten(mid, after, pos + n, m, part)
    requires forall i: nat :: i < m ==> BitAt(part, i) == BitAt(word, n + i)
    ensures OrWritten(before, after, pos, n + m, word)
  {}

  function Min(a: nat, b: nat): nat { if a < b then a else b }

  /** The rotation stored for quantised components `q` with component `largest` dropped. */
  function Quantised(largest: nat, q: seq<nat>, w: nat): (r: Rotation)
    requires largest < 4 && |q| == 4
    ensures RotationFits(r, w)
  {
    Rotation(largest,
             Min(q[if largest == 0 then 1 else 0], Mask(w)),
             Min(q[if largest <= 1 then 2 else 1], Mask(w)),
             Min(q[if largest <= 2 then 3 else 2], Mask(w)))
  }

  /** The `k`-th stored component. */
  function Component(r: Rotation, k: nat): nat {
    if k == 0 then r.a else if k == 1 then r.b else r.c
  }

  /** Digits stored before component `k`. */
  function DigitsBefore(k: nat, w: nat): nat {
    if k == 0 then 2 else if k == 1 then 2 + w else if k == 2 then 2 + 2 * w else 2 + 3 * w
  }

  /** The digits of a component are the packed word's digits at its place. */
  lemma ComponentDigits(r: Rotation, w: nat, k: nat)
    requires RotationFits(r, w) && k < 3
    ensures forall i: nat :: i < w ==> BitAt(Component(r, k), i) == BitAt(Pack(r, w), DigitsBefore(k, w) + i)
  {
    forall i: nat | i < w ensures BitAt(Component(r, k), i) == BitAt(Pack(r, w), DigitsBefore(k, w) + i) {
      PackedBits(r, w, DigitsBefore(k, w) + i);
    }
  }

  class BitWriter {
    const data: array<byte>
    var bit: nat

    constructor (data: array<byte>)
      ensures this.data == data && bit == 0
    {
      this.data := data;
      bit := 0;
    }

    /** Writes digit by digit and stops silently at the end of the buffer. */
    method WriteBits(value: nat, count: nat)
      modifies this, data
      ensures var n := Writable(data.Length, old(bit), count);
              bit == old(bit) + n && OrWritten(old(data[..]), data[..], old(bit), n, value)
    {
      var rest := value;
      ghost var start, before := bit, data[..];
      for done := 0 to count
        invariant bit == start + done && (done > 0 ==> bit <= 8 * data.Length)
        invariant rest == Shr(value, done)
        invariant OrWritten(before, data[..], start, done, value)
      {
        var j := bit / 8;
        if j >= data.Length { return; }
        ShrBits(value, done, 0);
        ghost var mid := data[..];
        SetIfOdd(data, j, bit % 8, rest);
        OneDigit(before, mid, data[..], start, done, value);
        ShrAdds(value, done, 1);
        rest := rest / 2;
        bit := bit + 1;
      }
    }

    /** Two bits for the dropped component, then the other three in ascending order. */
    method WriteSmallestThree(largest: nat, q: seq<nat>, w: nat)
      requires largest < 4 && |q| == 4
      requires bit + 2 + 3 * w <= 8 * data.Length
      modifies this, data
      ensures bit == old(bit) + 2 + 3 * w
      ensures OrWritten(old(data[..]), data[..], old(bit), 2 + 3 * w, Pack(Quantised(largest, q, w), w))
    {
      ghost var start, before, r := bit, data[..], Quantised(largest, q, w);
      WriteBits(largest, 2);
      FirstTwoDigits(before, data[..], start, r, w);
      var maxQuantized := Mask(w);
      var i := 0;
      ghost var k := 0;
      while i < 4
        invariant 0 <= i <= 4
        invariant k == if i > largest then i - 1 else i
        invariant bit == start + DigitsBefore(k, w)
        invariant OrWritten(before, data[..], start, DigitsBefore(k, w), Pack(r, w))
      {
        if i != largest {
          ghost var mid := data[..];
          assert Component(r, k) == Min(q[i], Mask(w));
          ComponentDigits(r, w, k);
          WriteBits(Min(q[i], maxQuantized), w);
          WritesJoin(before, mid, data[..], start, DigitsBefore(k, w), w, Pack(r, w), Component(r, k));
          k := k + 1;
        }
        i := i + 1;
      }
    }
  }

  /** `if value & 1 != 0 { data[j] |= 1 << b }` */
  method SetIfOdd(data: array<byte>, j: nat, b: nat, value: nat)
    requires j < data.Length && b < 8
    modifies data
    ensures OrWritten(old(data[..]), data[..], 8 * j + b, 1, value)
  {
    if value % 2 != 0 {
      ghost var before := data[..];
      ShlIsProduct(1, b);
      Pow2Grows(b, 7);
      assert Pow2(7) == 128;
      ByteOr(data[j], Shl(1, b));
      data[j] := Or(data[j], Shl(1, b));
      OneBitSet(before, data[..], j, b, value);
    }
  }

  lemma OneBitSet(before: seq<byte>, after: seq<byte>, j: nat, b: nat, value: nat)
    requires j < |before| && b < 8 && value % 2 == 1
    requires Or(before[j], Shl(1, b)) < 256 && after == before[j := Or(before[j], Shl(1, b))]
    ensures OrWritten(before, after, 8 * j + b, 1, value)
  {
    forall k: nat | k < 8 * |after|
      ensures BufferBit(after, k)
           == (BufferBit(before, k) || (8 * j + b <= k < 8 * j + b + 1 && BitAt(value, k - (8 * j + b))))
    {
      if k / 8 == j {
        OrBits(before[j], Shl(1, b), k % 8);
        ShlBits(1, b, k % 8);
        if k % 8 > b { ZeroBits(k % 8 - b - 1); }
      }
    }
  }

  lemma OneDigit(before: seq<byte>, mid: seq<byte>, after: seq<byte>, start: nat, done: nat, value: nat)
    requires OrWritten(before, mid, start, done, value)
    requires OrWritten(mid, after, start + done, 1, Shr(value, done))
    ensures OrWritten(before, after, start, done + 1, value)
  {
    forall i: nat | i < 1 ensures BitAt(Shr(value, done), i) == BitAt(value, done + i) { ShrBits(value, done, i); }
    WritesJoin(before, mid, after, start, done, 1, value, Shr(value, done));
  }

  lemma FirstTwoDigits(before: seq<byte>, after: seq<byte>, start: nat, r: Rotation, w: nat)
    requires RotationFits(r, w)
    requires OrWritten(before, after, start, 2, r.largest)
    ensures OrWritten(before, after, start, 2, Pack(r, w))
  {
    forall i: nat | i < 2 ensures BitAt(r.largest, i) == BitAt(Pack(r, w), i) { PackedBits(r, w, i); }
  }

  /** A bone's pose after quantisation: which component is dropped, and all four codes. */
  datatype BonePose = BonePose(largest: nat, q: seq<nat>)

  ghost predicate Poses(bones: seq<BonePose>) {
    forall i :: 0 <= i < |bones| ==> bones[i].largest < 4 && |bones[i].q| == 4
  }

  function StoredPose(bone: BonePose, w: nat): (r: Rotation)
    requires bone.largest < 4 && |bone.q| == 4
    ensures RotationFits(r, w)
  {
    Quantised(bone.largest, bone.q, w)
  }

  ghost predicate BoneStored(data: seq<byte>, p: nat, w: nat, bone: BonePose)
    requires bone.largest < 4 && |bone.q| == 4
  {
    p + 2 + 3 * w <= 8 * |data| && DecodeAt(data, p, w) == StoredPose(bone, w)
  }

  /** The first `count` bones stand packed at the start of the buffer. */
  ghost predicate BonesWritten(data: seq<byte>, bpc: seq<nat>, bones: seq<BonePose>, count: nat)
    requires count <= |bones| == |bpc| && Poses(bones)
  {
    forall s: nat :: s < count ==> BoneStored(data, BitOffset(bpc, s), bpc[s], bones[s])
  }

  ghost predicate ClearFromDigit(data: seq<byte>, p: nat) {
    forall k: nat :: p <= k < 8 * |data| ==> !BufferBit(data, k)
  }

  lemma NewBone(before: seq<byte>, after: seq<byte>, p: nat, w: nat, r: Rotation)
    requires RotationFits(r, w) && p + 2 + 3 * w <= 8 * |before|
    requires ClearFromDigit(before, p)
    requires OrWritten(before, after, p, 2 + 3 * w, Pack(r, w))
    ensures |after| == |before|
    ensures DecodeAt(after, p, w) == r
    ensures ClearFromDigit(after, p + 2 + 3 * w)
  {
    WrittenIsStored(before, after, p, 2 + 3 * w, Pack(r, w));
    StoredDecodes(after, p, w, r);
  }

  lemma EarlierBone(before: seq<byte>, after: seq<byte>, p: nat, n: nat, v: nat, pos: nat, w: nat)
    requires OrWritten(before, after, p, n, v)
    requires pos + 2 + 3 * w <= p && pos + 2 + 3 * w <= 8 * |before|
    ensures DecodeAt(after, pos, w) == DecodeAt(before, pos, w)
  {
    SlotUnchanged(before, after, pos, w);
  }

  lemma BoneWritten(before: seq<byte>, after: seq<byte>, bpc: seq<nat>, bones: seq<BonePose>, s: nat)
    requires s < |bones| == |bpc| && Poses(bones)
    requires BitOffset(bpc, s) + 2 + 3 * bpc[s] <= 8 * |before|
    requires BonesWritten(before, bpc, bones, s)
    requires ClearFromDigit(before, BitOffset(bpc, s))
    requires OrWritten(before, after, BitOffset(bpc, s), 2 + 3 * bpc[s], Pack(StoredPose(bones[s], bpc[s]), bpc[s]))
    ensures BonesWritten(after, bpc, bones, s + 1)
    ensures ClearFromDigit(after, BitOffset(bpc, s + 1))
  {
    hide BitOffset, Field, BufferBit, Pack, StoredPose, DecodeAt, RotationFits, OrWritten, ClearFromDigit;
    OffsetStep(bpc, s);
    var p, w, r := BitOffset(bpc, s), bpc[s], StoredPose(bones[s], bpc[s]);
    NewBone(before, after, p, w, r);
    BonesKept(before, after, bpc, bones, s, 2 + 3 * w, Pack(r, w));
  }

  lemma BonesKept(before: seq<byte>, after: seq<byte>, bpc: seq<nat>, bones: seq<BonePose>, s: nat, n: nat, v: nat)
    requires s < |bones| == |bpc| && Poses(bones)
    requires BonesWritten(before, bpc, bones, s)
    requires OrWritten(before, after, BitOffset(bpc, s), n, v)
    ensures BonesWritten(after, bpc, bones, s)
  {
    hide BitOffset, Field, BufferBit, StoredPose, DecodeAt;
    forall e: nat | e < s ensures BoneStored(after, BitOffset(bpc, e), bpc[e], bones[e]) {
      assert BoneStored(before, BitOffset(bpc, e), bpc[e], bones[e]);
      SlotsDisjoint(bpc, e, s);
      EarlierBone(before, after, BitOffset(bpc, s), n, v, BitOffset(bpc, e), bpc[e]);
    }
  }

  /** The loop over all bones: clears the buffer, then packs one bone after the other. */
  method WriteHighQualityRotations(target: array<byte>, bpc: seq<nat>, bones: seq<BonePose>)
    requires |bones| == |bpc| && Poses(bones)
    requires BitOffset(bpc, |bpc|) <= 8 * target.Length
    modifies target
    ensures BonesWritten(target[..], bpc, bones, |bones|)
  {
    hide BonesWritten, ClearFromDigit, BitOffset, Pack, OrWritten, StoredPose, Quantised, Poses;
    forall j | 0 <= j < target.Length { target[j] := 0; }
    NoBones(target[..], bpc, bones);
    var writer := new BitWriter(target);
    for bone := 0 to |bones|
      invariant writer.data == target
      invariant writer.bit == BitOffset(bpc, bone)
      invariant BonesWritten(target[..], bpc, bones, bone)
      invariant ClearFromDigit(target[..], BitOffset(bpc, bone))
    {
      OffsetsMonotone(bpc, bone + 1, |bpc|);
      OffsetStep(bpc, bone);
      ghost var before := target[..];
      PoseOf(bones, bone, bpc[bone]);
      writer.WriteSmallestThree(bones[bone].largest, bones[bone].q, bpc[bone]);
      BoneWritten(before, target[..], bpc, bones, bone);
    }
  }

  lemma PoseOf(bones: seq<BonePose>, bone: nat, w: nat)
    requires bone < |bones| && Poses(bones)
    ensures bones[bone].largest < 4 && |bones[bone].q| == 4
    ensures StoredPose(bones[bone], w) == Quantised(bones[bone].largest, bones[bone].q, w)
  {}

  lemma NoBones(data: seq<byte>, bpc: seq<nat>, bones: seq<BonePose>)
    requires |bones| == |bpc| && Poses(bones)
    requires forall j :: 0 <= j < |data| ==> data[j] == 0
    ensures BitOffset(bpc, 0) == 0
    ensures BonesWritten(data, bpc, bones, 0) && ClearFromDigit(data, 0)
  {
    ClearBytes(data, 0, |data|);
  }

  ghost predicate Embedded(a: seq<byte>, b: seq<byte>, shift: nat) {
    && shift + 8 * |b| <= 8 * |a|
    && forall k: nat :: k < 8 * |b| ==> BufferBit(a, shift + k) == BufferBit(b, k)
  }

  lemma Placed(payload: seq<byte>, part: seq<byte>, start: nat)
    requires start + |part| <= |payload| && payload[start..start + |part|] == part
    ensures Embedded(payload, part, 8 * start)
  {}

  /** Rotation bytes placed in a payload decode, bone by bone, to what was written. */
  lemma PlacedSlot(payload: seq<byte>, part: seq<byte>, start: nat, p: nat, w: nat)
    requires p + 2 + 3 * w <= 8 * |part|
    requires start + |part| <= |payload| && payload[start..start + |part|] == part
    ensures DecodeAt(payload, 8 * start + p, w) == DecodeAt(part, p, w)
  {
    hide Field;
    Placed(payload, part, start);
    FieldMoved(payload, part, 8 * start, p, 2);
    FieldMoved(payload, part, 8 * start, p + 2, w);
    FieldMoved(payload, part, 8 * start, p + 2 + w, w);
    FieldMoved(payload, part, 8 * start, p + 2 + 2 * w, w);
  }

  lemma FieldMoved(a: seq<byte>, b: seq<byte>, shift: nat, pos: nat, count: nat)
    requires Embedded(a, b, shift) && pos + count <= 8 * |b|
    ensures shift + pos + count <= 8 * |a|
    ensures Field(a, shift + pos, count) == Field(b, pos, count)
  {
    hide Field, BufferBit;
    FieldBelow(b, pos, count);
    forall i: nat | i < count ensures BufferBit(a, (shift + pos) + i) == BitAt(Field(b, pos, count), i) {
      FieldBits(b, pos, count, i);
      assert BufferBit(a, shift + (pos + i)) == BufferBit(b, pos + i);
    }
    FieldIs(a, shift + pos, count, Field(b, pos, count));
  }

  /** The bone's slot holds the number of the dropped component and, in the order of their numbers,
      the codes of the other three. */
  ghost predicate HoldsCodes(payload: seq<byte>, quality: BitQuality, slot: nat, largest: nat, codes: seq<nat>)
    requires slot < SYNC_BONE_COUNT && |payload| >= quality.PayloadLen() && largest < 4 && |codes| == 4
  {
    QualityFits(quality);
    SlotInside(quality.Table(), slot, |payload|);
    TableAt(quality, slot);
    var p, w := SlotPos(quality.Table(), slot), quality.Bpc(slot);
    var places := [p + 2, p + 2 + w, p + 2 + 2 * w];
    && Field(payload, p, 2) == largest
    && forall i | 0 <= i < 4 && i != largest ::
         Field(payload, places[if i < largest then i else i - 1], w) == codes[i]
  }

  /** The client's codes: each component cut to the width of the slot. */
  function SentCodes(bone: BonePose, w: nat): (codes: seq<nat>)
    requires |bone.q| == 4
    ensures |codes| == 4
  {
    seq(4, i requires 0 <= i < 4 => Min(bone.q[i], Mask(w)))
  }

  function RescaledCodes(codes: seq<nat>, w: nat, v: nat): (rescaled: seq<nat>)
    requires w >= 1
    ensures |rescaled| == |codes|
  {
    seq(|codes|, i requires 0 <= i < |codes| => RescaleQuant(codes[i], w, v))
  }

  /** The client's own table of component widths. */
  const CLIENT_BPC: seq<nat> :=
    [10, 10, 10, 10, 10, 10, 10, 10, 10, 10, 10, 10, 10, 10, 10, 10, 10] + [9, 9] + [5, 5] + [6, 6, 6, 6] +
    [5] + [6, 6, 6, 6] + [5] + [6, 6] + [5, 5, 5] + [6, 6] + [5, 5, 5, 5, 5, 5, 5, 5, 5, 5, 5, 5, 5]

  lemma ClientTableAgrees()
    ensures CLIENT_BPC == High.Table()
  {
    HighWrittenOut();
  }

  /** A high-quality payload whose rotation bytes hold the given bones. */
  ghost predicate CarriesPose(high: seq<byte>, rotations: seq<byte>, bones: seq<BonePose>) {
    && |bones| == SYNC_BONE_COUNT && Poses(bones)
    && BonesWritten(rotations, CLIENT_BPC, bones, SYNC_BONE_COUNT)
    && |rotations| == High.RotationLen() && |high| >= High.PayloadLen()
    && high[WRITE_POSITION..WRITE_POSITION + |rotations|] == rotations
  }

  /** From the client's codes to the server: every bone's codes stand where the server reads them. */
  lemma PoseReachesServer(rotations: seq<byte>, bones: seq<BonePose>, high: seq<byte>, slot: nat)
    requires CarriesPose(high, rotations, bones)
    requires slot < SYNC_BONE_COUNT
    ensures HoldsCodes(high, High, slot, bones[slot].largest, SentCodes(bones[slot], High.Bpc(slot)))
  {
    hide Field, BufferBit, BitQuality.Table, BitQuality.Bpc, BitOffset, SlotBits, Mask, CLIENT_BPC;
    ClientTableAgrees();
    QualityFits(High);
    TableAt(High, slot);
    SlotInside(High.Table(), slot, |high|);
    ClientBone(rotations, bones, high, High.Table(), slot);
  }

  /** And on to a receiver of the repacked payload: the client's codes, each rescaled, in their places. */
  lemma PoseSurvivesRepacking(
    rotations: seq<byte>, bones: seq<BonePose>, high: seq<byte>, target: BitQuality,
    before: seq<byte>, after: seq<byte>, slot: nat)
    requires CarriesPose(high, rotations, bones)
    requires |before| >= target.PayloadLen() && RepackedInto(high, target, before, after)
    requires slot < SYNC_BONE_COUNT
    ensures |after| == |before|
    ensures var w := High.Bpc(slot);
            HoldsCodes(after, target, slot, bones[slot].largest,
                       RescaledCodes(SentCodes(bones[slot], w), w, target.Bpc(slot)))
  {
    hide Field, BufferBit, RescaleQuant, BitQuality.Table, BitQuality.Bpc, BitOffset, SlotBits, Mask, CLIENT_BPC;
    PoseReachesServer(rotations, bones, high, slot);
    QualityFits(High);
    QualityFits(target);
    TableAt(High, slot);
    TableAt(target, slot);
    assert SlotRescaled(high, High.Table(), target.Table(), after, slot);
  }

  lemma ClientBone(rotations: seq<byte>, bones: seq<BonePose>, high: seq<byte>, bpc: seq<nat>, slot: nat)
    requires slot < |bones| == |bpc| && Poses(bones)
    requires BonesWritten(rotations, bpc, bones, |bones|)
    requires WRITE_POSITION + |rotations| <= |high|
    requires high[WRITE_POSITION..WRITE_POSITION + |rotations|] == rotations
    requires EndsBy(bpc, |high|)
    ensures DecodeSlot(high, bpc, slot) == StoredPose(bones[slot], bpc[slot])
  {
    hide BitOffset, Field, BufferBit, StoredPose, DecodeAt;
    assert BoneStored(rotations, BitOffset(bpc, slot), bpc[slot], bones[slot]);
    PlacedSlot(high, rotations, WRITE_POSITION, BitOffset(bpc, slot), bpc[slot]);
  }
}
