/** One packed slot: the index of the dropped quaternion component in two bits, then the
    three remaining components in equal widths. */
module PackedSlot {
  import opened Bits
  import opened Rescale

  datatype Rotation = Rotation(largest: nat, a: nat, b: nat, c: nat)

  /** The rotation stored at digit `p` with components of `w` digits. */
  function DecodeAt(payload: seq<byte>, p: nat, w: nat): (r: Rotation)
    requires p + 2 + 3 * w <= 8 * |payload|
  {
    Rotation(Field(payload, p, 2),
             Field(payload, p + 2, w),
             Field(payload, p + 2 + w, w),
             Field(payload, p + 2 + 2 * w, w))
  }

  predicate RotationFits(r: Rotation, w: nat) {
    r.largest < 4 && r.a < Pow2(w) && r.b < Pow2(w) && r.c < Pow2(w)
  }

  lemma DecodedFits(payload: seq<byte>, p: nat, w: nat)
    requires p + 2 + 3 * w <= 8 * |payload|
    ensures RotationFits(DecodeAt(payload, p, w), w)
  {
    hide Field;
    assert Pow2(2) == 4;
    FieldBelow(payload, p, 2);
    FieldBelow(payload, p + 2, w);
    FieldBelow(payload, p + 2 + w, w);
    FieldBelow(payload, p + 2 + 2 * w, w);
  }

  lemma RescaledFits(r: Rotation, srcBits: nat, dstBits: nat)
    requires srcBits >= 1
    requires RotationFits(r, srcBits)
    ensures RotationFits(Rotation(r.largest, RescaleQuant(r.a, srcBits, dstBits), RescaleQuant(r.b, srcBits, dstBits),
                                  RescaleQuant(r.c, srcBits, dstBits)), dstBits)
  {
    RescaleInRange(r.a, srcBits, dstBits);
    RescaleInRange(r.b, srcBits, dstBits);
    RescaleInRange(r.c, srcBits, dstBits);
  }

  /** The word a rotation is packed into. */
  function Pack(r: Rotation, w: nat): nat {
    Or(Or(Or(r.largest, Shl(r.a, 2)), Shl(r.b, 2 + w)), Shl(r.c, 2 + 2 * w))
  }

  lemma PackedBits(r: Rotation, w: nat, i: nat)
    requires RotationFits(r, w)
    ensures BitAt(Pack(r, w), i) ==
            if i < 2 then BitAt(r.largest, i)
            else if i < 2 + w then BitAt(r.a, i - 2)
            else if i < 2 + 2 * w then BitAt(r.b, i - 2 - w)
            else BitAt(r.c, i - 2 - 2 * w)
  {
    var x1 := Or(r.largest, Shl(r.a, 2));
    var x2 := Or(x1, Shl(r.b, 2 + w));
    OrBits(x2, Shl(r.c, 2 + 2 * w), i);
    OrBits(x1, Shl(r.b, 2 + w), i);
    OrBits(r.largest, Shl(r.a, 2), i);
    ShlBits(r.a, 2, i);
    ShlBits(r.b, 2 + w, i);
    ShlBits(r.c, 2 + 2 * w, i);
    assert Pow2(2) == 4;
    BelowPow2(r.largest, 2);
    BelowPow2(r.a, w);
    BelowPow2(r.b, w);
  }

  /** The digits of `v` stand at digit `at` of the buffer. */
  ghost predicate Stored(data: seq<byte>, at: nat, w: nat, v: nat) {
    && at + w <= 8 * |data|
    && forall i: nat :: i < w ==> BufferBit(data, at + i) == BitAt(v, i)
  }

  /** A packed word decodes to the rotation it was packed from. */
  lemma StoredDecodes(data: seq<byte>, p: nat, w: nat, r: Rotation)
    requires RotationFits(r, w)
    requires Stored(data, p, 2 + 3 * w, Pack(r, w))
    ensures DecodeAt(data, p, w) == r
  {
    hide Field;
    StoredPart(data, p, w, r, 0, 2, r.largest);
    StoredPart(data, p, w, r, 2, w, r.a);
    StoredPart(data, p, w, r, 2 + w, w, r.b);
    StoredPart(data, p, w, r, 2 + 2 * w, w, r.c);
  }

  lemma SmallFits(r: Rotation, w: nat)
    requires RotationFits(r, w)
    ensures r.largest < Pow2(2)
  {
    assert Pow2(2) == 2 * Pow2(1);
  }

  lemma StoredPart(data: seq<byte>, p: nat, w: nat, r: Rotation, skip: nat, width: nat, v: nat)
    requires RotationFits(r, w)
    requires Stored(data, p, 2 + 3 * w, Pack(r, w))
    requires || (skip == 0 && width == 2 && v == r.largest)
             || (skip == 2 && width == w && v == r.a)
             || (skip == 2 + w && width == w && v == r.b)
             || (skip == 2 + 2 * w && width == w && v == r.c)
    ensures Field(data, p + skip, width) == v
  {
    hide Field, Pack, BitAt, BufferBit;
    SmallFits(r, w);
    forall i: nat | i < width ensures BufferBit(data, (p + skip) + i) == BitAt(v, i) {
      PackedBits(r, w, skip + i);
      assert BufferBit(data, p + (skip + i)) == BitAt(Pack(r, w), skip + i);
    }
    FieldIs(data, p + skip, width, v);
  }

  /** ORing into clear digits stores the word. */
  lemma WrittenIsStored(before: seq<byte>, after: seq<byte>, p: nat, count: nat, v: nat)
    requires p + count <= 8 * |before|
    requires forall k: nat :: p <= k < p + count ==> !BufferBit(before, k)
    requires OrWritten(before, after, p, count, v)
    ensures Stored(after, p, count, v)
  {}

  /** A slot none of whose digits differ decodes alike in both buffers. */
  lemma SlotUnchanged(a: seq<byte>, b: seq<byte>, p: nat, w: nat)
    requires p + 2 + 3 * w <= 8 * |a| && p + 2 + 3 * w <= 8 * |b|
    requires forall k: nat :: p <= k < p + 2 + 3 * w ==> BufferBit(a, k) == BufferBit(b, k)
    ensures DecodeAt(a, p, w) == DecodeAt(b, p, w)
  {
    hide Field;
    FieldUnchanged(a, b, p, 2);
    FieldUnchanged(a, b, p + 2, w);
    FieldUnchanged(a, b, p + 2 + w, w);
    FieldUnchanged(a, b, p + 2 + 2 * w, w);
  }

  lemma ByteIndex(pos: nat, j: nat, b: nat)
    requires pos == 8 * j + b && b < 8
    ensures pos / 8 == j && pos % 8 == b
  {}

  /** Reads `bitCount` digits, up to eight per turn. */
  method ReadBits(src: seq<byte>, base: nat, bitPos: nat, bitCount: nat) returns (result: nat)
    requires 8 * base + bitPos + bitCount <= 8 * |src|
    ensures result == Field(src, 8 * base + bitPos, bitCount)
  {
    var bytePos: nat := base + bitPos / 8;
    var bitInByte: nat := bitPos % 8;
    result := 0;
    var outShift: nat := 0;
    var bitsLeft: nat := bitCount;
    ghost var pos := 8 * base + bitPos;
    while bitsLeft > 0
      invariant outShift + bitsLeft == bitCount
      invariant bitInByte < 8
      invariant bitsLeft > 0 ==> pos + outShift == 8 * bytePos + bitInByte
      invariant result == Field(src, pos, outShift)
    {
      var room := 8 - bitInByte;
      var take := if bitsLeft < room then bitsLeft else room;
      ByteIndex(pos + outShift, bytePos, bitInByte);
      ReadChunk(src, pos, outShift, take);
      var current := Shr(src[bytePos], bitInByte);
      result := Or(result, Shl(And(current, Mask(take)), outShift));
      outShift := outShift + take;
      bitsLeft := bitsLeft - take;
      bytePos := bytePos + 1;
      bitInByte := 0;
    }
  }

  /** ORs the low `bitCount` digits of `value` into the buffer, up to eight per turn. */
  method WriteBits(dst: array<byte>, base: nat, bitPos: nat, value: nat, bitCount: nat)
    requires 8 * base + bitPos + bitCount <= 8 * dst.Length
    modifies dst
    ensures OrWritten(old(dst[..]), dst[..], 8 * base + bitPos, bitCount, value)
  {
    var bytePos: nat := base + bitPos / 8;
    var bitInByte: nat := bitPos % 8;
    var rest := value;
    var bitsLeft: nat := bitCount;
    ghost var pos, before, done: nat := 8 * base + bitPos, dst[..], 0;
    while bitsLeft > 0
      invariant done + bitsLeft == bitCount
      invariant bitInByte < 8
      invariant bitsLeft > 0 ==> pos + done == 8 * bytePos + bitInByte
      invariant rest == Shr(value, done)
      invariant OrWritten(before, dst[..], pos, done, value)
    {
      var room := 8 - bitInByte;
      var take := if bitsLeft < room then bitsLeft else room;
      var chunk := And(rest, Mask(take));
      ByteIndex(pos + done, bytePos, bitInByte);
      OrByte(dst, bytePos, Shl(chunk, bitInByte), before, pos, done, take, value);
      ShrAdds(value, done, take);
      rest := Shr(rest, take);
      bitsLeft := bitsLeft - take;
      done := done + take;
      bytePos := bytePos + 1;
      bitInByte := 0;
    }
  }

  /** `dst[j] |= chunk`, the one store of the writer's loop. */
  method OrByte(dst: array<byte>, j: nat, chunk: nat,
                ghost before: seq<byte>, ghost pos: nat, ghost done: nat, ghost take: nat, ghost value: nat)
    requires OrWritten(before, dst[..], pos, done, value)
    requires pos + done + take <= 8 * dst.Length
    requires 1 <= take <= 8 - (pos + done) % 8
    requires j == (pos + done) / 8 && chunk == ByteChunk(value, done, take, (pos + done) % 8)
    modifies dst
    ensures OrWritten(before, dst[..], pos, done + take, value)
  {
    ghost var mid := dst[..];
    ByteChunkFits(value, done, take, (pos + done) % 8);
    ByteOr(dst[j], chunk);
    dst[j] := Or(dst[j], chunk);
    WriteChunk(before, mid, dst[..], pos, done, take, value);
  }
}
