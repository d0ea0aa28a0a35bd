/** Bitwise arithmetic on unbounded naturals, defined digit by digit so that every
    operator is characterised by what it does to each binary digit. */
module Bits {

  type byte = x: int | 0 <= x < 256

  function Pow2(n: nat): (p: nat)
    ensures p >= 1
  {
    if n == 0 then 1 else 2 * Pow2(n - 1)
  }

  /** Binary digit `i` of `x`. */
  predicate BitAt(x: nat, i: nat) {
    if i == 0 then x % 2 == 1 else BitAt(x / 2, i - 1)
  }

  function Digit(b: bool): (d: nat) { if b then 1 else 0 }

  function Shl(x: nat, n: nat): nat {
    if n == 0 then x else 2 * Shl(x, n - 1)
  }

  function Shr(x: nat, n: nat): nat {
    if n == 0 then x else Shr(x / 2, n - 1)
  }

  function Or(x: nat, y: nat): nat
    decreases x + y
  {
    if x == 0 && y == 0 then 0
    else 2 * Or(x / 2, y / 2) + Digit(x % 2 == 1 || y % 2 == 1)
  }

  function And(x: nat, y: nat): nat
    decreases x
  {
    if x == 0 then 0
    else 2 * And(x / 2, y / 2) + Digit(x % 2 == 1 && y % 2 == 1)
  }

  /** `(1 << n) - 1`. */
  function Mask(n: nat): nat { Pow2(n) - 1 }

  lemma {:induction false} ZeroBits(i: nat)
    ensures !BitAt(0, i)
  {
    if i > 0 { ZeroBits(i - 1); }
  }

  lemma {:induction false} OrBits(x: nat, y: nat, i: nat)
    ensures BitAt(Or(x, y), i) == (BitAt(x, i) || BitAt(y, i))
    decreases i
  {
    if x == 0 && y == 0 {
      ZeroBits(i);
    } else {
      assert Or(x, y) / 2 == Or(x / 2, y / 2);
      if i > 0 { OrBits(x / 2, y / 2, i - 1); }
    }
  }

  lemma {:induction false} AndBits(x: nat, y: nat, i: nat)
    ensures BitAt(And(x, y), i) == (BitAt(x, i) && BitAt(y, i))
    decreases i
  {
    if x == 0 {
      ZeroBits(i);
    } else {
      assert And(x, y) / 2 == And(x / 2, y / 2);
      if i > 0 { AndBits(x / 2, y / 2, i - 1); }
    }
  }

  lemma {:induction false} ShrBits(x: nat, n: nat, i: nat)
    ensures BitAt(Shr(x, n), i) == BitAt(x, n + i)
  {
    if n > 0 { ShrBits(x / 2, n - 1, i); }
  }

  lemma {:induction false} ShlBits(x: nat, n: nat, i: nat)
    ensures BitAt(Shl(x, n), i) == (i >= n && BitAt(x, i - n))
  {
    if n > 0 {
      assert Shl(x, n) / 2 == Shl(x, n - 1);
      if i > 0 { ShlBits(x, n - 1, i - 1); }
    }
  }

  lemma {:induction false} MaskBits(n: nat, i: nat)
    ensures BitAt(Mask(n), i) == (i < n)
  {
    if n == 0 {
      ZeroBits(i);
    } else {
      assert Mask(n) / 2 == Mask(n - 1);
      if i > 0 { MaskBits(n - 1, i - 1); }
    }
  }

  /** Two naturals with the same binary digits are equal. */
  lemma {:induction false} BitsDetermine(x: nat, y: nat)
    requires forall i: nat :: BitAt(x, i) == BitAt(y, i)
    ensures x == y
    decreases x + y
  {
    if x != 0 || y != 0 {
      assert BitAt(x, 0) == BitAt(y, 0);
      forall i: nat ensures BitAt(x / 2, i) == BitAt(y / 2, i) {
        assert BitAt(x, i + 1) == BitAt(y, i + 1);
      }
      BitsDetermine(x / 2, y / 2);
    }
  }

  ghost predicate NoBitsFrom(x: nat, n: nat) {
    forall i: nat :: i >= n ==> !BitAt(x, i)
  }

  lemma NoBitsHalf(x: nat, n: nat)
    requires n > 0
    ensures NoBitsFrom(x, n) <==> NoBitsFrom(x / 2, n - 1)
  {
    if NoBitsFrom(x, n) {
      forall i: nat | i >= n - 1 ensures !BitAt(x / 2, i) { assert !BitAt(x, i + 1); }
    }
    if NoBitsFrom(x / 2, n - 1) {
      forall i: nat | i >= n ensures !BitAt(x, i) { assert !BitAt(x / 2, i - 1); }
    }
  }

  /** A natural is below `2^n` exactly when no digit at `n` or above is set. */
  lemma {:induction false} BelowPow2(x: nat, n: nat)
    ensures x < Pow2(n) <==> NoBitsFrom(x, n)
    decreases n, x
  {
    if n == 0 {
      forall i: nat ensures !BitAt(0, i) { ZeroBits(i); }
      if NoBitsFrom(x, 0) { BitsDetermine(x, 0); }
    } else {
      NoBitsHalf(x, n);
      BelowPow2(x / 2, n - 1);
    }
  }

  lemma {:induction false} ShlIsProduct(x: nat, n: nat)
    ensures Shl(x, n) == x * Pow2(n)
  {
    if n > 0 {
      ShlIsProduct(x, n - 1);
      assert x * Pow2(n) == 2 * (x * Pow2(n - 1));
    }
  }

  lemma {:induction false} Pow2Adds(m: nat, n: nat)
    ensures Pow2(m + n) == Pow2(m) * Pow2(n)
  {
    if m > 0 {
      Pow2Adds(m - 1, n);
      assert Pow2(m) * Pow2(n) == 2 * (Pow2(m - 1) * Pow2(n));
    }
  }

  lemma {:induction false} Pow2Grows(m: nat, n: nat)
    requires m <= n
    ensures Pow2(m) <= Pow2(n)
  {
    if m < n { Pow2Grows(m, n - 1); }
  }

  /** Binary digit `k` of a byte buffer read least significant bit first. */
  predicate BufferBit(data: seq<byte>, k: nat)
    requires k < 8 * |data|
  {
    BitAt(data[k / 8], k % 8)
  }

  /** The `count` digits of a buffer from digit `pos` on, as one natural. */
  function Field(data: seq<byte>, pos: nat, count: nat): nat
    requires pos + count <= 8 * |data|
    decreases count
  {
    if count == 0 then 0
    else Digit(BufferBit(data, pos)) + 2 * Field(data, pos + 1, count - 1)
  }

  lemma {:induction false} FieldBits(data: seq<byte>, pos: nat, count: nat, i: nat)
    requires pos + count <= 8 * |data|
    ensures BitAt(Field(data, pos, count), i) == (i < count && BufferBit(data, pos + i))
    decreases count
  {
    if count == 0 {
      ZeroBits(i);
    } else {
      assert Field(data, pos, count) / 2 == Field(data, pos + 1, count - 1);
      if i > 0 { FieldBits(data, pos + 1, count - 1, i - 1); }
    }
  }

  lemma FieldBelow(data: seq<byte>, pos: nat, count: nat)
    requires pos + count <= 8 * |data|
    ensures Field(data, pos, count) < Pow2(count)
  {
    var f := Field(data, pos, count);
    forall i: nat | i >= count ensures !BitAt(f, i) { FieldBits(data, pos, count, i); }
    BelowPow2(f, count);
  }

  /** A field is the only natural with the buffer's digits in its range and none above. */
  lemma FieldIs(data: seq<byte>, pos: nat, count: nat, v: nat)
    requires pos + count <= 8 * |data|
    requires v < Pow2(count)
    requires forall i: nat :: i < count ==> BufferBit(data, pos + i) == BitAt(v, i)
    ensures Field(data, pos, count) == v
  {
    var f := Field(data, pos, count);
    BelowPow2(v, count);
    forall i: nat ensures BitAt(f, i) == BitAt(v, i) { FieldBits(data, pos, count, i); }
    BitsDetermine(f, v);
  }

  /** A field inside a field: shifting right and masking selects the inner digits. */
  lemma FieldOfField(data: seq<byte>, pos: nat, count: nat, skip: nat, width: nat)
    requires pos + count <= 8 * |data|
    requires skip + width <= count
    ensures And(Shr(Field(data, pos, count), skip), Mask(width)) == Field(data, pos + skip, width)
  {
    var outer := Field(data, pos, count);
    var inner := And(Shr(outer, skip), Mask(width));
    forall i: nat ensures BitAt(inner, i) == BitAt(Field(data, pos + skip, width), i) {
      AndBits(Shr(outer, skip), Mask(width), i);
      ShrBits(outer, skip, i);
      MaskBits(width, i);
      FieldBits(data, pos, count, skip + i);
      FieldBits(data, pos + skip, width, i);
    }
    BitsDetermine(inner, Field(data, pos + skip, width));
  }

  /** Buffers of one length with the same digits are equal. */
  lemma BuffersDetermined(a: seq<byte>, b: seq<byte>)
    requires |a| == |b|
    requires forall k: nat :: k < 8 * |a| ==> BufferBit(a, k) == BufferBit(b, k)
    ensures a == b
  {
    assert Pow2(8) == 256;
    forall j | 0 <= j < |a| ensures a[j] == b[j] {
      BelowPow2(a[j], 8);
      BelowPow2(b[j], 8);
      forall i: nat ensures BitAt(a[j], i) == BitAt(b[j], i) {
        if i < 8 { assert BufferBit(a, 8 * j + i) == BufferBit(b, 8 * j + i); }
      }
      BitsDetermine(a[j], b[j]);
    }
  }

  lemma ByteOr(x: byte, y: nat)
    requires y < 256
    ensures Or(x, y) < 256
  {
    assert Pow2(8) == 256;
    BelowPow2(x, 8);
    BelowPow2(y, 8);
    forall i: nat | i >= 8 ensures !BitAt(Or(x, y), i) { OrBits(x, y, i); }
    BelowPow2(Or(x, y), 8);
  }

  lemma {:induction false} ShrAdds(x: nat, m: nat, n: nat)
    ensures Shr(Shr(x, m), n) == Shr(x, m + n)
  {
    if m > 0 { ShrAdds(x / 2, m - 1, n); }
  }

  /** `after` is `before` with the low `count` digits of `value` ORed in at digit `pos`. */
  ghost predicate OrWritten(before: seq<byte>, after: seq<byte>, pos: nat, count: nat, value: nat) {
    && |after| == |before|
    && forall k: nat :: k < 8 * |after| ==>
         BufferBit(after, k) == (BufferBit(before, k) || (pos <= k < pos + count && BitAt(value, k - pos)))
  }

  /** A field none of whose digits differ between two buffers has one value in both. */
  lemma FieldUnchanged(a: seq<byte>, b: seq<byte>, pos: nat, count: nat)
    requires pos + count <= 8 * |a| && pos + count <= 8 * |b|
    requires forall k: nat :: pos <= k < pos + count ==> BufferBit(a, k) == BufferBit(b, k)
    ensures Field(a, pos, count) == Field(b, pos, count)
  {
    FieldBelow(a, pos, count);
    forall i: nat | i < count ensures BufferBit(b, pos + i) == BitAt(Field(a, pos, count), i) {
      FieldBits(a, pos, count, i);
    }
    FieldIs(b, pos, count, Field(a, pos, count));
  }

  /** One turn of the chunked reader: the digits of one byte join the digits read so far. */
  lemma ReadChunk(src: seq<byte>, pos: nat, done: nat, take: nat)
    requires pos + done + take <= 8 * |src|
    requires 1 <= take <= 8 - (pos + done) % 8
    ensures var chunk := And(Shr(src[(pos + done) / 8], (pos + done) % 8), Mask(take));
            Or(Field(src, pos, done), Shl(chunk, done)) == Field(src, pos, done + take)
  {
    var j, b := (pos + done) / 8, (pos + done) % 8;
    var chunk := And(Shr(src[j], b), Mask(take));
    var r := Or(Field(src, pos, done), Shl(chunk, done));
    forall i: nat ensures BitAt(r, i) == BitAt(Field(src, pos, done + take), i) {
      OrBits(Field(src, pos, done), Shl(chunk, done), i);
      FieldBits(src, pos, done, i);
      FieldBits(src, pos, done + take, i);
      ShlBits(chunk, done, i);
      if done <= i {
        AndBits(Shr(src[j], b), Mask(take), i - done);
        ShrBits(src[j], b, i - done);
        MaskBits(take, i - done);
        if i < done + take { assert (pos + i) / 8 == j && (pos + i) % 8 == b + (i - done); }
      }
    }
    BitsDetermine(r, Field(src, pos, done + take));
  }

  function ByteChunk(value: nat, done: nat, take: nat, shift: nat): nat {
    Shl(And(Shr(value, done), Mask(take)), shift)
  }

  lemma ByteChunkBits(value: nat, done: nat, take: nat, shift: nat, i: nat)
    ensures BitAt(ByteChunk(value, done, take, shift), i) ==
            (shift <= i < shift + take && BitAt(value, done + (i - shift)))
  {
    var low := And(Shr(value, done), Mask(take));
    ShlBits(low, shift, i);
    if shift <= i {
      AndBits(Shr(value, done), Mask(take), i - shift);
      ShrBits(value, done, i - shift);
      MaskBits(take, i - shift);
    }
  }

  lemma ByteChunkFits(value: nat, done: nat, take: nat, shift: nat)
    requires shift + take <= 8
    ensures ByteChunk(value, done, take, shift) < 256
  {
    assert Pow2(8) == 256;
    var c := ByteChunk(value, done, take, shift);
    forall i: nat | i >= 8 ensures !BitAt(c, i) { ByteChunkBits(value, done, take, shift, i); }
    BelowPow2(c, 8);
  }

  /** One turn of the chunked writer. */
  lemma WriteChunk(before: seq<byte>, mid: seq<byte>, after: seq<byte>, pos: nat, done: nat, take: nat, value: nat)
    requires OrWritten(before, mid, pos, done, value)
    requires pos + done + take <= 8 * |mid|
    requires 1 <= take <= 8 - (pos + done) % 8
    requires var j := (pos + done) / 8;
             var updated := Or(mid[j], ByteChunk(value, done, take, (pos + done) % 8));
             updated < 256 && after == mid[j := updated]
    ensures OrWritten(before, after, pos, done + take, value)
  {
    var j, b := (pos + done) / 8, (pos + done) % 8;
    forall k: nat | k < 8 * |after|
      ensures BufferBit(after, k) == (BufferBit(before, k) || (pos <= k < pos + done + take && BitAt(value, k - pos)))
    {
      assert BufferBit(mid, k) == (BufferBit(before, k) || (pos <= k < pos + done && BitAt(value, k - pos)));
      if k / 8 == j {
        OrBits(mid[j], ByteChunk(value, done, take, b), k % 8);
        ByteChunkBits(value, done, take, b, k % 8);
      }
    }
  }
}
