/** Rescaling of a quantised component between bit widths, by rounded integer division. */
module Rescale {
  import opened Bits

  function RescaleQuant(value: nat, srcBits: nat, dstBits: nat): nat
    requires srcBits >= 1
  {
    if srcBits == dstBits then value
    else if dstBits == 0 then 0
    else
      Pow2Grows(1, srcBits);
      (value * Mask(dstBits) + Mask(srcBits) / 2) / Mask(srcBits)
  }

  lemma Quotient(x: nat, d: nat, q: nat)
    requires d >= 1
    ensures x / d == q <==> q * d <= x < q * d + d
  {
    var r := x / d;
    assert r * d <= x < r * d + d;
    if q < r {
      assert (q + 1) * d <= r * d;
    } else if r < q {
      assert (r + 1) * d <= q * d;
    }
  }

  lemma {:induction false} ProductGap(a: nat, b: nat, d: nat)
    requires a > b
    ensures a * d >= b * d + d
  {
    assert a * d == (a - 1) * d + d;
    if a > b + 1 { ProductGap(a - 1, b, d); }
  }

  lemma QuotientMonotone(x: nat, y: nat, d: nat)
    requires d >= 1 && x <= y
    ensures x / d <= y / d
  {
    Quotient(x, d, x / d);
    Quotient(y, d, y / d);
    var q, r := x / d, y / d;
    if r < q {
      ProductGap(q, r, d);
      assert false;
    }
  }

  lemma MaskOdd(n: nat)
    requires n >= 1
    ensures Mask(n) % 2 == 1
  {}

  /** The result is the nearest target code: its numerator error is at most half of
      `max - 1`, so no code at all is nearer to the exact ratio. */
  lemma RescaleRounds(value: nat, srcBits: nat, dstBits: nat)
    requires srcBits >= 1 && dstBits >= 1
    ensures var r, s, d := RescaleQuant(value, srcBits, dstBits), Mask(srcBits), Mask(dstBits);
            -((s - 1) / 2) <= r * s - value * d <= (s - 1) / 2
  {
    var s, d := Mask(srcBits), Mask(dstBits);
    MaskOdd(srcBits);
    if srcBits != dstBits {
      var x := value * d + s / 2;
      Quotient(x, s, x / s);
    }
  }

  lemma RescaleNearest(value: nat, srcBits: nat, dstBits: nat, other: nat)
    requires srcBits >= 1 && dstBits >= 1
    ensures var r, s, d := RescaleQuant(value, srcBits, dstBits), Mask(srcBits), Mask(dstBits);
            Distance(r * s, value * d) <= Distance(other * s, value * d)
  {
    RescaleRounds(value, srcBits, dstBits);
    NearestMultiple(RescaleQuant(value, srcBits, dstBits), Mask(srcBits), value * Mask(dstBits), other);
  }

  lemma NearestMultiple(r: nat, s: nat, target: nat, other: nat)
    requires s >= 1
    requires -((s - 1) / 2) <= r * s - target <= (s - 1) / 2
    ensures Distance(r * s, target) <= Distance(other * s, target)
  {
    if other > r {
      ProductGap(other, r, s);
    } else if other < r {
      ProductGap(r, other, s);
    }
  }

  function Distance(a: int, b: int): nat { if a < b then b - a else a - b }

  lemma RescaleMonotone(v: nat, w: nat, srcBits: nat, dstBits: nat)
    requires srcBits >= 1
    requires v <= w
    ensures RescaleQuant(v, srcBits, dstBits) <= RescaleQuant(w, srcBits, dstBits)
  {
    if srcBits != dstBits && dstBits != 0 {
      var s, d := Mask(srcBits), Mask(dstBits);
      assert v * d <= w * d;
      QuotientMonotone(v * d + s / 2, w * d + s / 2, s);
    }
  }

  lemma RescaleEndpoints(srcBits: nat, dstBits: nat)
    requires srcBits >= 1
    ensures RescaleQuant(0, srcBits, dstBits) == 0
    ensures RescaleQuant(Mask(srcBits), srcBits, dstBits) == Mask(dstBits)
  {
    if srcBits != dstBits && dstBits != 0 {
      var s, d := Mask(srcBits), Mask(dstBits);
      Quotient(0 * d + s / 2, s, 0);
      Quotient(s * d + s / 2, s, d);
    }
  }

  /** Codes of the source width become codes of the target width. */
  lemma RescaleInRange(value: nat, srcBits: nat, dstBits: nat)
    requires srcBits >= 1
    requires value < Pow2(srcBits)
    ensures RescaleQuant(value, srcBits, dstBits) < Pow2(dstBits)
  {
    RescaleMonotone(value, Mask(srcBits), srcBits, dstBits);
    RescaleEndpoints(srcBits, dstBits);
  }

  /** Widening a code and narrowing it again gives the code back. */
  lemma RescaleUpThenDown(value: nat, lowBits: nat, highBits: nat)
    requires 1 <= lowBits <= highBits
    requires value < Pow2(lowBits)
    ensures RescaleQuant(RescaleQuant(value, lowBits, highBits), highBits, lowBits) == value
  {
    if lowBits != highBits {
      var l, h := Mask(lowBits), Mask(highBits);
      Pow2Grows(lowBits, highBits);
      var up := RescaleQuant(value, lowBits, highBits);
      RescaleRounds(value, lowBits, highBits);
      MaskOdd(highBits);
      Quotient(up * l + h / 2, h, value);
    }
  }

  /** Every intermediate value of the division fits a 64-bit word for the widths in use. */
  lemma RescaleFitsWord(value: nat, srcBits: nat, dstBits: nat)
    requires 1 <= srcBits <= 10 && 1 <= dstBits <= 10
    requires value < Pow2(srcBits)
    ensures value * Mask(dstBits) + Mask(srcBits) / 2 < Pow2(20)
  {
    Pow2Grows(srcBits, 10);
    Pow2Grows(dstBits, 10);
    assert Pow2(10) == 1024 && Pow2(20) == 1048576 by { Pow2Adds(10, 10); }
    var m := Mask(dstBits);
    hide Pow2;
    assert value <= 1023 && m <= 1023;
    ProductBound(value, m, 1023);
  }

  lemma ProductBound(a: nat, b: nat, bound: nat)
    requires a <= bound && b <= bound
    ensures a * b <= bound * bound
  {
    assert a * b <= bound * b <= bound * bound;
  }
}
