/**
 * Temperatures: the device reports a whole number of degrees and a fraction byte counting
 * 1/256 of a degree. Both the drivers (convFraqTemp) and the userland tool (PrintTempInfo)
 * turn the fraction byte into thousandths of a degree by adding a fixed weight per set bit.
 */
module Temperature {
  import opened Basics

  /** A single-bit mask of a byte. */
  type Mask = m: int | 0 < m < 256 witness 1

  /** temp256: each bit of the fraction byte and the thousandths of a degree it adds. */
  const Temp256: seq<(Mask, nat)> := [
    (0x80, 500), (0x40, 250), (0x20, 125), (0x10, 62),
    (0x08, 31), (0x04, 16), (0x02, 8), (0x01, 4)
  ]

  /** The weights of the table entries k.. whose bit is set in `b`. */
  function FracFrom(b: byte, k: nat): nat
    requires k <= |Temp256|
    decreases |Temp256| - k
  {
    if k == |Temp256| then 0
    else (if BitSet(b, Temp256[k].0) then Temp256[k].1 else 0) + FracFrom(b, k + 1)
  }

  /** The thousandths of a degree that the fraction byte `b` stands for. */
  function Milli(b: byte): nat
  {
    FracFrom(b, 0)
  }

  /** convFraqTemp: the table loop of the drivers. */
  method ConvFraqTemp(readTemp: byte) returns (temp: nat)
    ensures temp == Milli(readTemp)
    ensures temp <= 996
  {
    temp := 0;
    var indx := 0;
    while indx < 8
      invariant 0 <= indx <= 8
      invariant temp + FracFrom(readTemp, indx) == Milli(readTemp)
    {
      if BitSet(readTemp, Temp256[indx].0) {
        temp := temp + Temp256[indx].1;
      }
      indx := indx + 1;
    }
    MilliBounds(readTemp);
  }

  /**
   * The arithmetic of PrintTempInfo: the high byte of the reading is the whole degrees,
   * the low byte the fraction, turned into thousandths by eight bit tests.
   */
  method PrintTempFraction(temp: u16) returns (wtemp: byte, trans: nat)
    ensures wtemp == HighByte(temp) && trans == Milli(LowByte(temp))
    ensures Le16(LowByte(temp), wtemp) == temp
    ensures trans < 1000
  {
    wtemp := temp / 256;
    var frtemp: byte := temp % 256;
    trans := FractionBits(frtemp);
  }

  /** PrintTempInfo's eight bit tests of the fraction byte, from the high bit down. */
  method FractionBits(frtemp: byte) returns (trans: int)
    ensures trans == Milli(frtemp) && trans <= 996
  {
    trans := 0;
    trans := trans + (if BitSet(frtemp, 0x80) then 500 else 0);
    trans := trans + (if BitSet(frtemp, 0x40) then 250 else 0);
    trans := trans + (if BitSet(frtemp, 0x20) then 125 else 0);
    trans := trans + (if BitSet(frtemp, 0x10) then 62 else 0);
    trans := trans + (if BitSet(frtemp, 0x08) then 31 else 0);
    trans := trans + (if BitSet(frtemp, 0x04) then 16 else 0);
    trans := trans + (if BitSet(frtemp, 0x02) then 8 else 0);
    trans := trans + (if BitSet(frtemp, 0x01) then 4 else 0);
    MilliBitByBit(frtemp);
    MilliBounds(frtemp);
  }

  /**
   * The drivers' reading in millidegrees: whole degrees times 1000 plus the fraction.
   * Printed as whole.fraction with three digits it gives back both parts.
   */
  function MilliDegrees(whole: byte, part: byte): (r: nat)
    ensures r / 1000 == whole && r % 1000 == Milli(part)
    ensures whole * 1000 <= r <= whole * 1000 + 996
  {
    MilliBounds(part);
    Thousands(Milli(part), whole);
    Milli(part) + whole * 1000
  }

  lemma Thousands(m: nat, w: nat)
    requires m < 1000
    ensures (m + w * 1000) / 1000 == w && (m + w * 1000) % 1000 == m
  {
  }

  /** Milli written out bit by bit, in the order of the table. */
  lemma MilliBitByBit(b: byte)
    ensures Milli(b) ==
      (if BitSet(b, 0x80) then 500 else 0) + (if BitSet(b, 0x40) then 250 else 0)
      + (if BitSet(b, 0x20) then 125 else 0) + (if BitSet(b, 0x10) then 62 else 0)
      + (if BitSet(b, 0x08) then 31 else 0) + (if BitSet(b, 0x04) then 16 else 0)
      + (if BitSet(b, 0x02) then 8 else 0) + (if BitSet(b, 0x01) then 4 else 0)
  {
    assert FracFrom(b, 8) == 0;
  }

  /** The fraction lies between x.000 and x.996: it never carries into the whole degrees. */
  lemma MilliBounds(b: byte)
    ensures Milli(b) <= 996
    ensures Milli(0) == 0 && Milli(0xff) == 996
  {
    MilliBitByBit(b);
    MilliBitByBit(0xff);
  }

  /** Independent reference: the weight of bit k (k = 0 the least significant) ... */
  function Weight(k: nat): nat
    requires k < 8
  {
    Temp256[7 - k].1
  }

  /** ... and the sum of the weights of the set bits of `x`, scanning from the low bit. */
  function BitWeights(x: nat, k: nat): nat
    requires k <= 8
    decreases 8 - k
  {
    if k == 8 then 0 else (if x % 2 == 1 then Weight(k) else 0) + BitWeights(x / 2, k + 1)
  }

  /** The number of values the bits k.. of a byte can take. */
  function Span(k: nat): nat
    requires k < 8
  {
    [256, 128, 64, 32, 16, 8, 4, 2][k]
  }

  /** The least amount by which raising the bits k.. of a byte raises their weight. */
  function Gap(k: nat): nat
    requires k < 8
  {
    [3, 7, 15, 31, 62, 125, 250, 500][k]
  }

  /** Each weight is at least the gap of its level, and exceeds the lower weights by it. */
  lemma GapOfWeights(k: nat)
    requires k < 8
    ensures Weight(k) >= Gap(k)
    ensures k < 7 ==> Gap(k + 1) >= Gap(k) + Weight(k) && Span(k) == 2 * Span(k + 1)
    ensures k == 7 ==> Span(k) == 2
  {
    if k == 0 {} else if k == 1 {} else if k == 2 {} else if k == 3 {}
    else if k == 4 {} else if k == 5 {} else if k == 6 {} else {}
  }

  lemma {:induction false} BitWeightsGap(x: nat, y: nat, k: nat)
    requires k < 8 && x < y < Span(k)
    ensures BitWeights(y, k) >= BitWeights(x, k) + Gap(k)
    decreases 8 - k
  {
    GapOfWeights(k);
    Halve(x);
    Halve(y);
    var w, g := Weight(k), Gap(k);
    assert BitWeights(x, k) == (if x % 2 == 1 then w else 0) + BitWeights(x / 2, k + 1);
    assert BitWeights(y, k) == (if y % 2 == 1 then w else 0) + BitWeights(y / 2, k + 1);
    if x / 2 < y / 2 {
      assert k < 7;
      assert y / 2 < Span(k + 1);
      BitWeightsGap(x / 2, y / 2, k + 1);
      assert BitWeights(y / 2, k + 1) >= BitWeights(x / 2, k + 1) + g + w;
    } else {
      assert x / 2 == y / 2;
      assert x % 2 == 0 && y % 2 == 1;
    }
  }

  /** BitWeights of a byte written out bit by bit. */
  lemma BitWeightsUnrolled(b: byte)
    ensures BitWeights(b, 0) ==
      (if b % 2 == 1 then 4 else 0) + (if (b / 2) % 2 == 1 then 8 else 0)
      + (if (b / 4) % 2 == 1 then 16 else 0) + (if (b / 8) % 2 == 1 then 31 else 0)
      + (if (b / 16) % 2 == 1 then 62 else 0) + (if (b / 32) % 2 == 1 then 125 else 0)
      + (if (b / 64) % 2 == 1 then 250 else 0) + (if (b / 128) % 2 == 1 then 500 else 0)
  {
    assert b / 2 / 2 == b / 4;
    assert b / 4 / 2 == b / 8;
    assert b / 8 / 2 == b / 16;
    assert b / 16 / 2 == b / 32;
    assert b / 32 / 2 == b / 64;
    assert b / 64 / 2 == b / 128;
    assert b / 128 / 2 == 0;
    assert BitWeights(b / 128, 7) == (if (b / 128) % 2 == 1 then 500 else 0);
    assert BitWeights(b / 64, 6) == (if (b / 64) % 2 == 1 then 250 else 0) + BitWeights(b / 128, 7);
    assert BitWeights(b / 32, 5) == (if (b / 32) % 2 == 1 then 125 else 0) + BitWeights(b / 64, 6);
    assert BitWeights(b / 16, 4) == (if (b / 16) % 2 == 1 then 62 else 0) + BitWeights(b / 32, 5);
    assert BitWeights(b / 8, 3) == (if (b / 8) % 2 == 1 then 31 else 0) + BitWeights(b / 16, 4);
    assert BitWeights(b / 4, 2) == (if (b / 4) % 2 == 1 then 16 else 0) + BitWeights(b / 8, 3);
    assert BitWeights(b / 2, 1) == (if (b / 2) % 2 == 1 then 8 else 0) + BitWeights(b / 4, 2);
  }

  lemma MilliIsBitWeights(b: byte)
    ensures Milli(b) == BitWeights(b, 0)
  {
    MilliBitByBit(b);
    BitWeightsUnrolled(b);
  }

  /** A larger fraction byte always reads as a larger fraction: the conversion is order-preserving and one-to-one. */
  lemma MilliStrictlyIncreasing(b: byte, c: byte)
    requires b < c
    ensures Milli(b) < Milli(c)
  {
    MilliIsBitWeights(b);
    MilliIsBitWeights(c);
    BitWeightsGap(b, c, 0);
  }

  /** The thousandths stay within one thousandth of the exact value b * 1000 / 256. */
  lemma MilliAccuracy(b: byte)
    ensures -192 <= 256 * Milli(b) - 1000 * b <= 168
  {
    MilliBitByBit(b);
    ByteFromBits(b);
    var d0, d1, d2, d3 := b % 2, (b / 2) % 2, (b / 4) % 2, (b / 8) % 2;
    var d4, d5, d6, d7 := (b / 16) % 2, (b / 32) % 2, (b / 64) % 2, (b / 128) % 2;
    assert (if BitSet(b, 0x01) then 4 else 0) == 4 * d0;
    assert (if BitSet(b, 0x02) then 8 else 0) == 8 * d1;
    assert (if BitSet(b, 0x04) then 16 else 0) == 16 * d2;
    assert (if BitSet(b, 0x08) then 31 else 0) == 31 * d3;
    assert (if BitSet(b, 0x10) then 62 else 0) == 62 * d4;
    assert (if BitSet(b, 0x20) then 125 else 0) == 125 * d5;
    assert (if BitSet(b, 0x40) then 250 else 0) == 250 * d6;
    assert (if BitSet(b, 0x80) then 500 else 0) == 500 * d7;
    WeightErrors(Milli(b), b, d0, d1, d2, d3, d4, d5, d6, d7);
  }

  /** Per bit, 256 times the weight differs from 1000 times the bit's value by 24, 48, 96, -64, -128, 0, 0, 0. */
  lemma WeightErrors(m: int, v: int, d0: int, d1: int, d2: int, d3: int, d4: int, d5: int, d6: int, d7: int)
    requires 0 <= d0 <= 1 && 0 <= d1 <= 1 && 0 <= d2 <= 1 && 0 <= d3 <= 1
    requires 0 <= d4 <= 1 && 0 <= d5 <= 1 && 0 <= d6 <= 1 && 0 <= d7 <= 1
    requires m == 4 * d0 + 8 * d1 + 16 * d2 + 31 * d3 + 62 * d4 + 125 * d5 + 250 * d6 + 500 * d7
    requires v == d0 + 2 * d1 + 4 * d2 + 8 * d3 + 16 * d4 + 32 * d5 + 64 * d6 + 128 * d7
    ensures -192 <= 256 * m - 1000 * v <= 168
  {
  }

  lemma ByteFromBits(b: byte)
    ensures b == b % 2 + 2 * ((b / 2) % 2) + 4 * ((b / 4) % 2) + 8 * ((b / 8) % 2) + 16 * ((b / 16) % 2)
      + 32 * ((b / 32) % 2) + 64 * ((b / 64) % 2) + 128 * ((b / 128) % 2)
  {
    Halve(b);
    Halve(b / 2);
    Halve(b / 4);
    Halve(b / 8);
    Halve(b / 16);
    Halve(b / 32);
    Halve(b / 64);
    assert (b / 2) / 2 == b / 4;
    assert (b / 4) / 2 == b / 8;
    assert (b / 8) / 2 == b / 16;
    assert (b / 16) / 2 == b / 32;
    assert (b / 32) / 2 == b / 64;
    assert (b / 64) / 2 == b / 128;
    assert b / 128 == (b / 128) % 2;
  }

  /** A number is its lowest bit plus twice the rest. */
  lemma Halve(x: int)
    ensures x == x % 2 + 2 * (x / 2)
  {
  }
}
