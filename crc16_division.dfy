/** Polynomial division by 0x1021, one bit at a time, and the algebra that
    lets a table of eight-step results stand in for it. */
module Crc16Division {
  /** One MSB-first step of polynomial division by 0x1021: shift left and,
      when the bit shifted out was set, XOR in the polynomial. */
  function ShiftStep(c: bv16): bv16
  {
    (c << 1) ^ ((0 - (c >> 15)) & 0x1021)
  }

  /** `n` division steps. */
  function Shift(c: bv16, n: nat): bv16
  {
    if n == 0 then c else ShiftStep(Shift(c, n - 1))
  }

  /** Eight division steps written out: what one input byte costs. */
  function Shift8(c: bv16): bv16
  {
    ShiftStep(ShiftStep(ShiftStep(ShiftStep(ShiftStep(ShiftStep(ShiftStep(ShiftStep(c))))))))
  }

  lemma Shift8IsShift(c: bv16)
    ensures Shift8(c) == Shift(c, 8)
  {
    assert Shift(c, 1) == ShiftStep(c);
    assert Shift(c, 2) == ShiftStep(Shift(c, 1));
    assert Shift(c, 3) == ShiftStep(Shift(c, 2));
    assert Shift(c, 4) == ShiftStep(Shift(c, 3));
    assert Shift(c, 5) == ShiftStep(Shift(c, 4));
    assert Shift(c, 6) == ShiftStep(Shift(c, 5));
    assert Shift(c, 7) == ShiftStep(Shift(c, 6));
    assert Shift(c, 8) == ShiftStep(Shift(c, 7));
  }

  lemma StepLinear(x: bv16, y: bv16)
    ensures ShiftStep(x ^ y) == ShiftStep(x) ^ ShiftStep(y)
  {
  }

  /** Division is linear over XOR. */
  lemma {:induction false} ShiftLinear(x: bv16, y: bv16, n: nat)
    ensures Shift(x ^ y, n) == Shift(x, n) ^ Shift(y, n)
  {
    if n > 0 {
      ShiftLinear(x, y, n - 1);
      StepLinear(Shift(x, n - 1), Shift(y, n - 1));
    }
  }

  lemma LowStep(x: bv16)
    requires x & 0x8000 == 0
    ensures ShiftStep(x) == x << 1
  {
  }

  /** A value confined to the low byte never reaches the top bit in eight
      steps, so it is only shifted up. */
  lemma Shift8Low(x: bv16)
    requires x & 0xFF00 == 0
    ensures Shift(x, 8) == x << 8
  {
    var x1 := x << 1;
    LowStep(x);
    assert Shift(x, 1) == x1;
    var x2 := x1 << 1;
    LowStep(x1);
    assert Shift(x, 2) == x2;
    var x3 := x2 << 1;
    LowStep(x2);
    assert Shift(x, 3) == x3;
    var x4 := x3 << 1;
    LowStep(x3);
    assert Shift(x, 4) == x4;
    var x5 := x4 << 1;
    LowStep(x4);
    assert Shift(x, 5) == x5;
    var x6 := x5 << 1;
    LowStep(x5);
    assert Shift(x, 6) == x6;
    var x7 := x6 << 1;
    LowStep(x6);
    assert Shift(x, 7) == x7;
    LowStep(x7);
    assert x7 << 1 == x << 8;
  }

  /** XORing a byte `v` into the top of the register is XORing the
      register's low byte with (top byte XOR `v`) moved to the top. */
  lemma SplitRegister(crc: bv16, v: bv16)
    requires v & 0xFF00 == 0
    ensures crc ^ (v << 8) == (crc & 0x00FF) ^ (((crc >> 8) ^ v) << 8)
  {
  }

  /** The register's low byte, divided eight times, is the register
      shifted up a byte. */
  lemma LowPart(crc: bv16)
    ensures Shift(crc & 0x00FF, 8) == crc << 8
  {
    assert (crc & 0x00FF) & 0xFF00 == 0 && (crc & 0x00FF) << 8 == crc << 8;
    Shift8Low(crc & 0x00FF);
  }

  /** Linearity for a value already known to be an XOR of two others. */
  lemma ShiftOfXor(a: bv16, lo: bv16, hi: bv16)
    requires a == lo ^ hi
    ensures Shift(a, 8) == Shift(lo, 8) ^ Shift(hi, 8)
  {
    ShiftLinear(lo, hi, 8);
  }

  /** Dividing the register with `v` XORed into its top splits into its
      low byte and its top part. */
  lemma SplitShift(crc: bv16, v: bv16)
    requires v & 0xFF00 == 0
    ensures Shift(crc ^ (v << 8), 8) == Shift(crc & 0x00FF, 8) ^ Shift(((crc >> 8) ^ v) << 8, 8)
  {
    SplitRegister(crc, v);
    ShiftOfXor(crc ^ (v << 8), crc & 0x00FF, ((crc >> 8) ^ v) << 8);
  }

  /** The 32-bit shift and mask of the table step is a 16-bit shift. */
  lemma MaskedShift(crc: bv16, t: bv16)
    ensures ((((crc as bv32) << 8) ^ (t as bv32)) & 0xFFFF) as bv16 == (crc << 8) ^ t
  {
  }

  /** The table step's algebra: shifting the register up a byte and XORing
      in the division of (top byte XOR `v`) is dividing the register with
      `v` XORed into its top. */
  lemma ByteStep(crc: bv16, v: bv16)
    requires v & 0xFF00 == 0
    ensures (crc << 8) ^ Shift(((crc >> 8) ^ v) << 8, 8) == Shift(crc ^ (v << 8), 8)
  {
    SplitShift(crc, v);
    LowPart(crc);
  }
}
