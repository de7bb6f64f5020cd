// The 16-bit block checksum of sbfhelpers.calc_crc: CRC-16 with polynomial
// 0x1021, initial register 0, most significant bit first and no final xor
// (the CRC-16/XMODEM parameter set). The source works on Python integers,
// so the model does too: `^` is `Xor` below, `x << k` is `x * 2^k`,
// `x & 0xFFFF` is `x % 0x10000`, and `x & 0x8000 != 0` is bit 15 being set.

module SbfCrc {
  import opened SbfCore

  /** Python's `a ^ b` on non-negative integers, bit by bit from the least significant. */
  function Xor(a: nat, b: nat): nat
    decreases a + b
  {
    if a == 0 then b
    else if b == 0 then a
    else 2 * Xor(a / 2, b / 2) + (if a % 2 == b % 2 then 0 else 1)
  }

  lemma XorParity(a: nat, b: nat)
    ensures Xor(a, b) % 2 == (a + b) % 2
  {}

  lemma XorHalf(a: nat, b: nat)
    ensures Xor(a, b) / 2 == Xor(a / 2, b / 2)
  {}

  lemma {:induction false} XorComm(a: nat, b: nat)
    ensures Xor(a, b) == Xor(b, a)
    decreases a + b
  {
    if a != 0 && b != 0 {
      XorComm(a / 2, b / 2);
    }
  }

  /** `^` never sets a bit above the wider operand. */
  lemma {:induction false} XorBound(a: nat, b: nat, n: nat)
    requires a < Pow2(n) && b < Pow2(n)
    ensures Xor(a, b) < Pow2(n)
    decreases n
  {
    if a != 0 && b != 0 {
      XorBound(a / 2, b / 2, n - 1);
    }
  }

  /** `x ^ p == y ^ p` only when `x == y`. */
  lemma {:induction false} XorCancel(x: nat, y: nat, p: nat)
    requires Xor(x, p) == Xor(y, p)
    ensures x == y
    decreases x + y + p
  {
    XorParity(x, p);
    XorParity(y, p);
    if x != 0 || y != 0 {
      XorHalf(x, p);
      XorHalf(y, p);
      XorCancel(x / 2, y / 2, p / 2);
    }
  }

  /** A bit above both operands passes through `^` unchanged. */
  lemma {:induction false} XorTop(a: nat, p: nat, n: nat)
    requires a < Pow2(n) && p < Pow2(n)
    ensures Xor(a + Pow2(n), p) == Xor(a, p) + Pow2(n)
    decreases n
  {
    if n > 0 && p != 0 {
      XorTop(a / 2, p / 2, n - 1);
      assert (a + Pow2(n)) / 2 == a / 2 + Pow2(n - 1);
      if a == 0 {
        assert Xor(0 + Pow2(n - 1), p / 2) == Xor(0, p / 2) + Pow2(n - 1);
      }
    }
  }

  lemma Pow2At16()
    ensures Pow2(16) == 0x10000
  {
    assert Pow2(4) == 16;
    assert Pow2(8) == 256;
    assert Pow2(12) == 0x1000;
  }

  const POLY: nat := 0x1021
  /** Shifts per message byte: one per bit. */
  const SHIFTS: nat := 8

  /** One pass of the inner loop of calc_crc: shift left, xor the polynomial if bit 15 was set, keep 16 bits. */
  function BitStep(c: nat): nat
  {
    if (c / 0x8000) % 2 == 1 then Xor(c * 2, POLY) % 0x10000 else (c * 2) % 0x10000
  }

  /** `k` passes of the inner loop. */
  function Shifts(c: nat, k: nat): nat
    decreases k
  {
    if k == 0 then c else Shifts(BitStep(c), k - 1)
  }

  /** One pass of the outer loop: xor the byte into the high half, then eight shifts. */
  function CrcStep(c: nat, b: byte): nat
  {
    Shifts(Xor(c, b * 0x100), SHIFTS)
  }

  /** calc_crc as a left fold of `CrcStep` over the message, from register 0. */
  function Crc(m: seq<byte>): nat
    decreases |m|
  {
    if m == [] then 0 else CrcStep(Crc(m[..|m| - 1]), m[|m| - 1])
  }

  /**
   * The eight shifts of the byte 0x31 (the character "1") from register 0;
   * in three of them bit 15 is set and the polynomial is xored in, bit by bit.
   */
  lemma CheckStep1()
    ensures BitStep(0x3100) == 0x6200
  {
    BitStepLow(0x3100);
  }

  lemma CheckStep2()
    ensures BitStep(0x6200) == 0xc400
  {
    BitStepLow(0x6200);
  }

  lemma CheckStep3()
    ensures BitStep(0xc400) == 0x9821
  {
    BitStepHigh(0xc400);
    assert Xor(0x8, 0x1) == 0x9;
    assert Xor(0x11, 0x2) == 0x13;
    assert Xor(0x22, 0x4) == 0x26;
    assert Xor(0x44, 0x8) == 0x4c;
    assert Xor(0x88, 0x10) == 0x98;
    assert Xor(0x110, 0x20) == 0x130;
    assert Xor(0x220, 0x40) == 0x260;
    assert Xor(0x440, 0x81) == 0x4c1;
    assert Xor(0x880, 0x102) == 0x982;
    assert Xor(0x1100, 0x204) == 0x1304;
    assert Xor(0x2200, 0x408) == 0x2608;
    assert Xor(0x4400, 0x810) == 0x4c10;
    assert Xor(0x8800, 0x1021) == 0x9821;
  }

  lemma CheckStep4()
    ensures BitStep(0x9821) == 0x2063
  {
    BitStepHigh(0x9821);
    assert Xor(0x3, 0x1) == 0x2;
    assert Xor(0x6, 0x2) == 0x4;
    assert Xor(0xc, 0x4) == 0x8;
    assert Xor(0x18, 0x8) == 0x10;
    assert Xor(0x30, 0x10) == 0x20;
    assert Xor(0x60, 0x20) == 0x40;
    assert Xor(0xc1, 0x40) == 0x81;
    assert Xor(0x182, 0x81) == 0x103;
    assert Xor(0x304, 0x102) == 0x206;
    assert Xor(0x608, 0x204) == 0x40c;
    assert Xor(0xc10, 0x408) == 0x818;
    assert Xor(0x1821, 0x810) == 0x1031;
    assert Xor(0x3042, 0x1021) == 0x2063;
  }

  lemma CheckStep5()
    ensures BitStep(0x2063) == 0x40c6
  {
    BitStepLow(0x2063);
  }

  lemma CheckStep6()
    ensures BitStep(0x40c6) == 0x818c
  {
    BitStepLow(0x40c6);
  }

  lemma CheckStep7()
    ensures BitStep(0x818c) == 0x1339
  {
    BitStepHigh(0x818c);
    assert Xor(0x1, 0x8) == 0x9;
    assert Xor(0x3, 0x10) == 0x13;
    assert Xor(0x6, 0x20) == 0x26;
    assert Xor(0xc, 0x40) == 0x4c;
    assert Xor(0x18, 0x81) == 0x99;
    assert Xor(0x31, 0x102) == 0x133;
    assert Xor(0x63, 0x204) == 0x267;
    assert Xor(0xc6, 0x408) == 0x4ce;
    assert Xor(0x18c, 0x810) == 0x99c;
    assert Xor(0x318, 0x1021) == 0x1339;
  }

  lemma CheckStep8()
    ensures BitStep(0x1339) == 0x2672
  {
    BitStepLow(0x1339);
  }

  /** A known answer of CRC-16/XMODEM: the checksum of the one character "1" is 0x2672. */
  lemma CrcCheckValue()
    ensures Crc([0x31]) == 0x2672
  {
    var m: seq<byte> := [0x31];
    assert m[..0] == [];
    assert Xor(0, 0x3100) == 0x3100;
    CheckStep1();
    CheckStep2();
    CheckStep3();
    CheckStep4();
    CheckStep5();
    CheckStep6();
    CheckStep7();
    CheckStep8();
    assert Shifts(0x1339, 1) == 0x2672;
    assert Shifts(0x818c, 2) == 0x2672;
    assert Shifts(0x40c6, 3) == 0x2672;
    assert Shifts(0x2063, 4) == 0x2672;
    assert Shifts(0x9821, 5) == 0x2672;
    assert Shifts(0xc400, 6) == 0x2672;
    assert Shifts(0x6200, 7) == 0x2672;
    assert Shifts(0x3100, SHIFTS) == 0x2672;
  }

  /**
   * sbfhelpers.calc_crc: the nested loops over the bytes and the eight shifts
   * of each byte compute the fold `Crc`.
   */
  method CalcCrc(message: seq<byte>) returns (crc: nat)
    ensures crc == Crc(message)
    ensures crc < 0x10000
  {
    crc := 0;
    var i := 0;
    while i < |message|
      invariant 0 <= i <= |message|
      invariant crc == Crc(message[..i])
    {
      var b: int := message[i];
      crc := Xor(crc, b * 0x100);
      ghost var start := crc;
      var j := 0;
      while j < SHIFTS
        invariant 0 <= j <= SHIFTS
        invariant Shifts(crc, SHIFTS - j) == Shifts(start, SHIFTS)
      {
        if (crc / 0x8000) % 2 == 1 {
          crc := Xor(crc * 2, POLY);
        } else {
          crc := crc * 2;
        }
        crc := crc % 0x10000;
        j := j + 1;
      }
      assert message[..i + 1][..i] == message[..i];
      i := i + 1;
    }
    assert message[..i] == message;
    CrcBound(message);
  }

  lemma BitStepBound(c: nat)
    ensures BitStep(c) < 0x10000
  {}

  /** Above bit 15 the register already holds only 16 bits, so BitStep is a plain shift-and-xor. */
  lemma BitStepHigh(c: nat)
    requires 0x8000 <= c < 0x10000
    ensures BitStep(c) == Xor(2 * c - 0x10000, POLY)
  {
    Pow2At16();
    var a := 2 * c - 0x10000;
    XorBound(a, POLY, 16);
    XorTop(a, POLY, 16);
    var x := Xor(a, POLY);
    assert Xor(c * 2, POLY) == x + 0x10000 by {
      assert c * 2 == a + Pow2(16);
    }
    assert (x + 0x10000) % 0x10000 == x;
    assert c / 0x8000 == 1;
  }

  /** Below bit 15 BitStep is a plain shift. */
  lemma BitStepLow(c: nat)
    requires c < 0x8000
    ensures BitStep(c) == 2 * c
  {
    assert c / 0x8000 == 0;
  }

  /** A set bit 15 makes the next register odd, a clear one keeps it even. */
  lemma BitStepParity(c: nat)
    requires c < 0x10000
    ensures BitStep(c) % 2 == (if c >= 0x8000 then 1 else 0)
  {
    if c >= 0x8000 {
      BitStepHigh(c);
      XorParity(2 * c - 0x10000, POLY);
    }
  }

  /** No two 16-bit registers shift to the same register. */
  lemma BitStepInjective(a: nat, b: nat)
    requires a < 0x10000 && b < 0x10000
    requires BitStep(a) == BitStep(b)
    ensures a == b
  {
    BitStepParity(a);
    BitStepParity(b);
    assert a >= 0x8000 <==> b >= 0x8000;
    if a >= 0x8000 {
      BitStepHigh(a);
      BitStepHigh(b);
      XorCancel(2 * a - 0x10000, 2 * b - 0x10000, POLY);
    } else {
      BitStepLow(a);
      BitStepLow(b);
    }
  }

  lemma {:induction false} ShiftsBound(c: nat, k: nat)
    requires c < 0x10000
    ensures Shifts(c, k) < 0x10000
    decreases k
  {
    if k > 0 {
      BitStepBound(c);
      ShiftsBound(BitStep(c), k - 1);
    }
  }

  lemma {:induction false} ShiftsInjective(a: nat, b: nat, k: nat)
    requires a < 0x10000 && b < 0x10000
    requires Shifts(a, k) == Shifts(b, k)
    ensures a == b
    decreases k
  {
    if k > 0 {
      BitStepBound(a);
      BitStepBound(b);
      ShiftsInjective(BitStep(a), BitStep(b), k - 1);
      BitStepInjective(a, b);
    }
  }

  lemma HighByteBound(c: nat, b: byte)
    requires c < 0x10000
    ensures Xor(c, b * 0x100) < 0x10000
  {
    Pow2At16();
    XorBound(c, b * 0x100, 16);
  }

  lemma CrcStepBound(c: nat, b: byte)
    requires c < 0x10000
    ensures CrcStep(c, b) < 0x10000
  {
    HighByteBound(c, b);
    ShiftsBound(Xor(c, b * 0x100), SHIFTS);
  }

  /** calc_crc always returns a 16-bit value (the `& 0xFFFF` of every pass). */
  lemma {:induction false} CrcBound(m: seq<byte>)
    ensures Crc(m) < 0x10000
    decreases |m|
  {
    if m != [] {
      CrcBound(m[..|m| - 1]);
      CrcStepBound(Crc(m[..|m| - 1]), m[|m| - 1]);
    }
  }

  /** The empty message has checksum 0. */
  lemma CrcEmpty()
    ensures Crc([]) == 0
  {}

  /** The checksum is a left fold: appending a byte applies one step to the old checksum. */
  lemma CrcSnoc(m: seq<byte>, b: byte)
    ensures Crc(m + [b]) == CrcStep(Crc(m), b)
  {
    assert (m + [b])[..|m|] == m;
  }

  /** Two different registers stay different after the same byte. */
  lemma CrcStepInjectiveRegister(c: nat, d: nat, b: byte)
    requires c < 0x10000 && d < 0x10000
    requires CrcStep(c, b) == CrcStep(d, b)
    ensures c == d
  {
    HighByteBound(c, b);
    HighByteBound(d, b);
    ShiftsInjective(Xor(c, b * 0x100), Xor(d, b * 0x100), SHIFTS);
    XorComm(c, b * 0x100);
    XorComm(d, b * 0x100);
    XorCancel(c, d, b * 0x100);
  }

  /** The same register gives different registers after two different bytes. */
  lemma CrcStepInjectiveByte(c: nat, x: byte, y: byte)
    requires c < 0x10000
    requires CrcStep(c, x) == CrcStep(c, y)
    ensures x == y
  {
    HighByteBound(c, x);
    HighByteBound(c, y);
    ShiftsInjective(Xor(c, x * 0x100), Xor(c, y * 0x100), SHIFTS);
    XorComm(c, x * 0x100);
    XorComm(c, y * 0x100);
    XorCancel(x * 0x100, y * 0x100, c);
  }

  /**
   * Error detection: two messages of the same length that differ in exactly
   * one byte (any number of flipped bits within it) have different checksums.
   */
  lemma {:induction false} CrcDetectsByteChange(m: seq<byte>, n: seq<byte>, i: nat)
    requires |m| == |n| && i < |m| && m[i] != n[i]
    requires forall j :: 0 <= j < |m| && j != i ==> m[j] == n[j]
    ensures Crc(m) != Crc(n)
    decreases |m|
  {
    var k := |m| - 1;
    if i == k {
      assert m[..k] == n[..k];
      CrcDetectsLastByte(m, n);
    } else {
      CrcDetectsByteChange(m[..k], n[..k], i);
      CrcKeepsDifference(m, n);
    }
  }

  /** Only the last byte differing: the step from one shared register differs. */
  lemma CrcDetectsLastByte(m: seq<byte>, n: seq<byte>)
    requires |m| == |n| > 0 && m[..|m| - 1] == n[..|n| - 1] && m[|m| - 1] != n[|n| - 1]
    ensures Crc(m) != Crc(n)
  {
    var p := m[..|m| - 1];
    CrcBound(p);
    if Crc(m) == Crc(n) {
      CrcStepInjectiveByte(Crc(p), m[|m| - 1], n[|n| - 1]);
    }
  }

  /** A shared last byte keeps two different registers different. */
  lemma CrcKeepsDifference(m: seq<byte>, n: seq<byte>)
    requires |m| == |n| > 0 && m[|m| - 1] == n[|n| - 1]
    requires Crc(m[..|m| - 1]) != Crc(n[..|n| - 1])
    ensures Crc(m) != Crc(n)
  {
    CrcBound(m[..|m| - 1]);
    CrcBound(n[..|n| - 1]);
    if Crc(m) == Crc(n) {
      CrcStepInjectiveRegister(Crc(m[..|m| - 1]), Crc(n[..|n| - 1]), m[|m| - 1]);
    }
  }
}
