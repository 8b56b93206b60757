/** The 8-bit checksum that protects every data word the sensor sends:
    CRC-8 with polynomial 0x31 (x^8 + x^5 + x^4 + 1), initial value 0xFF,
    no reflection of input or output, no final XOR. */
module Crc {

  const Polynom: bv8 := 0x31
  const InitValue: bv8 := 0xFF

  /** One bit step of the register: shift left, and subtract (XOR) the
      polynomial when the bit shifted out was set. */
  function CrcShift(crc: bv8): bv8 {
    if crc & 0x80 != 0 then (crc << 1) ^ Polynom else crc << 1
  }

  /** `n` bit steps of the register. */
  function CrcShifts(crc: bv8, n: nat): bv8
    decreases n
  {
    if n == 0 then crc else CrcShift(CrcShifts(crc, n - 1))
  }

  /** Feeding one byte: XOR it into the register, then eight bit steps, most
      significant bit first. */
  function CrcUpdate(crc: bv8, b: bv8): bv8 {
    CrcShifts(crc ^ b, 8)
  }

  /** The checksum of a byte sequence, fed from the first byte on. */
  function CrcOf(data: seq<bv8>): bv8
    decreases |data|
  {
    if data == [] then InitValue else CrcUpdate(CrcOf(data[..|data| - 1]), data[|data| - 1])
  }

  /** The checksum of the two data bytes of a response. */
  function Crc8(b0: bv8, b1: bv8): bv8 {
    CrcOf([b0, b1])
  }

  /** The driver's routine: a loop over exactly two bytes, each followed by an
      inner loop over its eight bits, updating one register in place. */
  method CalculateCrc(source: array<bv8>) returns (crc: bv8)
    requires source.Length >= 2
    ensures crc == Crc8(source[0], source[1])
  {
    crc := InitValue;
    var byteCnt := 0;
    while byteCnt < 2
      invariant 0 <= byteCnt <= 2
      invariant crc == CrcOf(source[..byteCnt])
    {
      crc := crc ^ source[byteCnt];
      ghost var fed := crc;
      var bitCnt := 0;
      while bitCnt < 8
        invariant 0 <= bitCnt <= 8
        invariant crc == CrcShifts(fed, bitCnt)
      {
        if crc & 0x80 != 0 {
          crc := (crc << 1) ^ Polynom;
        } else {
          crc := crc << 1;
        }
        bitCnt := bitCnt + 1;
      }
      assert source[..byteCnt + 1][..byteCnt] == source[..byteCnt];
      byteCnt := byteCnt + 1;
    }
    assert source[..2] == [source[0], source[1]];
  }

  /** The eight bit steps of a byte, written out. */
  lemma CrcShiftsEight(x: bv8)
    ensures CrcShifts(x, 8)
         == CrcShift(CrcShift(CrcShift(CrcShift(CrcShift(CrcShift(CrcShift(CrcShift(x))))))))
  {
  }

  /** Crc8 is the byte-wise register algorithm: start from 0xFF, feed b0, then b1. */
  lemma Crc8Unfolded(b0: bv8, b1: bv8)
    ensures Crc8(b0, b1) == CrcUpdate(CrcUpdate(InitValue, b0), b1)
  {
    assert [b0, b1][..1] == [b0];
    assert [b0][..0] == [];
    assert CrcOf([b0]) == CrcUpdate(InitValue, b0);
  }

  /** The worked example of the driver's documentation: CRC(0xBEEF) = 0x92. */
  lemma CrcGoldenVector()
    ensures Crc8(0xBE, 0xEF) == 0x92
  {
    Crc8Unfolded(0xBE, 0xEF);
    CrcShiftsEight(InitValue ^ 0xBE);
    CrcShiftsEight(CrcUpdate(InitValue, 0xBE) ^ 0xEF);
  }

  // ---------------------------------------------------------------------
  // Error detection: a checksum that changes whenever one data byte does.

  /** A bit step loses no information: the bit shifted out is recovered from
      bit 0, which only the polynomial (whose constant term is 1) can set. */
  lemma CrcShiftInjective(x: bv8, y: bv8)
    ensures CrcShift(x) == CrcShift(y) ==> x == y
  {
  }

  lemma {:induction false} CrcShiftsInjective(x: bv8, y: bv8, n: nat)
    ensures CrcShifts(x, n) == CrcShifts(y, n) ==> x == y
  {
    if n > 0 {
      CrcShiftInjective(CrcShifts(x, n - 1), CrcShifts(y, n - 1));
      CrcShiftsInjective(x, y, n - 1);
    }
  }

  /** Two different bytes fed into the same register leave different
      registers, and so does one byte fed into two different registers. */
  lemma CrcUpdateInjective(r: bv8, s: bv8, a: bv8, b: bv8)
    ensures CrcUpdate(r, a) == CrcUpdate(s, b) ==> r ^ a == s ^ b
  {
    CrcShiftsInjective(r ^ a, s ^ b, 8);
  }

  /** A change confined to one of the two data bytes always changes the
      checksum. */
  lemma CrcDetectsSingleByteError(b0: bv8, b1: bv8, c0: bv8, c1: bv8)
    requires (b0 != c0 && b1 == c1) || (b0 == c0 && b1 != c1)
    ensures Crc8(b0, b1) != Crc8(c0, c1)
  {
    Crc8Unfolded(b0, b1);
    Crc8Unfolded(c0, c1);
    CrcUpdateInjective(InitValue, InitValue, b0, c0);
    CrcUpdateInjective(CrcUpdate(InitValue, b0), CrcUpdate(InitValue, c0), b1, c1);
  }

  // ---------------------------------------------------------------------
  // Reference definition: the remainder of polynomial long division.

  /** The generator polynomial with its leading term x^8. */
  const Generator: bv24 := 0x131

  /** A 24-bit dividend whose leading byte (bits 23..16) is `r` and whose
      lower coefficients are `t`. */
  function Window(r: bv8, t: bv24): bv24 {
    (r as bv24 << 16) ^ t
  }

  /** The two-byte message as a polynomial of degree < 24: the initial value
      is added to the leading byte and the message is followed by eight zero
      bits (the augmentation by x^8). */
  function Dividend(b0: bv8, b1: bv8): bv24 {
    ((b0 ^ InitValue) as bv24 << 16) | (b1 as bv24 << 8)
  }

  /** One step of long division over GF(2), with the current leading
      coefficient kept at bit 23: subtract the generator aligned under it when
      that coefficient is set, then move on to the next coefficient. */
  function DivStep(v: bv24): bv24 {
    if v & 0x80_0000 != 0 then (v ^ (Generator << 15)) << 1 else v << 1
  }

  /** `n` steps of long division. */
  function PolyReduce(v: bv24, n: nat): bv24
    decreases n
  {
    if n == 0 then v else DivStep(PolyReduce(v, n - 1))
  }

  /** The checksum as the remainder of the augmented message by the
      generator: once the sixteen message coefficients are divided out, the
      remainder is what is left in bits 23..16. */
  function PolyCrc(b0: bv8, b1: bv8): bv24 {
    PolyReduce(Dividend(b0, b1), 16) >> 16
  }

  /** The lower coefficients after `n` steps: moved up one place per step. */
  function ShiftedTail(t: bv24, n: nat): bv24
    decreases n
  {
    if n == 0 then t else ShiftedTail(t, n - 1) << 1
  }

  /** The lower coefficients do not reach the tested coefficient during the
      first `n` steps. */
  ghost predicate TailClear(t: bv24, n: nat)
    decreases n
  {
    n == 0 || (TailClear(t, n - 1) && ShiftedTail(t, n - 1) & 0x80_0000 == 0)
  }

  /** The division step when the leading coefficient is set ... */
  lemma DivStepSubtracts(r: bv8, t: bv24)
    requires t & 0x80_0000 == 0 && r & 0x80 != 0
    ensures ((r as bv24 << 16) ^ t) & 0x80_0000 != 0
    ensures (((r as bv24 << 16) ^ t) ^ (Generator << 15)) << 1 == (((r << 1) ^ Polynom) as bv24 << 16) ^ (t << 1)
  {
  }

  /** ... and when it is clear. */
  lemma DivStepShiftsOnly(r: bv8, t: bv24)
    requires t & 0x80_0000 == 0 && r & 0x80 == 0
    ensures ((r as bv24 << 16) ^ t) & 0x80_0000 == 0
    ensures ((r as bv24 << 16) ^ t) << 1 == ((r << 1) as bv24 << 16) ^ (t << 1)
  {
  }

  /** One division step on a dividend whose leading byte is the register `r`,
      above lower coefficients that do not reach the tested one, is one bit
      step of the register. */
  lemma DivStepIsCrcShift(r: bv8, t: bv24)
    requires t & 0x80_0000 == 0
    ensures DivStep(Window(r, t)) == Window(CrcShift(r), t << 1)
  {
    if r & 0x80 != 0 {
      DivStepSubtracts(r, t);
    } else {
      DivStepShiftsOnly(r, t);
    }
  }

  /** `n` division steps are `n` bit steps of the register. */
  lemma {:induction false} PolyReduceIsCrcShifts(r: bv8, t: bv24, n: nat)
    requires TailClear(t, n)
    ensures PolyReduce(Window(r, t), n) == Window(CrcShifts(r, n), ShiftedTail(t, n))
  {
    if n > 0 {
      PolyReduceIsCrcShifts(r, t, n - 1);
      DivStepIsCrcShift(CrcShifts(r, n - 1), ShiftedTail(t, n - 1));
    }
  }

  /** Dividing in two runs is dividing in one. */
  lemma {:induction false} PolyReduceSplit(v: bv24, m: nat, n: nat)
    ensures PolyReduce(v, m + n) == PolyReduce(PolyReduce(v, m), n)
    decreases n
  {
    if n > 0 {
      PolyReduceSplit(v, m, n - 1);
    }
  }

  /** A second byte below the register stays clear of the tested coefficient
      for eight steps, after which it sits right under the register ... */
  lemma ByteTail(b: bv8)
    ensures TailClear(b as bv24 << 8, 8)
    ensures ShiftedTail(b as bv24 << 8, 8) == b as bv24 << 16
  {
  }

  /** ... and the eight zero bits of the augmentation stay zero. */
  lemma {:induction false} ZeroTail(n: nat)
    ensures TailClear(0, n) && ShiftedTail(0, n) == 0
  {
    if n > 0 {
      ZeroTail(n - 1);
    }
  }

  /** Adding the second byte to the register is the same dividend as keeping
      it right under the register. */
  lemma WindowAbsorbs(r: bv8, b: bv8)
    ensures Window(r, b as bv24 << 16) == Window(r ^ b, 0)
    ensures Window(r, 0) >> 16 == r as bv24
  {
  }

  /** The register algorithm computes exactly the polynomial remainder (which
      therefore has degree below 8). */
  lemma CrcIsPolynomialRemainder(b0: bv8, b1: bv8)
    ensures Crc8(b0, b1) as bv24 == PolyCrc(b0, b1)
  {
    var lead, r8 := InitValue ^ b0, CrcUpdate(InitValue, b0);
    var crc := CrcUpdate(r8, b1);
    Crc8Unfolded(b0, b1);
    // The leading byte runs through eight steps above the second byte ...
    DividendIsWindow(b0, b1);
    ByteTail(b1);
    PolyReduceIsCrcShifts(lead, b1 as bv24 << 8, 8);
    WindowAbsorbs(r8, b1);
    // ... which then stands added to the register, above eight zero bits.
    ZeroTail(8);
    PolyReduceIsCrcShifts(r8 ^ b1, 0, 8);
    WindowAbsorbs(crc, 0);
    PolyReduceSplit(Dividend(b0, b1), 8, 8);
    calc {
      PolyReduce(Dividend(b0, b1), 16);
      PolyReduce(PolyReduce(Window(lead, b1 as bv24 << 8), 8), 8);
      PolyReduce(Window(r8, b1 as bv24 << 16), 8);
      PolyReduce(Window(r8 ^ b1, 0), 8);
      Window(crc, 0);
    }
  }

  /** The message with the initial value, as a dividend. */
  lemma DividendIsWindow(b0: bv8, b1: bv8)
    ensures Dividend(b0, b1) == Window(InitValue ^ b0, b1 as bv24 << 8)
  {
  }
}
