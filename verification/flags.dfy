/** The status byte (PS) and the flag unit that updates it.

    The emulator packs its flags in its own order, the reverse of the
    6502 programming manual's P register: Carry is bit 7 and Negative is
    bit 0.  The status byte is a bit-vector here because every flag
    operation is a bitwise or/and-not on it; data values handed to the
    flag unit are bytes (integers 0..255), as in the rest of the model.
 */
module Flags {

  /** An 8-bit value: a register, a memory cell, an operand. */
  type Byte = b: int | 0 <= b < 0x100

  const FlagC: bv8 := 0x80
  const FlagZ: bv8 := 0x40
  const FlagI: bv8 := 0x20
  const FlagD: bv8 := 0x10
  const FlagB: bv8 := 0x08
  const FlagUnused: bv8 := 0x04
  const FlagV: bv8 := 0x02
  const FlagN: bv8 := 0x01

  /** Unused and Decimal: the bits that reset leaves set. */
  const ResetBits: bv8 := 0x14

  /** Bit 7 of a byte: 1 when the byte is negative in two's complement. */
  function SignOf(v: Byte): (bit: bv8)
    ensures bit == 1 <==> v >= 0x80
    ensures bit == 0 <==> v < 0x80
  {
    (v as bv8) >> 7
  }

  /** `ps | mask`: every bit of `mask` becomes 1. */
  function Set(ps: bv8, mask: bv8): (r: bv8)
    ensures r & mask == mask
    ensures r & !mask == ps & !mask
  {
    ps | mask
  }

  /** `ps & ~mask`: every bit of `mask` becomes 0. */
  function Clear(ps: bv8, mask: bv8): (r: bv8)
    ensures r & mask == 0
    ensures r & !mask == ps & !mask
  {
    ps & !mask
  }

  /** The status byte after the Negative flag is made to follow bit 7 of `v`. */
  function WithNegative(ps: bv8, v: Byte): (r: bv8)
    ensures (r & FlagN != 0) <==> v >= 0x80
    ensures r & !FlagN == ps & !FlagN
  {
    if SignOf(v) != 0 then Set(ps, FlagN) else Clear(ps, FlagN)
  }

  /** The status byte after the Zero flag is made to follow `v == 0`. */
  function WithZero(ps: bv8, v: Byte): (r: bv8)
    ensures (r & FlagZ != 0) <==> v == 0
    ensures r & !FlagZ == ps & !FlagZ
  {
    if v == 0 then Set(ps, FlagZ) else Clear(ps, FlagZ)
  }

  /** The Negative-then-Zero update that every load, increment and
      decrement applies to its result. */
  function WithNZ(ps: bv8, v: Byte): (r: bv8)
    ensures (r & FlagN != 0) <==> v >= 0x80
    ensures (r & FlagZ != 0) <==> v == 0
    ensures r & !(FlagN | FlagZ) == ps & !(FlagN | FlagZ)
  {
    WithZero(WithNegative(ps, v), v)
  }

  /** Reference definition of signed overflow: `a` and `b` have the same
      sign and `result` has the other one. */
  predicate SignedOverflow(a: Byte, b: Byte, result: Byte)
  {
    (a >= 0x80) == (b >= 0x80) && (result >= 0x80) != (a >= 0x80)
  }

  /** The integer that the emulator's overflow test computes and returns:
      `((a ^ result) & 0x80) & ((b ^ result) & 0x80)`. */
  function OverflowMask(a: Byte, b: Byte, result: Byte): (m: bv8)
    ensures m == (if SignedOverflow(a, b, result) then 0x80 else 0)
  {
    var x, y, z := a as bv8, b as bv8, result as bv8;
    assert ((x ^ z) & 0x80) & ((y ^ z) & 0x80) ==
           (if (x & 0x80 != 0) == (y & 0x80 != 0) && (z & 0x80 != 0) != (x & 0x80 != 0) then 0x80 else 0);
    SignBitIsHigh(a);
    SignBitIsHigh(b);
    SignBitIsHigh(result);
    ((x ^ z) & 0x80) & ((y ^ z) & 0x80)
  }

  /** The status byte after the Overflow flag is made to follow the
      overflow test on `a`, `b` and `result`. */
  function WithOverflow(ps: bv8, a: Byte, b: Byte, result: Byte): (r: bv8)
    ensures (r & FlagV != 0) <==> SignedOverflow(a, b, result)
    ensures r & !FlagV == ps & !FlagV
  {
    if OverflowMask(a, b, result) != 0 then Set(ps, FlagV) else Clear(ps, FlagV)
  }

  lemma SignBitIsHigh(v: Byte)
    ensures ((v as bv8) & 0x80 != 0) == (v >= 0x80)
  {
  }

  /** The value of a byte read as a two's-complement signed number. */
  function ToSigned(v: Byte): int
  {
    if v >= 0x80 then v - 0x100 else v
  }

  /** The overflow rule is the two's-complement add-overflow test: for the
      8-bit wrapped sum of `a` and `b`, it holds exactly when the true
      signed sum falls outside -128..127. */
  lemma OverflowDetectsSignedAdd(a: Byte, b: Byte)
    ensures SignedOverflow(a, b, (a + b) % 0x100) <==> !(-0x80 <= ToSigned(a) + ToSigned(b) < 0x80)
  {
  }

  /** The Negative-and-Zero update is the only status byte that has the
      required Negative and Zero bits and agrees with `ps` elsewhere. */
  lemma NZDetermined(ps: bv8, r: bv8, v: Byte)
    requires (r & FlagN != 0) <==> v >= 0x80
    requires (r & FlagZ != 0) <==> v == 0
    requires r & !(FlagN | FlagZ) == ps & !(FlagN | FlagZ)
    ensures r == WithNZ(ps, v)
  {
  }

  /** None of the flag updates an instruction performs clears Unused or
      Decimal, so the bits reset sets survive them. */
  lemma UpdatesKeepResetBits(ps: bv8, v: Byte)
    requires ps & ResetBits == ResetBits
    ensures WithNZ(ps, v) & ResetBits == ResetBits
    ensures Set(ps, FlagB) & ResetBits == ResetBits
    ensures Set(ps, FlagI) & ResetBits == ResetBits
  {
  }
}
