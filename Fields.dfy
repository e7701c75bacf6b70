/**
 * The field extractions of the TrackerD decoder, each written with the
 * JavaScript operators exactly as the decoder combines them, and each
 * proved to compute the arithmetic meaning given in module Layout.
 */
module Fields {
  import opened JsInt32
  import opened Layout

  /** A byte shifted to the top of the word: its pattern is the byte times
      2^24 and its value the byte read as signed, times 2^24. */
  lemma ShlTop(b: byte)
    ensures (Shl(b, 24) as int) % 0x1_0000_0000 == b as int * 0x100_0000
    ensures Shl(b, 24) == Int8(b) * 0x100_0000
  {
    Pow2Values();
    ShlBy(b, 24, 0x100_0000);
    SmallMod(b as int * 0x100_0000);
  }

  lemma SmallResidue(x: int, d: int)
    requires 0 <= x < d
    ensures x % d == x
  {}

  /** `(b0 << 24) | (b1 << 16) | (b2 << 8) | b3`: a big-endian int32. */
  function Int32Word(b0: byte, b1: byte, b2: byte, b3: byte): (r: int32)
    ensures r == Int32BE(b0, b1, b2, b3)
  {
    Int32WordCombines(b0, b1, b2, b3);
    Or(Or(Or(Shl(b0, 24), Shl(b1, 16)), Shl(b2, 8)), b3)
  }

  lemma Int32WordCombines(b0: byte, b1: byte, b2: byte, b3: byte)
    ensures Or(Or(Or(Shl(b0, 24), Shl(b1, 16)), Shl(b2, 8)), b3) == Int32BE(b0, b1, b2, b3)
  {
    var c1: nat := b0 as int * 256 + b1;
    var v1 := Or(Shl(b0, 24), Shl(b1, 16));
    var c2: nat := c1 * 256 + b2;
    var v2 := Or(v1, Shl(b2, 8));
    TopTwoBytes(b0, b1);
    NextByte(v1, c1, b2);
    LastByte(v2, c2, b3);
    assert Uint32BE(b0, b1, b2, b3) == c2 * 256 + b3;
  }

  /** `(b0 << 24) | (b1 << 16)` has the pattern (b0 * 256 + b1) * 2^16. */
  lemma TopTwoBytes(b0: byte, b1: byte)
    ensures (Or(Shl(b0, 24), Shl(b1, 16)) as int) % 0x1_0000_0000 == (b0 as int * 256 + b1) * 0x1_0000
  {
    Pow2Values();
    ShlTop(b0);
    ShlBy(b1, 16, 0x1_0000);
    var low: int32 := Shl(b1, 16);
    assert low == b1 as int * 0x1_0000;
    OrDisjoint(Shl(b0, 24), b0, low, 24, 0x100_0000);
    var sum := b0 as int * 0x100_0000 + low;
    assert sum == (b0 as int * 256 + b1) * 0x1_0000;
    SmallMod(sum);
  }

  /** OR-ing a third byte in at bit 8 below a two-byte pattern c1 * 2^16. */
  lemma NextByte(v1: int32, c1: nat, b2: byte)
    requires c1 < 0x1_0000 && (v1 as int) % 0x1_0000_0000 == c1 * 0x1_0000
    ensures (Or(v1, Shl(b2, 8)) as int) % 0x1_0000_0000 == (c1 * 256 + b2) * 256
  {
    ShlBy(b2, 8, 256);
    OrDisjoint(v1, c1, Shl(b2, 8), 16, 0x1_0000);
    SmallMod((c1 * 256 + b2) * 256);
  }

  /** OR-ing the last byte below a three-byte pattern c2 * 2^8 gives the int32. */
  lemma LastByte(v2: int32, c2: nat, b3: byte)
    requires c2 < 0x100_0000 && (v2 as int) % 0x1_0000_0000 == c2 * 256
    ensures Or(v2, b3) == if c2 < 0x80_0000 then c2 * 256 + b3 else c2 * 256 + b3 - 0x1_0000_0000
  {
    OrDisjoint(v2, c2, b3, 8, 256);
    SmallMod(c2 * 256 + b3);
  }

  /** `(hi << 8) | lo`: a big-endian unsigned 16-bit value. */
  function Uint16Word(hi: byte, lo: byte): (r: int32)
    ensures r == Uint16BE(hi, lo)
  {
    Uint16WordCombines(hi, lo);
    Or(Shl(hi, 8), lo)
  }

  lemma Uint16WordCombines(hi: byte, lo: byte)
    ensures Or(Shl(hi, 8), lo) == Uint16BE(hi, lo)
  {
    Pow2Values();
    ShlBy(hi, 8, 256);
    SmallMod(hi as int * 256);
    OrDisjoint(Shl(hi, 8), hi, lo, 8, 256);
  }

  /** `((hi << 24) >> 16) | lo`: the byte pair read as a signed 16-bit value;
      the shifted high byte has eight zero low bits, so the OR adds `lo`. */
  function Int16Word(hi: byte, lo: byte): (r: int32)
    ensures r == Int16BE(hi, lo)
  {
    Int16WordCombines(hi, lo);
    Or(Sar(Shl(hi, 24), 16), lo)
  }

  lemma Int16WordCombines(hi: byte, lo: byte)
    ensures Or(Sar(Shl(hi, 24), 16), lo) == Int16BE(hi, lo)
  {
    Pow2Values();
    ShlTop(hi);
    var s := Shl(hi, 24);
    SarBy(s, 16, 0x1_0000);
    DivModUnique(s, 0x1_0000, Int8(hi) * 256, 0);
    var t: int32 := Sar(s, 16);
    assert t as int == Int8(hi) * 256;
    var c: nat := if hi < 128 then hi else hi + 0xFF_FF00;
    if hi < 128 {
      SmallMod(t);
    } else {
      DivModUnique(t, 0x1_0000_0000, -1, c * 256);
    }
    OrDisjoint(t, c, lo, 8, 256);
    SmallMod(c * 256 + lo);
  }

  /** `(b << 24) >> 24`: the byte read as a signed 8-bit value. */
  function Int8Word(b: byte): (r: int32)
    ensures r == Int8(b)
  {
    Int8WordSignExtends(b);
    Sar(Shl(b, 24), 24)
  }

  lemma Int8WordSignExtends(b: byte)
    ensures Sar(Shl(b, 24), 24) == Int8(b)
  {
    Pow2Values();
    ShlTop(b);
    SarBy(Shl(b, 24), 24, 0x100_0000);
  }

  /** `((hi & 0x3F) << 8) | lo`: the 14-bit battery voltage in millivolts. */
  function MillivoltsWord(hi: byte, lo: byte): (r: int32)
    ensures r == BatteryMillivolts(hi, lo)
  {
    MillivoltsCombines(hi, lo);
    Or(Shl(And(hi, 0x3F), 8), lo)
  }

  lemma MillivoltsCombines(hi: byte, lo: byte)
    ensures Or(Shl(And(hi, 0x3F), 8), lo) == BatteryMillivolts(hi, lo)
  {
    Pow2Values();
    AndLowMask(hi, 6, 64, 0x3F);
    var low6: byte := hi % 64;
    assert And(hi, 0x3F) == low6;
    ShlBy(low6, 8, 256);
    SmallMod(low6 as int * 256);
    OrDisjoint(Shl(low6, 8), low6, lo, 8, 256);
  }

  /** `b & p` for the single-bit mask p = 2^k of a byte, with q = b / p. */
  lemma AndSingleBit(b: byte, k: nat, p: nat, q: nat)
    requires k < 8 && p == Pow2(k) && p <= 128 && q == b / p
    ensures And(b, p) == p * (q % 2)
  {
    AndShiftedMask(b, 1, k, p, q, p);
    BitAndLow(q, 1, 2, 1);
  }

  /** `(b & 0x40) ? true : false`. */
  function AlarmFlag(b: byte): (r: bool)
    ensures r == Bit(b, 6)
  {
    Pow2Values();
    AndSingleBit(b, 6, 0x40, b / 0x40);
    And(b, 0x40) != 0
  }

  /** The test of `(b & 0x20) ? "ON" : "OFF"`. */
  function LedFlag(b: byte): (r: bool)
    ensures r == Bit(b, 5)
  {
    Pow2Values();
    AndSingleBit(b, 5, 0x20, b / 0x20);
    And(b, 0x20) != 0
  }

  /** The test of `(b & 0x10) ? "MOVE" : "STILL"`. */
  function MovementFlag(b: byte): (r: bool)
    ensures r == Bit(b, 4)
  {
    Pow2Values();
    AndSingleBit(b, 4, 0x10, b / 0x10);
    And(b, 0x10) != 0
  }

  /** `(b >> 3) & 0x01`: bit 3 as the number 0 or 1. */
  function BackgroundBit(b: byte): (r: int32)
    ensures r == (if Bit(b, 3) then 1 else 0)
  {
    BackgroundBitExtracts(b);
    And(Sar(b, 3), 0x01)
  }

  lemma BackgroundBitExtracts(b: byte)
    ensures And(Sar(b, 3), 0x01) == (b / 8) % 2
  {
    Pow2Values();
    SarBy(b, 3, 8);
    AndLowMask(Sar(b, 3), 1, 2, 0x01);
  }

  /** `b & 0xC0`: bits 7 and 6 left in place. */
  function ModeInPlace(b: byte): (r: int32)
    ensures r == 64 * TopTwoBits(b)
  {
    TopTwoBitsMask(b);
    And(b, 0xC0)
  }

  lemma TopTwoBitsMask(b: byte)
    ensures And(b, 0xC0) == 64 * TopTwoBits(b)
  {
    var q: nat := b / 64;
    AndShiftedMask(b, 3, 6, 64, q, 0xC0);
    BitAndLow(q, 2, 4, 3);
    SmallResidue(q, 4);
  }

  /** `(b & 0xC0) >> 6`: bits 7 and 6 as a number 0..3. */
  function ModeShifted(b: byte): (r: int32)
    ensures r == TopTwoBits(b)
  {
    ModeShiftedExtracts(b);
    Sar(And(b, 0xC0), 6)
  }

  lemma ModeShiftedExtracts(b: byte)
    ensures Sar(And(b, 0xC0), 6) == TopTwoBits(b)
  {
    Pow2Values();
    TopTwoBitsMask(b);
    SarBy(And(b, 0xC0), 6, 64);
  }

  /** `b & 0x0F`. */
  function LowNibbleWord(b: byte): (r: int32)
    ensures r == LowNibble(b)
  {
    Pow2Values();
    AndLowMask(b, 4, 16, 0x0F);
    And(b, 0x0F)
  }

  /** `(b >> 4) & 0x0F`. */
  function HighNibbleWord(b: byte): (r: int32)
    ensures r == HighNibble(b)
  {
    HighNibbleExtracts(b);
    And(Sar(b, 4), 0x0F)
  }

  lemma HighNibbleExtracts(b: byte)
    ensures And(Sar(b, 4), 0x0F) == HighNibble(b)
  {
    SarBy(b, 4, 16);
    var h: int32 := Sar(b, 4);
    assert h == b / 16;
    AndLowMask(h, 4, 16, 0x0F);
    SmallResidue(h, 16);
  }
}
