/**
 * What the bytes of a TrackerD uplink mean, stated arithmetically: the
 * big-endian unsigned and two's-complement signed integers, the 14-bit
 * battery voltage with its alarm flag, single bits and bit groups of a
 * status byte. These definitions use no bitwise operator; the decoder's
 * shift-and-mask expressions are proved equal to them in module Fields.
 */
module Layout {

  type byte = x: int | 0 <= x < 256

  function Uint16BE(hi: byte, lo: byte): nat
  {
    hi * 256 + lo
  }

  function Uint32BE(b0: byte, b1: byte, b2: byte, b3: byte): nat
  {
    ((b0 * 256 + b1) * 256 + b2) * 256 + b3
  }

  /** Two's complement: the top bit of the first byte carries weight -2^31. */
  function Int32BE(b0: byte, b1: byte, b2: byte, b3: byte): int
  {
    if b0 < 128 then Uint32BE(b0, b1, b2, b3) else Uint32BE(b0, b1, b2, b3) - 0x1_0000_0000
  }

  function Int16BE(hi: byte, lo: byte): int
  {
    if hi < 128 then Uint16BE(hi, lo) else Uint16BE(hi, lo) - 0x1_0000
  }

  function Int8(b: byte): int
  {
    if b < 128 then b else b - 256
  }

  /** Bit k (k = 0 is the least significant) of a byte. */
  function Bit(b: byte, k: nat): bool
    requires k < 8
  {
    (b / [1, 2, 4, 8, 16, 32, 64, 128][k]) % 2 == 1
  }

  /** Bits 7 and 6 of a byte, as a number 0..3. */
  function TopTwoBits(b: byte): nat
  {
    b / 64
  }

  function HighNibble(b: byte): nat
  {
    b / 16
  }

  function LowNibble(b: byte): nat
  {
    b % 16
  }

  /** The battery voltage in millivolts: bits 5..0 of `hi` above the 8 bits of `lo`. */
  function BatteryMillivolts(hi: byte, lo: byte): nat
  {
    (hi % 64) * 256 + lo
  }

  /** The alarm flag that shares its byte with the battery voltage. */
  function BatteryAlarm(hi: byte): bool
  {
    Bit(hi, 6)
  }

  // ---------------------------------------------------------------------
  // Ranges
  // ---------------------------------------------------------------------

  lemma BatteryMillivoltsRange(hi: byte, lo: byte)
    ensures 0 <= BatteryMillivolts(hi, lo) <= 16383
  {}

  lemma TopTwoBitsRange(b: byte)
    ensures 0 <= TopTwoBits(b) <= 3
  {}

  lemma Int8Range(b: byte)
    ensures -128 <= Int8(b) <= 127
    ensures (Int8(b) < 0) == (b >= 128)
  {}

  lemma Int16Range(hi: byte, lo: byte)
    ensures -0x8000 <= Int16BE(hi, lo) <= 0x7FFF
    ensures (Int16BE(hi, lo) < 0) == (hi >= 128)
  {}

  lemma Int32Range(b0: byte, b1: byte, b2: byte, b3: byte)
    ensures -0x8000_0000 <= Int32BE(b0, b1, b2, b3) <= 0x7FFF_FFFF
    ensures (Int32BE(b0, b1, b2, b3) < 0) == (b0 >= 128)
  {}

  // ---------------------------------------------------------------------
  // Encoders and round trips
  // ---------------------------------------------------------------------

  /** The two bytes a device sends for a voltage and an alarm flag (bit 7 clear). */
  function EncodeBattery(mv: nat, alarm: bool): (bs: (byte, byte))
    requires mv < 16384
  {
    ((if alarm then 64 else 0) + mv / 256, mv % 256)
  }

  /** Decoding recovers both the voltage and the alarm flag. */
  lemma BatteryRoundTrip(mv: nat, alarm: bool)
    requires mv < 16384
    ensures BatteryMillivolts(EncodeBattery(mv, alarm).0, EncodeBattery(mv, alarm).1) == mv
    ensures BatteryAlarm(EncodeBattery(mv, alarm).0) == alarm
  {
    var hi := EncodeBattery(mv, alarm).0;
    assert hi % 64 == mv / 256;
    assert hi / 64 == (if alarm then 1 else 0);
  }

  /** Re-encoding a decoded pair reproduces every bit the decoder reads:
      bits 6..0 of the high byte and the whole low byte. */
  lemma BatteryReencode(hi: byte, lo: byte)
    ensures EncodeBattery(BatteryMillivolts(hi, lo), BatteryAlarm(hi)) == (hi % 128, lo)
  {
    var mv := BatteryMillivolts(hi, lo);
    assert mv / 256 == hi % 64 && mv % 256 == lo;
    assert BatteryAlarm(hi) == ((hi % 128) / 64 == 1);
  }

  /** The alarm bit and bit 7 play no part in the voltage. */
  lemma BatteryIgnoresUpperBits(hi: byte, lo: byte)
    ensures forall h: byte :: h % 64 == hi % 64 ==> BatteryMillivolts(h, lo) == BatteryMillivolts(hi, lo)
  {}

  function EncodeInt32BE(v: int): (bs: seq<byte>)
    requires -0x8000_0000 <= v < 0x8000_0000
    ensures |bs| == 4
  {
    var u := if v < 0 then v + 0x1_0000_0000 else v;
    [u / 0x100_0000, (u / 0x1_0000) % 256, (u / 256) % 256, u % 256]
  }

  lemma Int32RoundTrip(v: int)
    requires -0x8000_0000 <= v < 0x8000_0000
    ensures var bs := EncodeInt32BE(v); Int32BE(bs[0], bs[1], bs[2], bs[3]) == v
  {
    var u := if v < 0 then v + 0x1_0000_0000 else v;
    var bs := EncodeInt32BE(v);
    var u1: int, u2: int := u / 256, u / 0x1_0000;
    var c0: int, c1: int, c2: int, c3: int := bs[0], bs[1], bs[2], bs[3];
    assert u == u1 * 256 + c3;
    assert u1 == u2 * 256 + c2;
    assert u2 == c0 * 256 + c1;
    assert Uint32BE(bs[0], bs[1], bs[2], bs[3]) == u;
  }

  lemma Int32Reencode(b0: byte, b1: byte, b2: byte, b3: byte)
    ensures EncodeInt32BE(Int32BE(b0, b1, b2, b3)) == [b0, b1, b2, b3]
  {
    var u := Uint32BE(b0, b1, b2, b3);
    assert u / 0x100_0000 == b0;
    assert (u / 0x1_0000) % 256 == b1;
    assert (u / 256) % 256 == b2;
  }

  function EncodeInt16BE(v: int): (bs: (byte, byte))
    requires -0x8000 <= v < 0x8000
  {
    var u := if v < 0 then v + 0x1_0000 else v;
    (u / 256, u % 256)
  }

  lemma Int16RoundTrip(v: int)
    requires -0x8000 <= v < 0x8000
    ensures Int16BE(EncodeInt16BE(v).0, EncodeInt16BE(v).1) == v
  {}

  lemma Int8RoundTrip(v: int)
    requires -128 <= v < 128
    ensures Int8(v % 256) == v
  {}
}
