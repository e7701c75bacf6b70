/**
 * The three helpers the TrackerD message decoders share: rendering bytes
 * as lower-case hexadecimal, formatting the 7-byte date/time block, and
 * turning a battery voltage into a percentage.
 */
module Helpers {
  import opened Layout
  import opened JsText
  import Fields

  // ---------------------------------------------------------------------
  // bytesToHex
  // ---------------------------------------------------------------------

  /** `byte.toString(16).padStart(2, '0')`: the high and the low
      hexadecimal digit of the byte. */
  function HexByte(b: byte): (s: string)
    ensures s == [Digit(b / 16), Digit(b % 16)]
  {
    assert b >= 16 ==> NatToString(b / 16, 16) == [Digit(b / 16)];
    PadStart(NatToString(b, 16), 2, '0')
  }

  /** `bytes.map(byte => byte.toString(16).padStart(2, '0')).join('')`:
      two lower-case hexadecimal digits per byte. */
  function BytesToHex(bytes: seq<byte>): (hex: string)
    ensures |hex| == 2 * |bytes|
  {
    if bytes == [] then "" else HexByte(bytes[0]) + BytesToHex(bytes[1..])
  }

  /** Every character of the result is a lower-case hexadecimal digit. */
  lemma {:induction false} HexIsLowerCase(bytes: seq<byte>)
    ensures forall i :: 0 <= i < |BytesToHex(bytes)| ==> IsDigitOf(BytesToHex(bytes)[i], 16)
  {
    if bytes != [] {
      var h, t := HexByte(bytes[0]), BytesToHex(bytes[1..]);
      HexIsLowerCase(bytes[1..]);
      assert BytesToHex(bytes) == h + t;
      forall i | 0 <= i < |h + t|
        ensures IsDigitOf((h + t)[i], 16)
      {
        if i >= 2 {
          assert (h + t)[i] == t[i - 2];
        }
      }
    }
  }

  /** The inverse of BytesToHex: each pair of digits back to a byte. */
  function HexToBytes(hex: string): (bytes: seq<byte>)
    decreases |hex|
  {
    if |hex| < 2 then []
    else [DigitValue(hex[0]) % 16 * 16 + DigitValue(hex[1]) % 16] + HexToBytes(hex[2..])
  }

  lemma {:induction false} HexRoundTrip(bytes: seq<byte>)
    ensures HexToBytes(BytesToHex(bytes)) == bytes
  {
    if bytes != [] {
      var b := bytes[0];
      DigitValueOfDigit(b / 16);
      DigitValueOfDigit(b % 16);
      var hex := BytesToHex(bytes);
      assert hex[2..] == BytesToHex(bytes[1..]);
      HexRoundTrip(bytes[1..]);
    }
  }

  lemma HexInjective(a: seq<byte>, b: seq<byte>)
    ensures BytesToHex(a) == BytesToHex(b) ==> a == b
  {
    HexRoundTrip(a);
    HexRoundTrip(b);
  }

  lemma {:induction false} HexConcat(a: seq<byte>, b: seq<byte>)
    ensures BytesToHex(a + b) == BytesToHex(a) + BytesToHex(b)
  {
    if a != [] {
      assert (a + b)[1..] == a[1..] + b;
      HexConcat(a[1..], b);
    } else {
      assert a + b == b;
    }
  }

  lemma HexCons(b: byte, rest: seq<byte>)
    ensures BytesToHex([b] + rest) == HexByte(b) + BytesToHex(rest)
  {
    assert ([b] + rest)[1..] == rest;
  }

  lemma HexByteExamples()
    ensures HexByte(0x00) == "00" && HexByte(0xFF) == "ff" && HexByte(0x1A) == "1a"
  {
    assert Digit(0) == '0' && Digit(15) == 'f' && Digit(1) == '1' && Digit(10) == 'a';
  }

  lemma HexExample()
    ensures BytesToHex([0x00, 0xFF, 0x1A]) == "00ff1a"
  {
    HexByteExamples();
    HexCons(0x1A, []);
    HexCons(0xFF, [0x1A]);
    HexCons(0x00, [0xFF, 0x1A]);
    assert "00" + ("ff" + ("1a" + "")) == "00ff1a";
  }

  // ---------------------------------------------------------------------
  // formatDateTime
  // ---------------------------------------------------------------------

  datatype DateTime = DateTime(date: string, time: string)

  /** `n.toString().padStart(2, '0')`: values below 100 render as exactly
      two decimal digits, larger ones are not padded (nor truncated). */
  function Pad2(n: nat): (s: string)
    ensures n < 100 ==> s == [Digit(n / 10), Digit(n % 10)]
    ensures n >= 100 ==> s == NatToString(n, 10)
  {
    assert 10 <= n < 100 ==> NatToString(n / 10, 10) == [Digit(n / 10)];
    assert n >= 100 ==> |NatToString(n / 10, 10)| >= 1;
    PadStart(NatToString(n, 10), 2, '0')
  }

  lemma Pad2Reads(n: nat)
    requires n < 100
    ensures |Pad2(n)| == 2 && ParseNat(Pad2(n), 10) == n
  {
    DigitValueOfDigit(n / 10);
    DigitValueOfDigit(n % 10);
    ParseTwoDigits(Digit(n / 10), Digit(n % 10), 10);
  }

  /** formatDateTime: year (big-endian 16 bits), month, day, hour, minute,
      second, rendered with no calendar validation. */
  function FormatDateTime(d: seq<byte>): (dt: DateTime)
    requires |d| >= 7
    ensures dt.date == NatToString(Uint16BE(d[0], d[1]), 10) + "-" + Pad2(d[2]) + "-" + Pad2(d[3])
    ensures dt.time == Pad2(d[4]) + ":" + Pad2(d[5]) + ":" + Pad2(d[6])
  {
    var year: nat := Fields.Uint16Word(d[0], d[1]);
    // month d[2], day d[3], hours d[4], minutes d[5], seconds d[6]
    DateTime(
      NatToString(year, 10) + "-" + Pad2(d[2]) + "-" + Pad2(d[3]),
      Pad2(d[4]) + ":" + Pad2(d[5]) + ":" + Pad2(d[6]))
  }

  /** The time reads back as HH:MM:SS whenever each field is below 100. */
  lemma TimeReadsBack(d: seq<byte>)
    requires |d| >= 7 && d[4] < 100 && d[5] < 100 && d[6] < 100
    ensures var t := FormatDateTime(d).time;
      && |t| == 8 && t[2] == ':' && t[5] == ':'
      && ParseNat(t[0..2], 10) == d[4]
      && ParseNat(t[3..5], 10) == d[5]
      && ParseNat(t[6..8], 10) == d[6]
  {
    Pad2Reads(d[4]);
    Pad2Reads(d[5]);
    Pad2Reads(d[6]);
    var t := FormatDateTime(d).time;
    assert t[0..2] == Pad2(d[4]);
    assert t[3..5] == Pad2(d[5]);
    assert t[6..8] == Pad2(d[6]);
  }

  /** The date reads back as year, month and day whenever month and day are
      below 100: whatever their value, no calendar check intervenes. */
  lemma DateReadsBack(d: seq<byte>)
    requires |d| >= 7 && d[2] < 100 && d[3] < 100
    ensures var s := FormatDateTime(d).date; var n := |s|;
      && n >= 7 && s[n - 6] == '-' && s[n - 3] == '-'
      && ParseNat(s[..n - 6], 10) == Uint16BE(d[0], d[1])
      && ParseNat(s[n - 5..n - 3], 10) == d[2]
      && ParseNat(s[n - 2..], 10) == d[3]
  {
    Pad2Reads(d[2]);
    Pad2Reads(d[3]);
    var y := NatToString(Uint16BE(d[0], d[1]), 10);
    ParseNatToString(Uint16BE(d[0], d[1]), 10);
    var s := FormatDateTime(d).date;
    var n := |s|;
    assert n == |y| + 6;
    assert s[..n - 6] == y;
    assert s[n - 5..n - 3] == Pad2(d[2]);
    assert s[n - 2..] == Pad2(d[3]);
  }

  /** Month 13, day 32, hour 25 and minute 61 pass through unchanged,
      whatever the year. */
  lemma NoCalendarValidation(d: seq<byte>)
    requires |d| == 7
    requires d[2] == 13 && d[3] == 32 && d[4] == 25 && d[5] == 61 && d[6] == 7
    ensures FormatDateTime(d).date == NatToString(Uint16BE(d[0], d[1]), 10) + "-13-32"
    ensures FormatDateTime(d).time == "25:61:07"
  {
    assert Pad2(d[2]) == "13" && Pad2(d[3]) == "32";
    assert Pad2(d[4]) == "25" && Pad2(d[5]) == "61" && Pad2(d[6]) == "07";
  }

  /** The year 2026 is sent as 0x07 0xEA and renders as "2026". */
  lemma YearExample()
    ensures Uint16BE(0x07, 0xEA) == 2026
    ensures NatToString(2026, 10) == "2026"
  {
    assert NatToString(202, 10) == "202" by {
      assert NatToString(20, 10) == "20";
    }
  }

  // ---------------------------------------------------------------------
  // calculateBatteryLevel
  // ---------------------------------------------------------------------

  /** `Math.round`: the nearest integer, halves rounded up. */
  function Round(x: real): (n: int)
    ensures n as real - 0.5 <= x < n as real + 0.5
  {
    (x + 0.5).Floor
  }

  /** calculateBatteryLevel over exact rationals: the linear map of
      2.8 V .. 4.002 V onto 0 .. 100, clamped, then rounded. */
  function CalculateBatteryLevel(batV: real): (level: int)
    ensures 0 <= level <= 100
  {
    var level := (batV - 2.8) / (4.002 - 2.8) * 100.0;
    var capped := if level > 100.0 then 100.0 else level;
    var clamped := if capped < 0.0 then 0.0 else capped;
    Round(clamped)
  }

  lemma BatteryLevelEmpty(batV: real)
    requires batV <= 2.8
    ensures CalculateBatteryLevel(batV) == 0
  {}

  lemma BatteryLevelFull(batV: real)
    requires batV >= 4.002
    ensures CalculateBatteryLevel(batV) == 100
  {}

  lemma BatteryLevelMonotone(v: real, w: real)
    requires v <= w
    ensures CalculateBatteryLevel(v) <= CalculateBatteryLevel(w)
  {
    var lv := (v - 2.8) / (4.002 - 2.8) * 100.0;
    var lw := (w - 2.8) / (4.002 - 2.8) * 100.0;
    assert lv <= lw;
  }

  lemma BatteryLevelMidpoint()
    ensures CalculateBatteryLevel(3.401) == 50
  {}

  /** The same percentage computed in integers from the voltage in millivolts. */
  function BatteryPercent(mv: int): int
  {
    if mv <= 2800 then 0
    else if mv >= 4002 then 100
    else (100 * (mv - 2800) + 601) / 1202
  }

  lemma BatteryLevelOfMillivolts(mv: int)
    ensures CalculateBatteryLevel(mv as real / 1000.0) == BatteryPercent(mv)
  {
    var v := mv as real / 1000.0;
    var level := (v - 2.8) / (4.002 - 2.8) * 100.0;
    assert level == (100 * (mv - 2800)) as real / 1202.0;
    if 2800 < mv < 4002 {
      var num := 100 * (mv - 2800) + 601;
      var q := num / 1202;
      assert q * 1202 <= num < q * 1202 + 1202;
      assert level + 0.5 == num as real / 1202.0;
      assert q as real <= level + 0.5 < q as real + 1.0;
    }
  }
}
