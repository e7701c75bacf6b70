/**
 * The JavaScript string conversions the decoder relies on:
 * `Number.prototype.toString(radix)` on a non-negative integer,
 * `String.prototype.padStart` with a one-character filler, and
 * `String.fromCharCode` on byte values. Each comes with the inverse or the
 * property that pins down what it produces.
 */
module JsText {
  import opened Layout
  import JsInt32

  lemma DivModRadix(n: nat, radix: nat)
    requires 2 <= radix
    ensures n == (n / radix) * radix + n % radix
    ensures 0 <= n % radix < radix
    ensures n >= radix ==> 1 <= n / radix < n
  {
    var q, r := n / radix, n % radix;
    assert n == radix * q + r;
    if n >= radix {
      if q <= 0 {
        JsInt32.MulNonneg(radix, -q);
        assert false;
      }
      JsInt32.MulNonneg(radix - 2, q);
      assert radix * q == (radix - 2) * q + 2 * q;
    }
  }

  /** The digit character for a value below 16 (lower-case letters from 10 on). */
  function Digit(d: nat): (c: char)
    requires d < 16
    ensures IsDigitOf(c, 16)
    ensures d < 10 ==> IsDigitOf(c, 10)
  {
    if d < 10 then ('0' as int + d) as char else ('a' as int + d - 10) as char
  }

  /** The value of a digit character; 0 for any other character. */
  function DigitValue(c: char): nat
  {
    if '0' <= c <= '9' then c as int - '0' as int
    else if 'a' <= c <= 'f' then c as int - 'a' as int + 10
    else 0
  }

  predicate IsDigitOf(c: char, radix: nat)
  {
    ('0' <= c <= '9' && (c as int - '0' as int) < radix) ||
    ('a' <= c <= 'f' && (c as int - 'a' as int) + 10 < radix)
  }

  lemma DigitValueOfDigit(d: nat)
    requires d < 16
    ensures DigitValue(Digit(d)) == d
  {}

  lemma DigitOfDigitValue(c: char, radix: nat)
    requires 2 <= radix <= 16 && IsDigitOf(c, radix)
    ensures DigitValue(c) < radix && Digit(DigitValue(c)) == c
  {}

  /** `n.toString(radix)` for a non-negative integer n: the digits of n in
      the given radix, most significant first, with no leading zero. */
  function NatToString(n: nat, radix: nat): (s: string)
    requires 2 <= radix <= 16
    ensures 1 <= |s|
    ensures forall i :: 0 <= i < |s| ==> IsDigitOf(s[i], radix)
    decreases n
  {
    DivModRadix(n, radix);
    if n < radix then [Digit(n)]
    else NatToString(n / radix, radix) + [Digit(n % radix)]
  }

  /** Reading a string of digits back as a number. */
  function ParseNat(s: string, radix: nat): nat
    decreases |s|
  {
    if s == [] then 0
    else ParseNat(s[..|s| - 1], radix) * radix + DigitValue(s[|s| - 1])
  }

  lemma {:induction false} ParseNatToString(n: nat, radix: nat)
    requires 2 <= radix <= 16
    ensures ParseNat(NatToString(n, radix), radix) == n
    decreases n
  {
    var s := NatToString(n, radix);
    DivModRadix(n, radix);
    if n < radix {
      assert s[..0] == [];
      DigitValueOfDigit(n);
    } else {
      var prefix := NatToString(n / radix, radix);
      assert s[..|s| - 1] == prefix;
      ParseNatToString(n / radix, radix);
      DigitValueOfDigit(n % radix);
    }
  }

  /** A two-character string reads as its two digit values. */
  lemma ParseTwoDigits(a: char, b: char, radix: nat)
    ensures ParseNat([a, b], radix) == DigitValue(a) * radix + DigitValue(b)
  {
    assert [a, b][..1] == [a];
    assert [a][..0] == [];
    assert ParseNat([a], radix) == 0 * radix + DigitValue(a);
    assert ParseNat([a, b], radix) == ParseNat([a], radix) * radix + DigitValue(b);
  }

  /** Distinct numbers render as distinct strings. */
  lemma NatToStringInjective(m: nat, n: nat, radix: nat)
    requires 2 <= radix <= 16
    ensures NatToString(m, radix) == NatToString(n, radix) ==> m == n
  {
    ParseNatToString(m, radix);
    ParseNatToString(n, radix);
  }

  /** A positive number never renders with a leading zero. */
  lemma {:induction false} NoLeadingZero(n: nat, radix: nat)
    requires 2 <= radix <= 16 && n > 0
    ensures NatToString(n, radix)[0] != '0'
    decreases n
  {
    DivModRadix(n, radix);
    if n >= radix {
      NoLeadingZero(n / radix, radix);
    }
  }

  /** `s.padStart(width, fill)` for a one-character filler. */
  function PadStart(s: string, width: nat, fill: char): (r: string)
    ensures |r| == if |s| >= width then |s| else width
  {
    if |s| >= width then s else seq(width - |s|, _ => fill) + s
  }

  /** The padded string ends with s and is filled on the left. */
  lemma PadStartShape(s: string, width: nat, fill: char)
    ensures var r := PadStart(s, width, fill);
      && r[|r| - |s|..] == s
      && forall i :: 0 <= i < |r| - |s| ==> r[i] == fill
  {}

  /** `String.fromCharCode(...codes)` for byte-sized codes: one character per code. */
  function FromCharCodes(codes: seq<byte>): (s: string)
    ensures |s| == |codes|
    ensures forall i :: 0 <= i < |s| ==> s[i] as int == codes[i]
  {
    if codes == [] then "" else [codes[0] as char] + FromCharCodes(codes[1..])
  }
}
