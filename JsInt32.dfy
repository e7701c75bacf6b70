/**
 * The JavaScript bitwise operators `<<`, `>>`, `&` and `|` as they act on
 * numbers that are integers: both operands pass through ToInt32 (reduction
 * modulo 2^32, read back as two's complement), the operator works on the
 * 32-bit patterns, and the result is again a signed 32-bit integer.
 *
 * The bitwise AND and OR are defined bit by bit on naturals; the lemmas
 * below say what they compute for the masks and the disjoint operands that
 * the decoder uses.
 */
module JsInt32 {

  type int32 = x: int | -0x8000_0000 <= x < 0x8000_0000

  function Pow2(k: nat): (p: nat)
    ensures p >= 1
  {
    if k == 0 then 1 else 2 * Pow2(k - 1)
  }

  lemma Pow2Values()
    ensures Pow2(1) == 2 && Pow2(2) == 4 && Pow2(3) == 8 && Pow2(4) == 16
    ensures Pow2(5) == 32 && Pow2(6) == 64 && Pow2(8) == 256
    ensures Pow2(16) == 0x1_0000 && Pow2(24) == 0x100_0000 && Pow2(32) == 0x1_0000_0000
  {
    assert Pow2(8) == 256 by {
      assert Pow2(6) == 64 by { assert Pow2(4) == 16; }
    }
    Pow2Add(8, 8);
    Pow2Add(16, 8);
    Pow2Add(16, 16);
  }

  lemma {:induction false} Pow2Add(a: nat, b: nat)
    ensures Pow2(a + b) == Pow2(a) * Pow2(b)
  {
    if a > 0 {
      Pow2Add(a - 1, b);
      assert Pow2(a + b) == 2 * Pow2(a - 1 + b);
    }
  }

  /** ECMAScript ToInt32 on an integer: keep the residue modulo 2^32 and read
      it as a two's-complement 32-bit value. */
  function ToInt32(x: int): (r: int32)
    ensures r % 0x1_0000_0000 == x % 0x1_0000_0000
    ensures -0x8000_0000 <= x < 0x8000_0000 ==> r == x
  {
    var m := x % 0x1_0000_0000;
    if m >= 0x8000_0000 then m - 0x1_0000_0000 else m
  }

  /** The bitwise AND of two naturals, least significant bit first. */
  function BitAnd(x: nat, y: nat): nat
    decreases x + y
  {
    if x == 0 || y == 0 then 0
    else (if x % 2 == 1 && y % 2 == 1 then 1 else 0) + 2 * BitAnd(x / 2, y / 2)
  }

  /** The bitwise OR of two naturals, least significant bit first. */
  function BitOr(x: nat, y: nat): nat
    decreases x + y
  {
    if x == 0 then y
    else if y == 0 then x
    else (if x % 2 == 1 || y % 2 == 1 then 1 else 0) + 2 * BitOr(x / 2, y / 2)
  }

  /** JavaScript `a & b`: the AND of the two 32-bit patterns. */
  function And(a: int32, b: int32): int32
  {
    ToInt32(BitAnd(a % 0x1_0000_0000, b % 0x1_0000_0000))
  }

  /** JavaScript `a | b`: the OR of the two 32-bit patterns (the OR of two
      naturals below 2^32 is again below 2^32). */
  function Or(a: int32, b: int32): int32
  {
    ToInt32(BitOr(a % 0x1_0000_0000, b % 0x1_0000_0000))
  }

  /** JavaScript `a << k` for a shift count below 32. */
  function Shl(a: int32, k: nat): int32
    requires k < 32
  {
    ToInt32(a * Pow2(k))
  }

  /** JavaScript `a >> k` (sign-propagating) for a shift count below 32:
      Dafny's division by a positive divisor rounds toward minus infinity,
      and the quotient is always an int32 again. */
  function Sar(a: int32, k: nat): int32
    requires k < 32
  {
    ToInt32(a / Pow2(k))
  }

  // ---------------------------------------------------------------------
  // Arithmetic facts about halving
  // ---------------------------------------------------------------------

  lemma MulNonneg(a: int, b: int)
    requires a >= 0 && b >= 0
    ensures a * b >= 0
  {}

  lemma SmallMod(x: int)
    requires 0 <= x < 0x1_0000_0000
    ensures x % 0x1_0000_0000 == x
  {}

  lemma DoubleMul(p: int, b: int)
    ensures (2 * p) * b == 2 * (p * b)
  {}

  lemma MulSmallIsZero(d: int, e: int)
    requires d >= 1 && -d < d * e < d
    ensures e == 0
  {
    if e >= 1 {
      MulNonneg(d, e - 1);
      assert false;
    } else if e <= -1 {
      MulNonneg(d, -e - 1);
      assert false;
    }
  }

  lemma DivModUnique(x: int, d: int, q: int, r: int)
    requires d >= 1 && 0 <= r < d && x == d * q + r
    ensures x / d == q && x % d == r
  {
    var q0, r0 := x / d, x % d;
    assert x == d * q0 + r0 && 0 <= r0 < d;
    assert d * (q - q0) == r0 - r;
    MulSmallIsZero(d, q - q0);
  }

  lemma HalveMod(x: nat, p: nat)
    requires p >= 1
    ensures x % (2 * p) == x % 2 + 2 * ((x / 2) % p)
    ensures x / (2 * p) == (x / 2) / p
  {
    var h := x / 2;
    var q, t := h / p, h % p;
    assert h == p * q + t;
    assert x == (2 * p) * q + (x % 2 + 2 * t);
    DivModUnique(x, 2 * p, q, x % 2 + 2 * t);
  }

  // ---------------------------------------------------------------------
  // AND with masks
  // ---------------------------------------------------------------------

  /** AND with a mask of k low one-bits keeps the residue modulo 2^k. */
  lemma {:induction false} BitAndLowMask(x: nat, k: nat)
    ensures BitAnd(x, Pow2(k) - 1) == x % Pow2(k)
  {
    if k > 0 {
      var p := Pow2(k - 1);
      assert Pow2(k) == 2 * p;
      var m := 2 * p - 1;
      assert m % 2 == 1 && m / 2 == p - 1;
      if x == 0 {
        assert 0 % (2 * p) == 0;
      } else {
        calc {
          BitAnd(x, m);
          x % 2 + 2 * BitAnd(x / 2, m / 2);
          { BitAndLowMask(x / 2, k - 1); }
          x % 2 + 2 * ((x / 2) % p);
          { HalveMod(x, p); }
          x % (2 * p);
        }
      }
    }
  }

  /** AND with a mask m shifted up by j bits (mp = m * 2^j) looks at x
      shifted down by j bits. */
  lemma {:induction false} BitAndShiftedMask(x: nat, m: nat, j: nat, p: nat, mp: nat)
    requires p == Pow2(j) && mp == m * p
    ensures BitAnd(x, mp) == p * BitAnd(x / p, m)
  {
    if j > 0 {
      var p' := Pow2(j - 1);
      assert p == 2 * p';
      MulNonneg(m, p');
      var mp': nat := m * p';
      assert mp == 2 * mp' by { DoubleMul(p', m); }
      var h := x / 2;
      assert x / p == h / p' by { HalveMod(x, p'); }
      var b := BitAnd(x / p, m);
      calc {
        BitAnd(x, mp);
        { BitAndEvenMask(x, mp'); }
        2 * BitAnd(h, mp');
        { BitAndShiftedMask(h, m, j - 1, p', mp'); }
        2 * (p' * b);
        { DoubleMul(p', b); }
        p * b;
      }
    } else {
      assert p == 1 && mp == m && x / p == x;
    }
  }

  lemma BitAndEvenMask(x: nat, h: nat)
    ensures BitAnd(x, 2 * h) == 2 * BitAnd(x / 2, h)
  {
    if x > 0 && h > 0 {
      assert (2 * h) % 2 == 0 && (2 * h) / 2 == h;
    } else if x > 0 {
      assert BitAnd(x / 2, h) == 0;
    }
  }

  // ---------------------------------------------------------------------
  // OR of operands whose bits do not overlap
  // ---------------------------------------------------------------------

  /** When y fits below bit k and x is a multiple of 2^k, OR is addition. */
  lemma {:induction false} BitOrDisjoint(c: nat, y: nat, k: nat)
    requires y < Pow2(k)
    ensures BitOr(c * Pow2(k), y) == c * Pow2(k) + y
  {
    var x := c * Pow2(k);
    if k > 0 && x > 0 && y > 0 {
      assert x == 2 * (c * Pow2(k - 1));
      assert x % 2 == 0 && x / 2 == c * Pow2(k - 1);
      BitOrDisjoint(c, y / 2, k - 1);
    }
  }

  // ---------------------------------------------------------------------
  // The same facts for the 32-bit operators. Each lemma takes the power of
  // two `p == Pow2(k)` as an argument, so that a caller passing a literal
  // obtains a statement in linear arithmetic.
  // ---------------------------------------------------------------------

  lemma ShlBy(a: int32, k: nat, p: nat)
    requires k < 32 && p == Pow2(k)
    ensures Shl(a, k) == ToInt32(a * p)
  {}

  /** Dividing by a power of two (rounding down) cannot leave the 32-bit
      range, so `a >> k` is the plain quotient: no wrap-around occurs. */
  lemma SarBy(a: int32, k: nat, p: nat)
    requires k < 32 && p == Pow2(k)
    ensures Sar(a, k) == a / p
  {
    FloorDivShrinks(a, p);
  }

  /** Floor division by a positive divisor moves towards zero without
      crossing it. */
  lemma FloorDivShrinks(a: int, p: int)
    requires p >= 1
    ensures a >= 0 ==> 0 <= a / p <= a
    ensures a < 0 ==> a <= a / p < 0
  {
    var q, r := a / p, a % p;
    assert a == q * p + r && 0 <= r < p;
    if q >= 0 {
      MulNonneg(q, p - 1);
      assert q * p == q * (p - 1) + q;
    } else {
      MulNonneg(-(q + 1), p - 1);
      assert (q + 1) * p == (q + 1) * (p - 1) + (q + 1);
      assert (q + 1) * p == q * p + p;
    }
  }

  lemma BitAndLow(x: nat, k: nat, p: nat, mask: nat)
    requires p == Pow2(k) && mask == p - 1
    ensures BitAnd(x, mask) == x % p
  {
    BitAndLowMask(x, k);
    assert BitAnd(x, Pow2(k) - 1) == x % Pow2(k);
  }

  lemma AndLowMask(a: int32, k: nat, p: nat, mask: int32)
    requires 0 <= a && k <= 31 && p == Pow2(k) && mask == p - 1
    ensures And(a, mask) == a % p
  {
    Pow2Values();
    Pow2Monotone(k, 31);
    assert Pow2(32) == 2 * Pow2(31);
    SmallMod(a);
    SmallMod(mask);
    BitAndLowMask(a, k);
    BitAndBound(a, mask);
    assert And(a, mask) == ToInt32(BitAnd(a, mask));
  }

  lemma AndShiftedMask(a: int32, m: nat, j: nat, p: nat, q: nat, mask: int32)
    requires 0 <= a && j <= 31 && p == Pow2(j) && q == a / p && mask == m * p
    ensures And(a, mask) == p * BitAnd(q, m)
  {
    MulNonneg(m, p);
    AndNonneg(a, mask);
    BitAndShiftedMask(a, m, j, p, mask);
  }

  /** On non-negative int32 operands, `&` is the AND of the bit patterns. */
  lemma AndNonneg(a: int32, b: int32)
    requires 0 <= a && 0 <= b
    ensures And(a, b) == BitAnd(a, b)
  {
    SmallMod(a);
    SmallMod(b);
    BitAndBound(a, b);
  }

  lemma {:induction false} BitAndBound(x: nat, y: nat)
    ensures BitAnd(x, y) <= y
  {
    if x > 0 && y > 0 {
      BitAndBound(x / 2, y / 2);
    }
  }

  lemma {:induction false} Pow2Monotone(a: nat, b: nat)
    requires a <= b
    ensures Pow2(a) <= Pow2(b)
  {
    if a < b {
      Pow2Monotone(a, b - 1);
    }
  }

  /** `a | y` is `a + y` (reduced by ToInt32) when the pattern of a is a
      multiple of 2^k and y lies below 2^k. */
  lemma OrDisjoint(a: int32, c: nat, y: int32, k: nat, p: nat)
    requires k <= 32 && p == Pow2(k) && 0 <= y < p
    requires c * p < 0x1_0000_0000 && a % 0x1_0000_0000 == c * p
    ensures Or(a, y) == ToInt32(c * p + y)
  {
    Pow2Values();
    Pow2Monotone(k, 32);
    SmallMod(y);
    BitOrDisjoint(c, y, k);
    assert Or(a, y) == ToInt32(BitOr(c * p, y));
  }
}
