/**
 Bitwise operations on natural numbers, defined bit by bit, as Python's `&`,
 `|` and `~` act on non-negative integers, together with the facts the macro
 library relies on: masking with `2^k - 1` keeps the low `k` bits, the
 complement of a 32-bit word is `2^32 - 1 - x`, and dividing a word by `2^31`
 extracts its top bit.
 */
module Bits {

  function Pow2(n: nat): (r: nat)
    ensures r >= 1
  {
    if n == 0 then 1 else 2 * Pow2(n - 1)
  }

  /** Bit `i` of `x`. */
  function Bit(x: nat, i: nat): nat {
    (x / Pow2(i)) % 2
  }

  /** Python's `x & y` on non-negative integers. */
  function BitAnd(x: nat, y: nat): (r: nat)
    ensures r <= x && r <= y
    decreases x
  {
    if x == 0 || y == 0 then 0
    else 2 * BitAnd(x / 2, y / 2) + (if x % 2 == 1 && y % 2 == 1 then 1 else 0)
  }

  /** Python's `x | y` on non-negative integers. */
  function BitOr(x: nat, y: nat): nat
    decreases x + y
  {
    if x == 0 then y
    else if y == 0 then x
    else 2 * BitOr(x / 2, y / 2) + (if x % 2 == 1 || y % 2 == 1 then 1 else 0)
  }

  /** The low `n` bits of `x`, each one inverted. */
  function Flip(x: nat, n: nat): nat {
    if n == 0 then 0 else 2 * Flip(x / 2, n - 1) + (1 - x % 2)
  }

  lemma Pow2Values()
    ensures Pow2(16) == 0x1_0000
    ensures Pow2(31) == 0x8000_0000
    ensures Pow2(32) == 0x1_0000_0000
  {
    assert Pow2(4) == 16;
    assert Pow2(8) == 256 by {
      assert Pow2(8) == 16 * Pow2(4);
    }
    assert Pow2(16) == 0x1_0000 by {
      Pow2Add(8, 8);
    }
    assert Pow2(31) == 0x8000_0000 by {
      Pow2Add(16, 15);
      assert Pow2(15) == 0x8000 by {
        Pow2Add(8, 7);
      }
    }
  }

  lemma {:induction false} Pow2Add(m: nat, n: nat)
    ensures Pow2(m + n) == Pow2(m) * Pow2(n)
    decreases n
  {
    if n > 0 {
      Pow2Add(m, n - 1);
      assert Pow2(m + n) == 2 * Pow2(m + n - 1);
    }
  }

  /** Splitting the remainder by `2P` into its low bit and the remainder of the half by `P`. */
  lemma HalfMod(v: nat, p: nat)
    requires p >= 1
    ensures v % (2 * p) == 2 * ((v / 2) % p) + v % 2
  {
    var q := (v / 2) / p;
    var r := (v / 2) % p;
    assert v / 2 == q * p + r;
    assert v == 2 * (v / 2) + v % 2;
    assert v == q * (2 * p) + (2 * r + v % 2);
    assert 0 <= 2 * r + v % 2 < 2 * p;
    DivModUnique(v, 2 * p, q, 2 * r + v % 2);
  }

  lemma DivModUnique(v: int, d: int, q: int, r: int)
    requires d > 0 && 0 <= r < d && v == q * d + r
    ensures v / d == q && v % d == r
  {
    var q' := v / d;
    var r' := v % d;
    assert v == q' * d + r';
    if q' != q {
      var k := q' - q;
      assert k * d == q' * d - q * d;
      assert k * d == r - r';
      if k > 0 {
        MulAtLeast(k, d);
      } else {
        MulAtLeast(-k, d);
      }
    }
  }

  lemma MulAtLeast(k: int, d: int)
    requires k >= 1 && d > 0
    ensures k * d >= d
  {
  }

  /** Masking with `2^k - 1` keeps exactly the low `k` bits: `v & 0xffff == v % 2^16`. */
  lemma {:induction false} MaskIsMod(v: nat, k: nat)
    ensures BitAnd(v, Pow2(k) - 1) == v % Pow2(k)
    decreases k
  {
    if k == 0 {
    } else if v == 0 {
    } else {
      var p := Pow2(k - 1);
      var m := Pow2(k) - 1;
      assert m == 2 * (p - 1) + 1;
      assert m % 2 == 1 && m / 2 == p - 1;
      MaskIsMod(v / 2, k - 1);
      HalfMod(v, p);
    }
  }

  /** A bitwise or of two `n`-bit numbers is an `n`-bit number. */
  lemma {:induction false} BitOrBound(x: nat, y: nat, n: nat)
    requires x < Pow2(n) && y < Pow2(n)
    ensures BitOr(x, y) < Pow2(n)
    decreases x + y
  {
    if x != 0 && y != 0 {
      assert n >= 1;
      BitOrBound(x / 2, y / 2, n - 1);
    }
  }

  /** Inverting the low `n` bits of an `n`-bit number is subtracting it from `2^n - 1`. */
  lemma {:induction false} FlipIsComplement(x: nat, n: nat)
    requires x < Pow2(n)
    ensures Flip(x, n) == Pow2(n) - 1 - x
    decreases n
  {
    if n > 0 {
      FlipIsComplement(x / 2, n - 1);
    }
  }

  /** A 32-bit word divided by `2^31` is 0 or 1, and it is its top bit. */
  lemma TopBitQuotient(d: nat)
    requires d < 0x1_0000_0000
    ensures d / 0x8000_0000 == 0 || d / 0x8000_0000 == 1
    ensures d / 0x8000_0000 == Bit(d, 31)
    ensures Bit(d, 31) == 1 <==> d >= 0x8000_0000
  {
    Pow2Values();
  }

  /** `x & x == x`. */
  lemma {:induction false} BitAndSelf(x: nat)
    ensures BitAnd(x, x) == x
    decreases x
  {
    if x != 0 {
      BitAndSelf(x / 2);
    }
  }
}
