/**
 * Bitwise operators on unbounded integers, two's complement for negative ones, as Python's `&` and `|` are when one
 * operand is not negative. Everything is proved bit by bit.
 */
module Bits {
  import opened Bytes

  function Bit(x: int, i: nat): bool
    decreases i
  {
    if i == 0 then x % 2 == 1 else Bit(x / 2, i - 1)
  }

  /** `mask & x`. */
  function And(mask: nat, x: int): (r: nat)
    ensures r <= mask
    decreases mask
  {
    if mask == 0 then 0
    else 2 * And(mask / 2, x / 2) + if mask % 2 == 1 && x % 2 == 1 then 1 else 0
  }

  /** `x | y`. */
  function Or(x: int, y: nat): (r: int)
    ensures x >= 0 ==> r >= 0
    decreases y
  {
    if y == 0 then x
    else 2 * Or(x / 2, y / 2) + if x % 2 == 1 || y % 2 == 1 then 1 else 0
  }

  /** `(~mask) & 0xFFFFFFFF`. */
  function Inverse(mask: nat): nat { And(0xFFFFFFFF, -1 - mask) }

  lemma {:induction false} BitOfZero(i: nat)
    ensures !Bit(0, i)
  {
    if i > 0 { BitOfZero(i - 1); }
  }

  lemma Doubled(h: int, odd: bool)
    ensures var x := 2 * h + if odd then 1 else 0; x / 2 == h && (x % 2 == 1 <==> odd)
  {
  }

  lemma {:induction false} BitAnd(mask: nat, x: int, i: nat)
    ensures Bit(And(mask, x), i) <==> Bit(mask, i) && Bit(x, i)
    decreases i
  {
    if mask == 0 {
      BitOfZero(i);
    } else {
      Doubled(And(mask / 2, x / 2), mask % 2 == 1 && x % 2 == 1);
      if i > 0 {
        BitAnd(mask / 2, x / 2, i - 1);
      }
    }
  }

  lemma {:induction false} BitOr(x: int, y: nat, i: nat)
    ensures Bit(Or(x, y), i) <==> Bit(x, i) || Bit(y, i)
    decreases i
  {
    if y == 0 {
      BitOfZero(i);
    } else {
      Doubled(Or(x / 2, y / 2), x % 2 == 1 || y % 2 == 1);
      if i > 0 {
        BitOr(x / 2, y / 2, i - 1);
      }
    }
  }

  lemma {:induction false} BitComplement(x: int, i: nat)
    ensures Bit(-1 - x, i) <==> !Bit(x, i)
    decreases i
  {
    if i > 0 {
      assert (-1 - x) / 2 == -1 - x / 2;
      BitComplement(x / 2, i - 1);
    }
  }

  function Pow2(n: nat): (r: nat)
    ensures r > 0
  {
    if n == 0 then 1 else 2 * Pow2(n - 1)
  }

  lemma {:induction false} BitOfOnes(n: nat, i: nat)
    requires i < n
    ensures Bit(Pow2(n) - 1, i)
  {
    if i > 0 {
      assert (Pow2(n) - 1) / 2 == Pow2(n - 1) - 1;
      BitOfOnes(n - 1, i - 1);
    }
  }

  lemma {:induction false} BitAbove(x: nat, n: nat, i: nat)
    requires x < Pow2(n) && n <= i
    ensures !Bit(x, i)
  {
    if n == 0 {
      BitOfZero(i);
    } else {
      BitAbove(x / 2, n - 1, i - 1);
    }
  }

  /** Two numbers below 2^n with the same bits are the same. */
  lemma {:induction false} SameBits(x: nat, y: nat, n: nat)
    requires x < Pow2(n) && y < Pow2(n) && forall i: nat :: i < n ==> Bit(x, i) == Bit(y, i)
    ensures x == y
  {
    if n > 0 {
      forall i: nat | i < n - 1 ensures Bit(x / 2, i) == Bit(y / 2, i) {
        assert Bit(x, i + 1) == Bit(y, i + 1);
      }
      SameBits(x / 2, y / 2, n - 1);
      assert Bit(x, 0) == Bit(y, 0);
    }
  }

  lemma BytePower()
    ensures Pow2(8) == 0x100 && Pow2(32) == 0x1_0000_0000
  {
    assert Pow2(4) == 16;
    assert Pow2(12) == 4096;
    assert Pow2(16) == 0x1_0000;
    assert Pow2(20) == 0x10_0000;
    assert Pow2(24) == 0x100_0000;
    assert Pow2(28) == 0x1000_0000;
  }

  lemma {:induction false} BitOfMod(x: int, n: nat, i: nat)
    requires i < n
    ensures Bit(x % Pow2(n), i) <==> Bit(x, i)
    decreases n
  {
    ModHalf(x, n);
    if i > 0 {
      BitOfMod(x / 2, n - 1, i - 1);
    }
  }

  lemma ModHalf(x: int, n: nat)
    requires n > 0
    ensures (x % Pow2(n)) / 2 == (x / 2) % Pow2(n - 1) && (x % Pow2(n)) % 2 == x % 2
  {
    var p := Pow2(n - 1);
    var q, r := x / 2 / p, x / 2 % p;
    assert x == (2 * p) * q + (2 * r + x % 2);
    assert 0 <= 2 * r + x % 2 < 2 * p;
    DivUnique(x, 2 * p, q, 2 * r + x % 2);
  }

  lemma {:induction false} MultipleIsLarge(d: nat, k: nat)
    requires k > 0
    ensures d * k >= d
  {
    if k > 1 {
      MultipleIsLarge(d, k - 1);
      assert d * k == d * (k - 1) + d;
    }
  }

  lemma DivUnique(x: int, d: int, q: int, r: int)
    requires d > 0 && x == d * q + r && 0 <= r < d
    ensures x / d == q && x % d == r
  {
    var k := x / d - q;
    assert x == d * (x / d) + x % d;
    assert d * k == d * (x / d) - d * q;
    if k > 0 {
      MultipleIsLarge(d, k);
    }
  }

  lemma BitOfByte(x: int, i: nat)
    requires i < 8
    ensures Bit(x % 0x100, i) <==> Bit(x, i)
  {
    BytePower();
    BitOfMod(x, 8, i);
  }

  lemma SameByte(x: byte, y: byte)
    requires forall i: nat :: i < 8 ==> Bit(x, i) == Bit(y, i)
    ensures x == y
  {
    BytePower();
    SameBits(x, y, 8);
  }

  /** `0xFF & x` keeps the low byte. */
  lemma AndByte(x: int)
    ensures And(0xFF, x) == x % 0x100
  {
    BytePower();
    forall i: nat | i < 8 ensures Bit(And(0xFF, x), i) == Bit(x % 0x100, i) {
      BitAnd(0xFF, x, i);
      BitOfOnes(8, i);
      BitOfByte(x, i);
    }
    SameByte(And(0xFF, x), x % 0x100);
  }

  /** A mask of the low `k` bits keeps the value modulo 2^k. */
  lemma {:induction false} AndOnes(k: nat, x: int)
    ensures And(Pow2(k) - 1, x) == x % Pow2(k)
    decreases k
  {
    if k > 0 {
      ModHalf(x, k);
      assert (Pow2(k) - 1) / 2 == Pow2(k - 1) - 1 && (Pow2(k) - 1) % 2 == 1;
      AndOnes(k - 1, x / 2);
    }
  }

  lemma {:induction false} OrOfZero(y: nat)
    ensures Or(0, y) == y
    decreases y
  {
    if y > 0 {
      OrOfZero(y / 2);
    }
  }

  lemma BitInverse(mask: nat, i: nat)
    requires i < 32
    ensures Bit(Inverse(mask), i) <==> !Bit(mask, i)
  {
    hide And, Bit;
    BytePower();
    BitAnd(0xFFFFFFFF, -1 - mask, i);
    BitOfOnes(32, i);
    BitComplement(mask, i);
  }
}
