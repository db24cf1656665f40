/** Unsigned words as naturals: the bitwise operators of the source and what they do to single bits. */
module Bits {
  function Pow2(n: nat): (r: nat)
    ensures r >= 1
  {
    if n == 0 then 1 else 2 * Pow2(n - 1)
  }

  predicate Bit(x: nat, i: nat)
    decreases i
  {
    if i == 0 then x % 2 == 1 else Bit(x / 2, i - 1)
  }

  function And(x: nat, y: nat): nat {
    if x == 0 || y == 0 then 0
    else 2 * And(x / 2, y / 2) + (if x % 2 == 1 && y % 2 == 1 then 1 else 0)
  }

  function Or(x: nat, y: nat): nat {
    if x == 0 then y
    else if y == 0 then x
    else 2 * Or(x / 2, y / 2) + (if x % 2 == 1 || y % 2 == 1 then 1 else 0)
  }

  function Shl(x: nat, k: nat): nat {
    x * Pow2(k)
  }

  function Shr(x: nat, k: nat): nat
    decreases k
  {
    if k == 0 then x else Shr(x / 2, k - 1)
  }

  /** Bitwise complement in a word of n bits. */
  function Not(x: nat, n: nat): nat
    requires x < Pow2(n)
  {
    Pow2(n) - 1 - x
  }

  /** Position of the most significant set bit: 63 - clz for a 64-bit word. */
  function HighBit(x: nat): nat
    requires x > 0
  {
    if x == 1 then 0 else 1 + HighBit(x / 2)
  }

  /** Position of the least significant set bit: ctz. */
  function LowBit(x: nat): nat
    requires x > 0
  {
    if x % 2 == 1 then 0 else 1 + LowBit(x / 2)
  }

  // ---- single bits of the operators ----

  lemma BitOfZero(i: nat)
    ensures !Bit(0, i)
  {
  }

  lemma {:induction false} BitAnd(x: nat, y: nat, i: nat)
    ensures Bit(And(x, y), i) <==> Bit(x, i) && Bit(y, i)
    decreases i
  {
    BitOfZero(i);
    if i > 0 && x != 0 && y != 0 {
      BitAnd(x / 2, y / 2, i - 1);
    }
  }

  lemma {:induction false} BitOr(x: nat, y: nat, i: nat)
    ensures Bit(Or(x, y), i) <==> Bit(x, i) || Bit(y, i)
    decreases i
  {
    BitOfZero(i);
    if i > 0 && x != 0 && y != 0 {
      BitOr(x / 2, y / 2, i - 1);
    }
  }

  lemma {:induction false} BitShl(x: nat, k: nat, i: nat)
    ensures Bit(Shl(x, k), i) <==> i >= k && Bit(x, i - k)
    decreases k
  {
    if k > 0 {
      assert Shl(x, k) == 2 * Shl(x, k - 1) by {
        assert x * (2 * Pow2(k - 1)) == 2 * (x * Pow2(k - 1));
      }
      if i > 0 {
        BitShl(x, k - 1, i - 1);
      }
    }
  }

  lemma {:induction false} BitShr(x: nat, k: nat, i: nat)
    ensures Bit(Shr(x, k), i) <==> Bit(x, i + k)
    decreases k
  {
    if k > 0 {
      BitShr(x / 2, k - 1, i);
    }
  }

  lemma {:induction false} BitNot(x: nat, n: nat, i: nat)
    requires x < Pow2(n)
    ensures Bit(Not(x, n), i) <==> i < n && !Bit(x, i)
    decreases n
  {
    if n == 0 {
      BitOfZero(i);
    } else {
      assert Not(x, n) / 2 == Not(x / 2, n - 1);
      if i > 0 {
        BitNot(x / 2, n - 1, i - 1);
      }
    }
  }

  lemma {:induction false} BitMod(x: nat, n: nat, i: nat)
    ensures Bit(x % Pow2(n), i) <==> i < n && Bit(x, i)
    decreases n
  {
    if n == 0 {
      BitOfZero(i);
    } else {
      ModHalf(x, n);
      if i > 0 {
        BitMod(x / 2, n - 1, i - 1);
      }
    }
  }

  lemma ModHalf(x: nat, n: nat)
    requires n > 0
    ensures x % Pow2(n) == 2 * (x / 2 % Pow2(n - 1)) + x % 2
  {
    var p, h := Pow2(n - 1), x / 2;
    DivMod(h, p);
    DivModUnique(x, 2 * p, h / p, 2 * (h % p) + x % 2);
  }

  lemma DivMod(x: nat, d: nat)
    requires d > 0
    ensures x == x / d * d + x % d && 0 <= x % d < d
  {
  }

  lemma DivModUnique(x: nat, d: nat, q: nat, r: nat)
    requires d > 0 && r < d && x == q * d + r
    ensures x / d == q && x % d == r
  {
    DivMod(x, d);
    var e := x / d - q;
    assert e * d == r - x % d;
    assert e >= 1 ==> e * d >= d;
    assert e <= -1 ==> e * d + d <= 0;
  }

  lemma {:induction false} AndMask(x: nat, n: nat)
    ensures And(x, Pow2(n) - 1) == x % Pow2(n)
  {
    forall i: nat
      ensures Bit(And(x, Pow2(n) - 1), i) <==> Bit(x % Pow2(n), i)
    {
      BitAnd(x, Pow2(n) - 1, i);
      OnesBits(n, i);
      BitMod(x, n, i);
    }
    BitsExtensional(And(x, Pow2(n) - 1), x % Pow2(n));
  }

  lemma {:induction false} OrDouble(x: nat, y: nat)
    ensures Or(2 * x, y) == 2 * Or(x, y / 2) + y % 2
  {
  }

  lemma ShlStep(x: nat, k: nat)
    ensures Shl(x, 0) == x
    ensures k > 0 ==> Shl(x, k) == 2 * Shl(x, k - 1)
  {
    if k > 0 {
      MulDouble(x, Pow2(k - 1));
    }
  }

  lemma MulDouble(x: nat, p: nat)
    ensures x * (2 * p) == 2 * (x * p)
  {
  }

  lemma {:induction false} OrDisjoint(x: nat, k: nat, y: nat)
    requires y < Pow2(k)
    ensures Or(Shl(x, k), y) == Shl(x, k) + y
    decreases k
  {
    hide Shl;
    ShlStep(x, k);
    if k > 0 {
      hide Or;
      OrDisjoint(x, k - 1, y / 2);
      OrDouble(Shl(x, k - 1), y);
    }
  }

  // ---- bounds, extensionality, extreme bits ----

  lemma {:induction false} BitsBelow(x: nat, n: nat, i: nat)
    requires x < Pow2(n) && Bit(x, i)
    ensures i < n
    decreases i
  {
    if n == 0 {
      BitOfZero(i);
      assert false;
    } else if i > 0 {
      BitsBelow(x / 2, n - 1, i - 1);
    }
  }

  /** A word is determined by its bits. */
  lemma {:induction false} BitsExtensional(x: nat, y: nat)
    requires forall i: nat :: Bit(x, i) <==> Bit(y, i)
    ensures x == y
    decreases x + y
  {
    if x != 0 || y != 0 {
      assert Bit(x, 0) <==> Bit(y, 0);
      forall i: nat
        ensures Bit(x / 2, i) <==> Bit(y / 2, i)
      {
        assert Bit(x, i + 1) <==> Bit(y, i + 1);
      }
      BitsExtensional(x / 2, y / 2);
    }
  }

  lemma {:induction false} Pow2Monotone(a: nat, b: nat)
    requires a <= b
    ensures Pow2(a) <= Pow2(b)
    decreases b
  {
    if a < b {
      Pow2Monotone(a, b - 1);
    }
  }

  lemma {:induction false} HighBitBound(x: nat)
    requires x > 0
    ensures Pow2(HighBit(x)) <= x < Pow2(HighBit(x) + 1)
  {
    if x > 1 {
      HighBitBound(x / 2);
    }
  }

  lemma {:induction false} HighBitIsHighest(x: nat)
    requires x > 0
    ensures Bit(x, HighBit(x))
    ensures forall i: nat :: Bit(x, i) ==> i <= HighBit(x)
  {
    if x > 1 {
      HighBitIsHighest(x / 2);
    }
    HighBitBound(x);
    forall i: nat | Bit(x, i)
      ensures i <= HighBit(x)
    {
      BitsBelow(x, HighBit(x) + 1, i);
    }
  }

  lemma {:induction false} LowBitIsLowest(x: nat)
    requires x > 0
    ensures Bit(x, LowBit(x))
    ensures forall i: nat :: Bit(x, i) ==> i >= LowBit(x)
  {
    if x % 2 == 0 {
      LowBitIsLowest(x / 2);
      forall i: nat | Bit(x, i)
        ensures i >= LowBit(x)
      {
        assert i > 0 && Bit(x / 2, i - 1);
      }
    }
  }

  lemma {:induction false} OnesBits(n: nat, i: nat)
    ensures Bit(Pow2(n) - 1, i) <==> i < n
    decreases n
  {
    if n == 0 {
      BitOfZero(i);
    } else if i > 0 {
      assert (Pow2(n) - 1) / 2 == Pow2(n - 1) - 1;
      OnesBits(n - 1, i - 1);
    }
  }

  lemma {:induction false} OneBit(n: nat, i: nat)
    ensures Bit(Shl(1, n), i) <==> i == n
  {
    BitShl(1, n, i);
    if i > n {
      BitOfZero(i - n - 1);
    }
  }

  /** A right shift divides, rounding down. */
  lemma {:induction false} ShrDivides(x: nat, k: nat)
    ensures Shr(x, k) == x / Pow2(k)
    decreases k
  {
    if k > 0 {
      ShrDivides(x / 2, k - 1);
      DivTwice(x, Pow2(k - 1));
    } else {
      DivModUnique(x, 1, x, 0);
    }
  }

  lemma DivTwice(x: nat, p: nat)
    requires p > 0
    ensures x / 2 / p == x / (2 * p)
  {
    var h := x / 2;
    var q, r := h / p, h % p;
    DivMod(h, p);
    MulDouble(q, p);
    DivModUnique(x, 2 * p, q, 2 * r + x % 2);
  }

  lemma {:induction false} OrBound(x: nat, y: nat, n: nat)
    requires x < Pow2(n) && y < Pow2(n)
    ensures Or(x, y) < Pow2(n)
    decreases n
  {
    if n > 0 && x > 0 && y > 0 {
      OrBound(x / 2, y / 2, n - 1);
    }
  }

  lemma {:induction false} AndBound(x: nat, y: nat)
    ensures And(x, y) <= x
  {
    if x > 0 && y > 0 {
      AndBound(x / 2, y / 2);
    }
  }

  lemma Pow2Values()
    ensures Pow2(5) == 32 && Pow2(6) == 64 && Pow2(31) == 0x8000_0000
    ensures Pow2(32) == 0x1_0000_0000 && Pow2(64) == 0x1_0000_0000_0000_0000
  {
    assert Pow2(4) == 16;
    assert Pow2(5) == 2 * Pow2(4) && Pow2(6) == 2 * Pow2(5);
    Pow2Add(4, 4);
    Pow2Add(8, 8);
    Pow2Add(16, 16);
    Pow2Add(32, 32);
    assert Pow2(32) == 2 * Pow2(31);
  }

  lemma {:induction false} Pow2Add(a: nat, b: nat)
    ensures Pow2(a + b) == Pow2(a) * Pow2(b)
    decreases b
  {
    if b > 0 {
      Pow2Add(a, b - 1);
      assert Pow2(a + b) == 2 * Pow2(a + (b - 1));
      assert Pow2(a) * (2 * Pow2(b - 1)) == 2 * (Pow2(a) * Pow2(b - 1));
    }
  }
}
