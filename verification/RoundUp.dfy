/** The bit-smearing round_up_pow2 that sizes the id table. */
module RoundUp {
  import opened Types
  import opened Bits

  /** Bits h-n+1..h of v are set and none above h: a run of n ones from the top. */
  ghost predicate TopRun(v: nat, h: nat, n: nat) {
    && (forall i: nat :: h - n < i <= h ==> Bit(v, i))
    && (forall i: nat :: Bit(v, i) ==> i <= h)
  }

  /** `v | v >> n` */
  function Smear(v: nat, n: nat): nat {
    Or(v, Shr(v, n))
  }

  lemma BitSmear(v: nat, n: nat, i: nat)
    ensures Bit(Smear(v, n), i) <==> Bit(v, i) || Bit(v, i + n)
  {
    BitOr(v, Shr(v, n), i);
    BitShr(v, n, i);
  }

  /** One smearing step doubles the run. */
  lemma SmearDoubles(v: nat, h: nat, n: nat)
    requires TopRun(v, h, n)
    ensures TopRun(Smear(v, n), h, 2 * n)
  {
    forall i: nat
      ensures h - 2 * n < i <= h ==> Bit(Smear(v, n), i)
      ensures Bit(Smear(v, n), i) ==> i <= h
    {
      BitSmear(v, n, i);
      assert Bit(v, i) ==> i <= h;
      assert Bit(v, i + n) ==> i + n <= h;
    }
  }

  lemma FullRun(v: nat, h: nat, n: nat)
    requires TopRun(v, h, n) && n > h
    ensures v == Pow2(h + 1) - 1
  {
    forall i: nat
      ensures Bit(v, i) <==> Bit(Pow2(h + 1) - 1, i)
    {
      OnesBits(h + 1, i);
    }
    BitsExtensional(v, Pow2(h + 1) - 1);
  }

  /** The five smearing steps of the source. */
  function SmearAll(v: nat): nat {
    Smear(Smear(Smear(Smear(Smear(v, 1), 2), 4), 8), 16)
  }

  /** Smearing fills every bit below the highest one; the word stays within 32 bits. */
  lemma SmearFills(v: uint32)
    requires v > 0
    ensures SmearAll(v) == Pow2(HighBit(v) + 1) - 1 && HighBit(v) < 32
  {
    var h := HighBit(v);
    HighBitIsHighest(v);
    Pow2Values();
    BitsBelow(v, 32, h);
    assert TopRun(v, h, 1);
    SmearDoubles(v, h, 1);
    SmearDoubles(Smear(v, 1), h, 2);
    SmearDoubles(Smear(Smear(v, 1), 2), h, 4);
    SmearDoubles(Smear(Smear(Smear(v, 1), 2), 4), h, 8);
    SmearDoubles(Smear(Smear(Smear(Smear(v, 1), 2), 4), 8), h, 16);
    FullRun(SmearAll(v), h, 32);
  }

  ghost predicate IsPow2(n: nat) {
    exists k: nat :: n == Pow2(k)
  }

  ghost predicate LeastPow2From(v: nat, r: nat) {
    && IsPow2(r)
    && v <= r
    && forall k: nat :: v <= Pow2(k) ==> r <= Pow2(k)
  }

  /** The least power of two at or above v0 whenever that fits 32 bits; beyond it the sum wraps to 0. */
  method RoundUpPow2(v0: uint32) returns (r: uint32)
    ensures if v0 <= 0x8000_0000 then LeastPow2From(v0, r) else r == 0
  {
    hide Smear, LeastPow2From, Pow2;
    RoundUpSpec(v0);
    if v0 == 0 {
      return 1;
    }
    var v: nat := v0 - 1;
    v := Smear(v, 1);
    v := Smear(v, 2);
    v := Smear(v, 4);
    v := Smear(v, 8);
    v := Smear(v, 16);
    r := Wrap32(v + 1);
    assert v == SmearAll(v0 - 1) && (v0 <= 0x8000_0000 ==> r == v + 1);
  }

  lemma RoundUpSpec(v0: uint32)
    ensures v0 == 0 ==> LeastPow2From(v0, 1)
    ensures v0 > 0 ==> LeastPow2From(v0, SmearAll(v0 - 1) + 1)
    ensures 0 < v0 <= 0x8000_0000 ==> SmearAll(v0 - 1) + 1 <= 0x8000_0000
    ensures v0 > 0x8000_0000 ==> SmearAll(v0 - 1) + 1 == 0x1_0000_0000
  {
    if v0 <= 1 {
      assert SmearAll(0) == 0 && Pow2(0) == 1;
    } else {
      SmearFills(v0 - 1);
      LeastPow2(v0, HighBit(v0 - 1));
    }
  }

  lemma LeastPow2(v0: uint32, h: nat)
    requires v0 >= 2 && h == HighBit(v0 - 1) && h < 32
    ensures LeastPow2From(v0, Pow2(h + 1))
    ensures if v0 <= 0x8000_0000 then Pow2(h + 1) <= 0x8000_0000 else Pow2(h + 1) == 0x1_0000_0000
  {
    HighBitBound(v0 - 1);
    Pow2Bound(h);
    forall k: nat | v0 <= Pow2(k)
      ensures Pow2(h + 1) <= Pow2(k)
    {
      Pow2Monotone(if k <= h then k else h + 1, if k <= h then h else k);
    }
  }

  lemma Pow2Bound(h: nat)
    requires h < 32
    ensures Pow2(h + 1) <= 0x1_0000_0000
    ensures if h == 31 then Pow2(h) == 0x8000_0000 else Pow2(h + 1) <= 0x8000_0000
  {
    Pow2Values();
    Pow2Monotone(h + 1, if h == 31 then 32 else 31);
  }
}
