/** The per-side level bitmap: one bit per price level in a vector of 64-bit words. */
module Bitmap {
  import opened Types
  import opened Bits

  type Words = seq<uint64>

  /** Bit i of the whole vector. */
  predicate IsSet(bm: Words, i: nat) {
    i / 64 < |bm| && Bit(bm[i / 64], i % 64)
  }

  /** `bm[i >> 6] |= 1ull << (i & 63)` */
  function SetBit(bm: Words, i: nat): (r: Words)
    requires i < 64 * |bm|
    ensures |r| == |bm|
    ensures forall j: nat :: IsSet(r, j) <==> j == i || IsSet(bm, j)
  {
    WordAndBit(i);
    Pow2Values();
    var w, b := Shr(i, 6), And(i, 63);
    OneBitBound(b);
    OrBound(bm[w], Shl(1, b), 64);
    var r := bm[w := Or(bm[w], Shl(1, b))];
    assert forall j: nat :: IsSet(r, j) <==> j == i || IsSet(bm, j) by {
      forall j: nat
        ensures IsSet(r, j) <==> j == i || IsSet(bm, j)
      {
        if j / 64 == w {
          BitOr(bm[w], Shl(1, b), j % 64);
          OneBit(b, j % 64);
        }
      }
    }
    r
  }

  /** `bm[i >> 6] &= ~(1ull << (i & 63))` */
  function ClearBit(bm: Words, i: nat): (r: Words)
    requires i < 64 * |bm|
    ensures |r| == |bm|
    ensures forall j: nat :: IsSet(r, j) <==> j != i && IsSet(bm, j)
  {
    WordAndBit(i);
    Pow2Values();
    var w, b := Shr(i, 6), And(i, 63);
    OneBitBound(b);
    AndBound(bm[w], Not(Shl(1, b), 64));
    var r := bm[w := And(bm[w], Not(Shl(1, b), 64))];
    assert forall j: nat :: IsSet(r, j) <==> j != i && IsSet(bm, j) by {
      forall j: nat
        ensures IsSet(r, j) <==> j != i && IsSet(bm, j)
      {
        if j / 64 == w {
          BitAnd(bm[w], Not(Shl(1, b), 64), j % 64);
          BitNot(Shl(1, b), 64, j % 64);
          OneBit(b, j % 64);
        }
      }
    }
    r
  }

  lemma WordAndBit(i: nat)
    ensures Shr(i, 6) == i / 64 && And(i, 63) == i % 64
  {
    Pow2Values();
    ShrDivides(i, 6);
    AndMask(i, 6);
  }

  lemma OneBitBound(b: nat)
    requires b < 64
    ensures Shl(1, b) < Pow2(64)
  {
    Pow2Monotone(b + 1, 64);
  }

  lemma UpToBits(w: uint64, b: nat, i: nat)
    requires b < 64
    ensures Bit(And(w, Shr(Pow2(64) - 1, 63 - b)), i) <==> Bit(w, i) && i <= b
  {
    hide And, Shr, Bit, Pow2;
    BitAnd(w, Shr(Pow2(64) - 1, 63 - b), i);
    BitShr(Pow2(64) - 1, 63 - b, i);
    OnesBits(64, i + (63 - b));
  }

  /** `w & (~uint64_t{0} >> (63 - b))`: the bits of w up to b. */
  function UpTo(w: uint64, b: nat): (r: uint64)
    requires b < 64
    ensures forall i: nat :: Bit(r, i) <==> Bit(w, i) && i <= b
  {
    var mask := Shr(Pow2(64) - 1, 63 - b);
    assert forall i: nat :: Bit(And(w, mask), i) <==> Bit(w, i) && i <= b by {
      forall i: nat
        ensures Bit(And(w, mask), i) <==> Bit(w, i) && i <= b
      {
        UpToBits(w, b, i);
      }
    }
    AndBound(w, mask);
    And(w, mask)
  }

  /** `w & (~uint64_t{0} << b)`, the shift cut to 64 bits: the bits of w from b on. */
  function From(w: uint64, b: nat): (r: uint64)
    requires b < 64
    ensures forall i: nat :: Bit(r, i) <==> Bit(w, i) && b <= i
  {
    var mask := Shl(Pow2(64) - 1, b) % Pow2(64);
    assert forall i: nat :: Bit(And(w, mask), i) <==> Bit(w, i) && b <= i by {
      forall i: nat
        ensures Bit(And(w, mask), i) <==> Bit(w, i) && b <= i
      {
        WordBits(w, i);
        BitAnd(w, mask, i);
        BitMod(Shl(Pow2(64) - 1, b), 64, i);
        BitShl(Pow2(64) - 1, b, i);
        if i >= b {
          OnesBits(64, i - b);
        }
      }
    }
    AndBound(w, mask);
    And(w, mask)
  }

  lemma WordBits(w: uint64, i: nat)
    ensures Bit(w, i) ==> i < 64
  {
    Pow2Values();
    if Bit(w, i) {
      BitsBelow(w, 64, i);
    }
  }

  /** Joining word and bit number back together with `|`. */
  lemma JoinIndex(word: nat, b: nat)
    requires b < 64
    ensures Or(Shl(word, 6), b) == 64 * word + b
  {
    Pow2Values();
    OrDisjoint(word, 6, b);
  }

  lemma Split(word: nat, i: nat)
    requires i < 64
    ensures (64 * word + i) / 64 == word && (64 * word + i) % 64 == i
  {
  }

  ghost predicate NoneIn(bm: Words, lo: int, hi: int) {
    forall j: nat :: lo <= j < hi ==> !IsSet(bm, j)
  }

  lemma HighInWord(bm: Words, word: nat, bits: uint64, b: nat) returns (r: nat)
    requires word < |bm| && b < 64 && bits != 0
    requires forall i: nat :: Bit(bits, i) <==> Bit(bm[word], i) && i <= b
    ensures r == Or(Shl(word, 6), HighBit(bits)) && 64 * word <= r <= 64 * word + b
    ensures IsSet(bm, r) && NoneIn(bm, r + 1, 64 * word + b + 1)
  {
    HighBitIsHighest(bits);
    JoinIndex(word, HighBit(bits));
    r := 64 * word + HighBit(bits);
    Split(word, HighBit(bits));
    forall j: nat | r + 1 <= j < 64 * word + b + 1
      ensures !IsSet(bm, j)
    {
      Split(word, j - 64 * word);
      assert !Bit(bits, j - 64 * word);
    }
  }

  lemma LowInWord(bm: Words, word: nat, bits: uint64, b: nat) returns (r: nat)
    requires word < |bm| && b < 64 && bits != 0
    requires forall i: nat :: Bit(bits, i) <==> Bit(bm[word], i) && b <= i
    ensures r == Or(Shl(word, 6), LowBit(bits)) && 64 * word + b <= r < 64 * word + 64
    ensures IsSet(bm, r) && NoneIn(bm, 64 * word + b, r)
  {
    LowBitIsLowest(bits);
    WordBits(bits, LowBit(bits));
    JoinIndex(word, LowBit(bits));
    r := 64 * word + LowBit(bits);
    Split(word, LowBit(bits));
    forall j: nat | 64 * word + b <= j < r
      ensures !IsSet(bm, j)
    {
      Split(word, j - 64 * word);
      assert !Bit(bits, j - 64 * word);
    }
  }

  lemma NoneInWord(bm: Words, word: nat, lo: nat, hi: nat)
    requires word < |bm| && lo <= hi < 64
    requires forall i: nat :: lo <= i <= hi ==> !Bit(bm[word], i)
    ensures NoneIn(bm, 64 * word + lo, 64 * word + hi + 1)
  {
    forall j: nat | 64 * word + lo <= j < 64 * word + hi + 1
      ensures !IsSet(bm, j)
    {
      Split(word, j - 64 * word);
    }
  }

  /** The greatest set bit at or below `start`, or NULL_IDX when there is none. */
  method FindPrevSetBit(bm: Words, start: uint32) returns (r: uint32)
    requires start < 64 * |bm|
    ensures r != NULL_IDX ==> r <= start && IsSet(bm, r) && NoneIn(bm, r + 1, start + 1)
    ensures r == NULL_IDX ==> start == NULL_IDX || NoneIn(bm, 0, start + 1)
  {
    WordAndBit(start);
    var word: nat := Shr(start, 6);
    var b: nat := And(start, 63);
    var bits: uint64 := UpTo(bm[word], b);
    while true
      invariant word < |bm| && b < 64 && 64 * word + b <= start
      invariant forall i: nat :: Bit(bits, i) <==> Bit(bm[word], i) && i <= b
      invariant NoneIn(bm, 64 * word + b + 1, start + 1)
      decreases word
    {
      if bits != 0 {
        ghost var top := HighInWord(bm, word, bits, b);
        r := Or(Shl(word, 6), HighBit(bits));
        return;
      }
      forall i: nat | i <= b
        ensures !Bit(bm[word], i)
      {
        BitOfZero(i);
      }
      NoneInWord(bm, word, 0, b);
      if word == 0 {
        break;
      }
      word, b := word - 1, 63;
      bits := bm[word];
      forall i: nat
        ensures Bit(bits, i) ==> i <= 63
      {
        WordBits(bits, i);
      }
    }
    r := NULL_IDX;
  }

  /** The least set bit at or above `start`, or NULL_IDX when there is none. */
  method FindNextSetBit(bm: Words, start: uint32) returns (r: uint32)
    requires start < 64 * |bm| <= TWO_32
    ensures r != NULL_IDX ==> r >= start && IsSet(bm, r) && NoneIn(bm, start, r)
    ensures r == NULL_IDX ==> NoneIn(bm, start, NULL_IDX)
  {
    WordAndBit(start);
    var word: nat := Shr(start, 6);
    var b: nat := And(start, 63);
    var bits: uint64 := From(bm[word], b);
    var lastWord := |bm| - 1;
    while true
      invariant word < |bm| && b < 64 && start <= 64 * word + b
      invariant forall i: nat :: Bit(bits, i) <==> Bit(bm[word], i) && b <= i
      invariant NoneIn(bm, start, 64 * word + b)
      decreases |bm| - word
    {
      if bits != 0 {
        ghost var low := LowInWord(bm, word, bits, b);
        r := Or(Shl(word, 6), LowBit(bits));
        return;
      }
      forall i: nat | b <= i
        ensures !Bit(bm[word], i)
      {
        BitOfZero(i);
      }
      NoneInWord(bm, word, b, 63);
      if word == lastWord {
        break;
      }
      word, b := word + 1, 0;
      bits := bm[word];
    }
    r := NULL_IDX;
  }
}
