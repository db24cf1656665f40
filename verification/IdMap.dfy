/** The open-addressed table from order ids to pool slots. */
module IdTable {
  import opened Types
  import opened Bits
  import opened RoundUp
  import opened ProbeTable
  import Backshift

  lemma MaskIsMod(cap: nat, x: nat)
    requires IsPow2(cap)
    ensures cap > 0 && And(x, cap - 1) == x % cap
  {
    var k: nat :| cap == Pow2(k);
    AndMask(x, k);
  }

  /** `(slot + 1) & mask` */
  lemma MaskedNext(cap: nat, slot: nat)
    requires IsPow2(cap) && slot < cap
    ensures And(slot + 1, cap - 1) == Next(cap, slot)
  {
    MaskIsMod(cap, slot + 1);
    DivModUnique(slot + 1, cap, if slot + 1 == cap then 1 else 0, Next(cap, slot));
  }

  lemma DividesWord(cap: nat) returns (q: nat)
    requires IsPow2(cap) && cap <= 0x1_0000_0000
    ensures q >= 1 && q * cap == 0x1_0000_0000
  {
    var k: nat :| cap == Pow2(k);
    Pow2Values();
    if k > 32 {
      Pow2Monotone(33, k);
    }
    Pow2Add(32 - k, k);
    q := Pow2(32 - k);
  }

  /** `(b - a) & mask`, where the subtraction wraps at 32 bits. */
  lemma MaskedDist(cap: nat, a: nat, b: nat)
    requires IsPow2(cap) && a < cap && b < cap && cap <= 0x1_0000_0000
    ensures And(Wrap32(b - a), cap - 1) == Dist(cap, a, b)
  {
    var w := if a <= b then b - a else b - a + 0x1_0000_0000;
    assert Wrap32(b - a) == w;
    MaskIsMod(cap, w);
    var q := DividesWord(cap);
    assert (q - 1) * cap == q * cap - cap;
    DivModUnique(w, cap, if a <= b then 0 else q - 1, Dist(cap, a, b));
  }

  lemma TableSize(size: uint32, c: nat)
    requires size <= 0x8000_0000 && LeastPow2From(size, c)
    ensures 0 < c <= 0x8000_0000
  {
    Pow2Values();
    assert size <= Pow2(31);
    var k: nat :| c == Pow2(k);
  }

  class IdMap {
    const cap: nat
    const mask: nat
    const hash: Hash
    var entries: Table
    ghost var M: map<uint64, uint32>

    ghost predicate Shaped()
      reads this
    {
      |entries| == cap == mask + 1 && cap <= 0x8000_0000 && IsPow2(cap)
    }

    ghost predicate Valid()
      reads this
    {
      && Shaped()
      && WellProbed(hash, entries, M)
    }

    constructor (size: uint32, hash: Hash)
      requires size <= 0x8000_0000
      ensures Valid() && M == map[] && this.hash == hash
      ensures LeastPow2From(size, cap)
    {
      var c := RoundUpPow2(size);
      TableSize(size, c);
      this.cap, this.mask, this.hash := c, c - 1, hash;
      entries := seq(c, _ => Entry(0, EMPTY));
      M := map[];
      new;
      assert !Occ(entries, 0);
    }

    method HomeSlot(key: uint64) returns (slot: nat)
      requires Valid()
      ensures slot < cap && slot == Home(hash, cap, key)
    {
      MaskIsMod(cap, hash(key));
      RemIsMod(hash(key), cap);
      slot := And(hash(key), mask);
    }

    method NextSlot(slot: nat) returns (next: nat)
      requires Shaped() && slot < cap
      ensures next == Next(cap, slot)
    {
      MaskedNext(cap, slot);
      next := And(slot + 1, mask);
    }

    /** The probing loop that insert and erase share. */
    method FindSlot(key: uint64) returns (slot: nat)
      requires Valid()
      ensures slot < cap && slot == Probe(hash, entries, key)
    {
      slot := HomeSlot(key);
      while entries[slot].val != EMPTY && entries[slot].key != key
        invariant slot < cap && Scanned(hash, entries, key, slot)
        decreases cap - Dist(cap, Home(hash, cap, key), slot)
      {
        ScanStep(hash, entries, key, slot);
        slot := NextSlot(slot);
      }
      ProbeScan(hash, entries, key, slot);
    }

    /** Finite-map insertion; a slot must stay empty so that probing keeps ending. */
    method Insert(key: uint64, val: uint32)
      requires Valid() && val != EMPTY
      requires key in M || |M| + 1 < cap
      modifies this
      ensures Valid() && M == old(M)[key := val]
      ensures entries == Inserted(hash, old(entries), key, val)
    {
      var slot := FindSlot(key);
      InsertKeeps(hash, entries, M, key, val);
      entries := entries[slot := Entry(key, val)];
      M := M[key := val];
    }

    method Find(key: uint64) returns (r: uint32)
      requires Valid()
      ensures r == if key in M then M[key] else EMPTY
    {
      var slot: nat := HomeSlot(key);
      while entries[slot].val != EMPTY
        invariant slot < cap && Scanned(hash, entries, key, slot)
        decreases cap - Dist(cap, Home(hash, cap, key), slot)
      {
        if entries[slot].key == key {
          return entries[slot].val;
        }
        ScanStep(hash, entries, key, slot);
        slot := NextSlot(slot);
      }
      ScanMiss(hash, entries, key, slot);
      r := EMPTY;
    }

    /** `((nxt - nat) & mask) >= ((nxt - cur) & mask)` */
    method DisplacedPast(cur: nat, nxt: nat) returns (yes: bool)
      requires Shaped() && cur < cap && nxt < cap
      ensures yes == Backshift.Movable(hash, entries, cur, nxt)
    {
      MaskIsMod(cap, hash(entries[nxt].key));
      RemIsMod(hash(entries[nxt].key), cap);
      var home := And(hash(entries[nxt].key), mask);
      MaskedDist(cap, home, nxt);
      MaskedDist(cap, cur, nxt);
      yes := And(Wrap32(nxt - home), mask) >= And(Wrap32(nxt - cur), mask);
    }

    /** The loop after the vacated slot: `stop` gives up at the first entry that may not move. */
    method CloseGap(slot: nat, stop: bool)
      requires Shaped() && slot < cap
      requires Backshift.Shifting(hash, entries, slot, slot)
      requires Backshift.EndInSight(entries, slot, slot, cap)
      modifies `entries
      ensures entries == Backshift.Shift(hash, old(entries), slot, slot, cap, stop)
    {
      hide Backshift.Shift;
      var cur: nat, seen: nat := slot, slot;
      ghost var left: nat, goal := cap, Backshift.Shift(hash, entries, slot, slot, cap, stop);
      while true
        invariant Shaped()
        invariant Backshift.OnCourse(hash, entries, cur, seen, left, stop, goal)
        decreases left
      {
        Backshift.OnCourseStep(hash, entries, cur, seen, left, stop, goal);
        var nxt := NextSlot(seen);
        if entries[nxt].val == EMPTY {
          break;
        }
        var movable := DisplacedPast(cur, nxt);
        if movable {
          ghost var before := entries;
          entries := entries[cur := entries[nxt]];
          entries := entries[nxt := entries[nxt].(val := EMPTY)];
          assert entries == Backshift.Move(before, cur, nxt);
          cur, seen := nxt, nxt;
        } else if stop {
          break;
        } else {
          seen := nxt;
        }
        left := left - 1;
      }
    }

    /**
     Deletion as the source writes it. The table after it is exact precisely when the shift stops safely
     (Backshift.EarlyStopExactIff).
     */
    method Erase(key: uint64)
      requires Valid()
      modifies this
      ensures key !in old(M) ==> entries == old(entries) && M == old(M) && Valid()
      ensures key in old(M) ==>
                var s := Probe(hash, old(entries), key);
                && entries == Backshift.Deleted(hash, old(entries), s, true)
                && M == old(M) - {key}
                && (Valid() <==> Backshift.StopsSafely(hash, old(entries), s))
    {
      var slot := FindSlot(key);
      ProbeStops(hash, entries, key);
      if entries[slot].val == EMPTY {
        ScanMiss(hash, entries, key, slot);
        return;
      }
      Backshift.EarlyStopExactIff(hash, entries, M, slot);
      Backshift.SafeIffPathsFull(hash, entries, M, slot);
      Backshift.VacateStarts(hash, entries, M, slot);
      entries := entries[slot := entries[slot].(val := EMPTY)];
      CloseGap(slot, true);
      M := M - {key};
    }

    /** Deletion with a shift that goes on past entries it may not move: always exact. */
    method EraseCompacting(key: uint64)
      requires Valid()
      modifies this
      ensures Valid() && M == old(M) - {key}
      ensures key in old(M) ==>
                entries == Backshift.Deleted(hash, old(entries), Probe(hash, old(entries), key), false)
    {
      var slot := FindSlot(key);
      ProbeStops(hash, entries, key);
      if entries[slot].val == EMPTY {
        ScanMiss(hash, entries, key, slot);
        return;
      }
      Backshift.CompactingDeleteExact(hash, entries, M, slot);
      Backshift.VacateStarts(hash, entries, M, slot);
      entries := entries[slot := entries[slot].(val := EMPTY)];
      CloseGap(slot, false);
      M := M - {key};
    }
  }
}
