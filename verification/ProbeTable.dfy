/** Open addressing with linear probing, as a value: slots in a ring, keys displaced from their home slot. */
module ProbeTable {
  import opened Types
  import Bits

  datatype Entry = Entry(key: uint64, val: uint32)

  const EMPTY: uint32 := NULL_IDX

  type Table = seq<Entry>
  type Hash = uint64 -> uint32

  predicate Occ(t: Table, s: nat)
    requires s < |t|
  {
    t[s].val != EMPTY
  }

  /** Steps from a up to b around a ring of n slots. */
  function Dist(n: nat, a: nat, b: nat): nat
    requires a < n && b < n
  {
    if a <= b then b - a else b - a + n
  }

  function Next(n: nat, s: nat): nat
    requires s < n
  {
    if s + 1 == n then 0 else s + 1
  }

  /** The remainder of x by n, by repeated subtraction. */
  function Rem(x: nat, n: nat): (r: nat)
    requires n > 0
    ensures r < n
  {
    if x < n then x else Rem(x - n, n)
  }

  lemma {:induction false} RemIsMod(x: nat, n: nat)
    requires n > 0
    ensures Rem(x, n) == x % n
  {
    if x >= n {
      RemIsMod(x - n, n);
      assert (x - n) / n * n + (x - n) % n == x - n;
      var q := (x - n) / n + 1;
      assert x == q * n + (x - n) % n;
      Bits.DivModUnique(x, n, q, (x - n) % n);
    }
  }

  /** The slot a key hashes to: `hash(key) & mask`. */
  function Home(h: Hash, n: nat, key: uint64): (r: nat)
    requires n > 0
    ensures r < n
  {
    Rem(h(key), n)
  }

  /** The entry in slot s has been displaced past slot u. */
  ghost predicate Crosses(h: Hash, t: Table, s: nat, u: nat)
    requires s < |t| && u < |t|
  {
    var home := Home(h, |t|, t[s].key);
    Dist(|t|, home, u) < Dist(|t|, home, s)
  }

  ghost predicate DistinctKeys(t: Table) {
    forall s, u :: 0 <= s < |t| && 0 <= u < |t| && Occ(t, s) && Occ(t, u) && t[s].key == t[u].key ==> s == u
  }

  /** No probe path is interrupted by an empty slot, except possibly by `hole`. */
  ghost predicate PathsFull(h: Hash, t: Table, hole: int) {
    forall s, u :: 0 <= s < |t| && 0 <= u < |t| && Occ(t, s) && Crosses(h, t, s, u) ==> Occ(t, u) || u == hole
  }

  ghost predicate Holds(t: Table, s: nat, key: uint64) {
    s < |t| && Occ(t, s) && t[s].key == key
  }

  ghost predicate Contains(t: Table, key: uint64) {
    exists s :: Holds(t, s, key)
  }

  ghost predicate Represents(t: Table, m: map<uint64, uint32>) {
    && (forall s :: 0 <= s < |t| && Occ(t, s) ==> t[s].key in m && m[t[s].key] == t[s].val)
    && (forall k {:trigger Contains(t, k)} :: k in m ==> Contains(t, k))
  }

  ghost predicate HasEmpty(t: Table) {
    exists s :: 0 <= s < |t| && !Occ(t, s)
  }

  /** A table in which every stored key can be found. */
  ghost predicate WellProbed(h: Hash, t: Table, m: map<uint64, uint32>) {
    DistinctKeys(t) && PathsFull(h, t, -1) && Represents(t, m) && HasEmpty(t)
  }

  // ---- probing ----

  /** The slot at which probing for the key stops: an empty one or the key's own. */
  function ProbeFrom(t: Table, key: uint64, slot: nat, left: nat): (r: nat)
    requires slot < |t|
    ensures r < |t|
    decreases left
  {
    if left == 0 || !Occ(t, slot) || t[slot].key == key then slot
    else ProbeFrom(t, key, Next(|t|, slot), left - 1)
  }

  function Probe(h: Hash, t: Table, key: uint64): (r: nat)
    requires |t| > 0
    ensures r < |t|
  {
    ProbeFrom(t, key, Home(h, |t|, key), |t|)
  }

  /** What `find` returns, on any table. */
  function Lookup(h: Hash, t: Table, key: uint64): uint32
    requires |t| > 0
  {
    var s := Probe(h, t, key);
    if Occ(t, s) && t[s].key == key then t[s].val else EMPTY
  }

  /** What `insert` makes of any table. */
  function Inserted(h: Hash, t: Table, key: uint64, val: uint32): Table
    requires |t| > 0
  {
    t[Probe(h, t, key) := Entry(key, val)]
  }

  /** Every slot from the key's home up to `slot` is occupied by some other key. */
  ghost predicate Scanned(h: Hash, t: Table, key: uint64, slot: nat)
    requires slot < |t|
  {
    var home := Home(h, |t|, key);
    forall u :: 0 <= u < |t| && Dist(|t|, home, u) < Dist(|t|, home, slot) ==> Occ(t, u) && t[u].key != key
  }

  lemma ScanStep(h: Hash, t: Table, key: uint64, slot: nat)
    requires slot < |t| && Scanned(h, t, key, slot) && HasEmpty(t)
    requires Occ(t, slot) && t[slot].key != key
    ensures Scanned(h, t, key, Next(|t|, slot))
    ensures var home := Home(h, |t|, key);
            Dist(|t|, home, Next(|t|, slot)) == Dist(|t|, home, slot) + 1
  {
    var e :| 0 <= e < |t| && !Occ(t, e);
  }

  lemma ScanMiss(h: Hash, t: Table, key: uint64, slot: nat)
    requires slot < |t| && Scanned(h, t, key, slot) && !Occ(t, slot)
    requires PathsFull(h, t, -1)
    ensures !Contains(t, key)
  {
    if s :| Holds(t, s, key) {
      assert Crosses(h, t, s, slot);
      assert false;
    }
  }

  lemma {:induction false} ProbeScan(h: Hash, t: Table, key: uint64, slot: nat)
    requires slot < |t| && Scanned(h, t, key, slot)
    ensures Probe(h, t, key) == ProbeFrom(t, key, slot, |t| - Dist(|t|, Home(h, |t|, key), slot))
    decreases Dist(|t|, Home(h, |t|, key), slot)
  {
    var n, home := |t|, Home(h, |t|, key);
    if slot != home {
      var prev := if slot == 0 then n - 1 else slot - 1;
      assert Dist(n, home, prev) == Dist(n, home, slot) - 1;
      ProbeScan(h, t, key, prev);
    }
  }

  /** Probing ends, because some slot is empty, and ends where nothing before it could have matched. */
  lemma ProbeStops(h: Hash, t: Table, key: uint64)
    requires HasEmpty(t)
    ensures var s := Probe(h, t, key); Scanned(h, t, key, s) && (!Occ(t, s) || t[s].key == key)
  {
    var slot: nat := Home(h, |t|, key);
    while Occ(t, slot) && t[slot].key != key
      invariant slot < |t| && Scanned(h, t, key, slot)
      decreases |t| - Dist(|t|, Home(h, |t|, key), slot)
    {
      ScanStep(h, t, key, slot);
      slot := Next(|t|, slot);
    }
    ProbeScan(h, t, key, slot);
  }

  /** In a well-probed table, lookup is the map. */
  lemma LookupIsMap(h: Hash, t: Table, m: map<uint64, uint32>, key: uint64)
    requires WellProbed(h, t, m)
    ensures Lookup(h, t, key) == (if key in m then m[key] else EMPTY)
  {
    ProbeStops(h, t, key);
    var s := Probe(h, t, key);
    if !Occ(t, s) {
      ScanMiss(h, t, key, s);
    }
  }

  /** A key displaced past an empty slot is lost to lookup. */
  lemma LookupBlocked(h: Hash, t: Table, x: nat, u: nat)
    requires DistinctKeys(t) && x < |t| && u < |t|
    requires Occ(t, x) && !Occ(t, u) && Crosses(h, t, x, u)
    ensures Lookup(h, t, t[x].key) == EMPTY
  {
    ProbeStops(h, t, t[x].key);
  }

  // ---- insert ----

  lemma InsertPaths(h: Hash, t: Table, key: uint64, val: uint32)
    requires DistinctKeys(t) && PathsFull(h, t, -1) && HasEmpty(t) && val != EMPTY
    ensures var t' := Inserted(h, t, key, val); DistinctKeys(t') && PathsFull(h, t', -1)
    ensures forall s :: 0 <= s < |t| && s != Probe(h, t, key) && Occ(t, s) ==> t[s].key != key
  {
    ProbeStops(h, t, key);
    var slot := Probe(h, t, key);
    forall s | 0 <= s < |t| && s != slot && Occ(t, s) && t[s].key == key
      ensures false
    {
      assert Holds(t, s, key);
      if !Occ(t, slot) {
        ScanMiss(h, t, key, slot);
      }
    }
    var t' := Inserted(h, t, key, val);
    forall s, u | 0 <= s < |t| && 0 <= u < |t| && Occ(t', s) && Crosses(h, t', s, u)
      ensures Occ(t', u)
    {
      assert s != slot ==> Crosses(h, t, s, u);
    }
  }

  lemma InsertRepresents(t: Table, m: map<uint64, uint32>, slot: nat, key: uint64, val: uint32)
    requires Represents(t, m) && slot < |t| && val != EMPTY
    requires Occ(t, slot) ==> t[slot].key == key
    requires forall s :: 0 <= s < |t| && s != slot && Occ(t, s) ==> t[s].key != key
    ensures Represents(t[slot := Entry(key, val)], m[key := val])
  {
    var t', m' := t[slot := Entry(key, val)], m[key := val];
    forall k | k in m'
      ensures Contains(t', k)
    {
      if k == key {
        assert Holds(t', slot, key);
      } else {
        assert Contains(t, k);
        var s: nat :| Holds(t, s, k);
        assert Holds(t', s, k);
      }
    }
  }

  /** Inserting is a map update, as long as an empty slot remains. */
  lemma InsertKeeps(h: Hash, t: Table, m: map<uint64, uint32>, key: uint64, val: uint32)
    requires WellProbed(h, t, m) && val != EMPTY
    requires key in m || |m| + 1 < |t|
    ensures WellProbed(h, Inserted(h, t, key, val), m[key := val])
  {
    InsertPaths(h, t, key, val);
    ProbeStops(h, t, key);
    var slot := Probe(h, t, key);
    var t', m' := Inserted(h, t, key, val), m[key := val];
    InsertRepresents(t, m, slot, key, val);
    if key in m {
      assert Contains(t, key);
      var s: nat :| Holds(t, s, key);
      assert s == slot;
      var e :| 0 <= e < |t| && !Occ(t, e);
      assert !Occ(t', e);
    } else {
      RoomLeft(t', m');
    }
  }

  /** A table with fewer keys than slots has an empty slot. */
  lemma RoomLeft(t: Table, m: map<uint64, uint32>)
    requires DistinctKeys(t) && |m| < |t|
    requires forall s :: 0 <= s < |t| && Occ(t, s) ==> t[s].key in m
    ensures HasEmpty(t)
  {
    if !HasEmpty(t) {
      var keys := KeysUpTo(t, |t|);
      SubsetSize(keys, m.Keys);
      assert false;
    }
  }

  lemma {:induction false} KeysUpTo(t: Table, n: nat) returns (keys: set<uint64>)
    requires n <= |t| && DistinctKeys(t) && !HasEmpty(t)
    ensures |keys| == n
    ensures forall k :: k in keys ==> exists s :: 0 <= s < n && t[s].key == k
    decreases n
  {
    if n == 0 {
      keys := {};
    } else {
      var rest := KeysUpTo(t, n - 1);
      assert Occ(t, n - 1);
      keys := rest + {t[n - 1].key};
    }
  }

  lemma {:induction false} SubsetSize<T>(a: set<T>, b: set<T>)
    requires a <= b
    ensures |a| <= |b|
    decreases a
  {
    if x :| x in a {
      SubsetSize(a - {x}, b - {x});
    }
  }
}
