/** Runs of insertions and deletions as the source writes them: when every id stays findable throughout. */
module TableRuns {
  import opened Types
  import opened ProbeTable
  import opened Backshift

  datatype TableOp = Put(key: uint64, val: uint32) | Drop(key: uint64)

  /** `insert` and `erase` on the table. */
  function StepTable(h: Hash, t: Table, op: TableOp): (r: Table)
    requires |t| > 0
    ensures |r| == |t|
  {
    match op
    case Put(key, val) => Inserted(h, t, key, val)
    case Drop(key) => if Occ(t, Probe(h, t, key)) then Deleted(h, t, Probe(h, t, key), true) else t
  }

  /** What they are meant to do. */
  function StepMap(m: map<uint64, uint32>, op: TableOp): map<uint64, uint32> {
    match op
    case Put(key, val) => m[key := val]
    case Drop(key) => m - {key}
  }

  ghost predicate FoundAs(h: Hash, t: Table, m: map<uint64, uint32>, key: uint64)
    requires |t| > 0
  {
    Lookup(h, t, key) == if key in m then m[key] else EMPTY
  }

  /** Looking up any id gives what the map says. */
  ghost predicate Findable(h: Hash, t: Table, m: map<uint64, uint32>)
    requires |t| > 0
  {
    forall key: uint64 :: FoundAs(h, t, m, key)
  }

  ghost predicate AlwaysFindable(h: Hash, t: Table, m: map<uint64, uint32>, ops: seq<TableOp>)
    requires |t| > 0
    decreases |ops|
  {
    Findable(h, t, m) && (ops != [] ==> AlwaysFindable(h, StepTable(h, t, ops[0]), StepMap(m, ops[0]), ops[1..]))
  }

  /** A deletion that shifts does so safely. */
  ghost predicate SafeDrop(h: Hash, t: Table, op: TableOp)
    requires |t| > 0
  {
    op.Drop? && Occ(t, Probe(h, t, op.key)) ==> StopsSafely(h, t, Probe(h, t, op.key))
  }

  ghost predicate SafeDrops(h: Hash, t: Table, ops: seq<TableOp>)
    requires |t| > 0
    decreases |ops|
  {
    ops != [] ==> SafeDrop(h, t, ops[0]) && SafeDrops(h, StepTable(h, t, ops[0]), ops[1..])
  }

  /** Every insertion leaves a slot empty, as the order book's table always does. */
  predicate Roomy(n: nat, m: map<uint64, uint32>, ops: seq<TableOp>)
    decreases |ops|
  {
    ops != [] ==>
      && (ops[0].Put? ==> ops[0].val != EMPTY && (ops[0].key in m || |m| + 1 < n))
      && Roomy(n, StepMap(m, ops[0]), ops[1..])
  }

  lemma WellProbedFindable(h: Hash, t: Table, m: map<uint64, uint32>)
    requires WellProbed(h, t, m)
    ensures |t| > 0 && Findable(h, t, m)
  {
    forall key: uint64
      ensures FoundAs(h, t, m, key)
    {
      LookupIsMap(h, t, m, key);
    }
  }

  lemma DropFinds(h: Hash, t: Table, m: map<uint64, uint32>, key: uint64)
    requires WellProbed(h, t, m)
    ensures var s := Probe(h, t, key); if Occ(t, s) then t[s].key == key else key !in m
  {
    ProbeStops(h, t, key);
    var s := Probe(h, t, key);
    if !Occ(t, s) {
      ScanMiss(h, t, key, s);
    }
  }

  /** A deletion leaves every id findable if and only if it is safe; then the table is as good as before. */
  lemma DropIff(h: Hash, t: Table, m: map<uint64, uint32>, key: uint64)
    requires WellProbed(h, t, m)
    ensures var r := StepTable(h, t, Drop(key));
            && (Findable(h, r, m - {key}) <==> SafeDrop(h, t, Drop(key)))
            && (SafeDrop(h, t, Drop(key)) ==> WellProbed(h, r, m - {key}))
  {
    hide WellProbed, StopsSafely, Lookup, Deleted, Probe;
    DropFinds(h, t, m, key);
    var s, r := Probe(h, t, key), StepTable(h, t, Drop(key));
    if Occ(t, s) {
      EarlyStopExactIff(h, t, m, s);
      WellProbedFindable(h, t, m);
      if StopsSafely(h, t, s) {
        WellProbedFindable(h, r, m - {key});
      } else {
        var k :| k != key && Lookup(h, r, k) != Lookup(h, t, k);
        assert FoundAs(h, t, m, k) && !FoundAs(h, r, m - {key}, k);
      }
    } else {
      assert m - {key} == m;
      WellProbedFindable(h, t, m);
    }
  }

  /** Through a whole run every id stays findable if and only if every deletion of the run stops safely. */
  lemma {:induction false} RunFindableIff(h: Hash, t: Table, m: map<uint64, uint32>, ops: seq<TableOp>)
    requires WellProbed(h, t, m) && Roomy(|t|, m, ops)
    ensures |t| > 0
    ensures AlwaysFindable(h, t, m, ops) <==> SafeDrops(h, t, ops)
    decreases |ops|
  {
    hide WellProbed, Findable, StepTable, SafeDrop, Probe;
    WellProbedFindable(h, t, m);
    if ops != [] {
      var t', m' := StepTable(h, t, ops[0]), StepMap(m, ops[0]);
      StepIff(h, t, m, ops[0]);
      if SafeDrop(h, t, ops[0]) {
        RunFindableIff(h, t', m', ops[1..]);
      }
    }
  }

  lemma StepIff(h: Hash, t: Table, m: map<uint64, uint32>, op: TableOp)
    requires WellProbed(h, t, m) && |t| > 0
    requires op.Put? ==> op.val != EMPTY && (op.key in m || |m| + 1 < |t|)
    ensures Findable(h, StepTable(h, t, op), StepMap(m, op)) <==> SafeDrop(h, t, op)
    ensures SafeDrop(h, t, op) ==> WellProbed(h, StepTable(h, t, op), StepMap(m, op))
  {
    hide WellProbed, Findable, Probe;
    match op
    case Put(key, val) =>
      InsertKeeps(h, t, m, key, val);
      WellProbedFindable(h, StepTable(h, t, op), StepMap(m, op));
    case Drop(key) => DropIff(h, t, m, key);
  }
}
