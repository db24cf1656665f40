/**
 Backward-shift deletion. `stop` selects between the loop as the source writes it, which gives up at the
 first entry it may not move, and the loop that goes on past such entries to the end of the cluster.
 */
module Backshift {
  import opened Types
  import opened ProbeTable

  function Vacate(t: Table, s: nat): Table
    requires s < |t|
  {
    t[s := t[s].(val := EMPTY)]
  }

  /** `((nxt - nat) & mask) >= ((nxt - cur) & mask)`: the entry at nxt was displaced past cur. */
  predicate Movable(h: Hash, t: Table, cur: nat, nxt: nat)
    requires cur < |t| && nxt < |t|
  {
    Dist(|t|, Home(h, |t|, t[nxt].key), nxt) >= Dist(|t|, cur, nxt)
  }

  function Move(t: Table, cur: nat, nxt: nat): Table
    requires cur < |t| && nxt < |t|
  {
    Vacate(t[cur := t[nxt]], nxt)
  }

  /** Fill the hole `cur`, having looked at every slot up to `seen`. */
  function Shift(h: Hash, t: Table, cur: nat, seen: nat, left: nat, stop: bool): (r: Table)
    requires cur < |t| && seen < |t|
    ensures |r| == |t|
    decreases left
  {
    var nxt := Next(|t|, seen);
    if left == 0 || !Occ(t, nxt) then t
    else if Movable(h, t, cur, nxt) then Shift(h, Move(t, cur, nxt), nxt, nxt, left - 1, stop)
    else if stop then t
    else Shift(h, t, cur, nxt, left - 1, stop)
  }

  /** The table after deleting the entry in slot s. */
  function Deleted(h: Hash, t: Table, s: nat, stop: bool): (r: Table)
    requires s < |t|
    ensures |r| == |t|
  {
    Shift(h, Vacate(t, s), s, s, |t|, stop)
  }

  // ---- the state of the shifting loop ----

  /** Everything but the hole is in order, and no entry up to `seen` was displaced past the hole. */
  ghost predicate Shifting(h: Hash, t: Table, cur: nat, seen: nat) {
    && cur < |t| && seen < |t|
    && !Occ(t, cur)
    && DistinctKeys(t)
    && PathsFull(h, t, cur)
    && (forall s :: 0 <= s < |t| && 0 < Dist(|t|, cur, s) <= Dist(|t|, cur, seen) ==>
          Occ(t, s) && !Crosses(h, t, s, cur))
  }

  /** An empty slot other than the hole lies within the next `left` slots. */
  ghost predicate EndInSight(t: Table, cur: nat, seen: nat, left: nat)
    requires cur < |t| && seen < |t|
  {
    exists e :: 0 <= e < |t| && !Occ(t, e) && e != cur
        && Dist(|t|, cur, seen) < Dist(|t|, cur, e) <= Dist(|t|, cur, seen) + left
  }

  lemma MoveStep(h: Hash, t: Table, cur: nat, seen: nat)
    requires Shifting(h, t, cur, seen)
    requires var nxt := Next(|t|, seen); Occ(t, nxt) && Movable(h, t, cur, nxt)
    ensures var nxt := Next(|t|, seen); Shifting(h, Move(t, cur, nxt), nxt, nxt)
  {
    var n, nxt := |t|, Next(|t|, seen);
    var t' := Move(t, cur, nxt);
    forall s, u | 0 <= s < n && 0 <= u < n && Occ(t', s) && Crosses(h, t', s, u)
      ensures Occ(t', u) || u == nxt
    {
      if s == cur {
        assert Crosses(h, t, nxt, u);
      } else {
        assert Crosses(h, t, s, u);
      }
    }
  }

  lemma SkipStep(h: Hash, t: Table, cur: nat, seen: nat)
    requires Shifting(h, t, cur, seen)
    requires var nxt := Next(|t|, seen); Occ(t, nxt) && !Movable(h, t, cur, nxt)
    ensures Shifting(h, t, cur, Next(|t|, seen))
  {
    var n, nxt := |t|, Next(|t|, seen);
    assert Dist(n, cur, nxt) == Dist(n, cur, seen) + 1;
  }

  /** Looking at one more slot, moved or not, brings the scan one slot closer to its end. */
  lemma CloserStep(h: Hash, t: Table, cur: nat, seen: nat, left: nat)
    requires Shifting(h, t, cur, seen) && EndInSight(t, cur, seen, left)
    requires Occ(t, Next(|t|, seen))
    ensures var nxt := Next(|t|, seen);
            left > 0 && EndInSight(t, cur, nxt, left - 1) && EndInSight(Move(t, cur, nxt), nxt, nxt, left - 1)
  {
    var n, nxt := |t|, Next(|t|, seen);
    var e :| 0 <= e < n && !Occ(t, e) && e != cur && Dist(n, cur, seen) < Dist(n, cur, e) <= Dist(n, cur, seen) + left;
    assert Dist(n, cur, nxt) == Dist(n, cur, seen) + 1;
    assert !Occ(Move(t, cur, nxt), e) && Dist(n, nxt, e) == Dist(n, cur, e) - Dist(n, cur, nxt);
  }

  /** At the end of the cluster no path leads over the hole any more. */
  lemma EndStep(h: Hash, t: Table, cur: nat, seen: nat)
    requires Shifting(h, t, cur, seen) && !Occ(t, Next(|t|, seen))
    ensures PathsFull(h, t, -1)
  {
  }

  /** What the moves preserve: the stored pairs. */
  ghost predicate SamePairs(t: Table, t': Table) {
    forall k, v :: Stores(t, k, v) <==> Stores(t', k, v)
  }

  ghost predicate Stores(t: Table, k: uint64, v: uint32) {
    exists s: nat :: Holds(t, s, k) && t[s].val == v
  }

  lemma MoveKeepsPairs(t: Table, cur: nat, nxt: nat)
    requires cur < |t| && nxt < |t| && !Occ(t, cur) && Occ(t, nxt)
    ensures SamePairs(t, Move(t, cur, nxt))
  {
    var t' := Move(t, cur, nxt);
    forall k, v
      ensures Stores(t, k, v) <==> Stores(t', k, v)
    {
      if Stores(t, k, v) {
        var s: nat :| Holds(t, s, k) && t[s].val == v;
        assert Holds(t', if s == nxt then cur else s, k);
      }
      if Stores(t', k, v) {
        var s: nat :| Holds(t', s, k) && t'[s].val == v;
        assert Holds(t, if s == cur then nxt else s, k);
      }
    }
  }

  /** Shifting moves entries about but neither loses nor invents one. */
  lemma {:induction false} ShiftKeepsPairs(h: Hash, t: Table, cur: nat, seen: nat, left: nat, stop: bool)
    requires cur < |t| && seen < |t| && !Occ(t, cur)
    ensures SamePairs(t, Shift(h, t, cur, seen, left, stop))
    decreases left
  {
    var nxt := Next(|t|, seen);
    if left == 0 || !Occ(t, nxt) {
    } else if Movable(h, t, cur, nxt) {
      MoveKeepsPairs(t, cur, nxt);
      ShiftKeepsPairs(h, Move(t, cur, nxt), nxt, nxt, left - 1, stop);
    } else if !stop {
      ShiftKeepsPairs(h, t, cur, nxt, left - 1, stop);
    }
  }

  /** The loop's state: shifting from here gives `goal`. */
  ghost predicate OnCourse(h: Hash, t: Table, cur: nat, seen: nat, left: nat, stop: bool, goal: Table) {
    && Shifting(h, t, cur, seen)
    && EndInSight(t, cur, seen, left)
    && Shift(h, t, cur, seen, left, stop) == goal
  }

  lemma OnCourseStep(h: Hash, t: Table, cur: nat, seen: nat, left: nat, stop: bool, goal: Table)
    requires OnCourse(h, t, cur, seen, left, stop, goal)
    ensures var nxt := Next(|t|, seen);
            if !Occ(t, nxt) then t == goal
            else if Movable(h, t, cur, nxt) then
              left > 0 && OnCourse(h, Move(t, cur, nxt), nxt, nxt, left - 1, stop, goal)
            else if stop then t == goal
            else left > 0 && OnCourse(h, t, cur, nxt, left - 1, stop, goal)
  {
    var nxt := Next(|t|, seen);
    if Occ(t, nxt) {
      CloserStep(h, t, cur, seen, left);
      if Movable(h, t, cur, nxt) {
        MoveStep(h, t, cur, seen);
      } else {
        SkipStep(h, t, cur, seen);
      }
    }
  }

  /** The compacting shift repairs every probe path. */
  lemma {:induction false} ShiftRepairs(h: Hash, t: Table, cur: nat, seen: nat, left: nat, goal: Table)
    requires OnCourse(h, t, cur, seen, left, false, goal)
    ensures DistinctKeys(goal) && PathsFull(h, goal, -1) && HasEmpty(goal)
    decreases left
  {
    var nxt := Next(|t|, seen);
    OnCourseStep(h, t, cur, seen, left, false, goal);
    if !Occ(t, nxt) {
      EndStep(h, t, cur, seen);
    } else if Movable(h, t, cur, nxt) {
      ShiftRepairs(h, Move(t, cur, nxt), nxt, nxt, left - 1, goal);
    } else {
      ShiftRepairs(h, t, cur, nxt, left - 1, goal);
    }
  }

  lemma VacateStarts(h: Hash, t: Table, m: map<uint64, uint32>, s: nat)
    requires WellProbed(h, t, m) && s < |t| && Occ(t, s)
    ensures Shifting(h, Vacate(t, s), s, s) && EndInSight(Vacate(t, s), s, s, |t|)
  {
    var t' := Vacate(t, s);
    var e :| 0 <= e < |t| && !Occ(t, e);
    assert !Occ(t', e) && e != s;
    forall x, u | 0 <= x < |t| && 0 <= u < |t| && Occ(t', x) && Crosses(h, t', x, u)
      ensures Occ(t', u) || u == s
    {
      assert Crosses(h, t, x, u);
    }
  }

  lemma PairsAreMap(t: Table, m: map<uint64, uint32>, s: nat, r: Table)
    requires DistinctKeys(t) && Represents(t, m) && s < |t| && Occ(t, s)
    requires SamePairs(Vacate(t, s), r)
    ensures Represents(r, m - {t[s].key})
  {
    var t', m' := Vacate(t, s), m - {t[s].key};
    forall x | 0 <= x < |r| && Occ(r, x)
      ensures r[x].key in m' && m'[r[x].key] == r[x].val
    {
      assert Holds(r, x, r[x].key);
      assert Stores(t', r[x].key, r[x].val);
      var y: nat :| Holds(t', y, r[x].key) && t'[y].val == r[x].val;
      assert y != s && Occ(t, y);
    }
    forall k | k in m'
      ensures Contains(r, k)
    {
      assert Contains(t, k);
      var y: nat :| Holds(t, y, k);
      assert Holds(t', y, k);
      assert Stores(t', k, t[y].val);
      var x: nat :| Holds(r, x, k) && r[x].val == t[y].val;
    }
  }

  /** Deleting with the compacting shift is exact: the key is gone and every other key is still found. */
  lemma CompactingDeleteExact(h: Hash, t: Table, m: map<uint64, uint32>, s: nat)
    requires WellProbed(h, t, m) && s < |t| && Occ(t, s)
    ensures WellProbed(h, Deleted(h, t, s, false), m - {t[s].key})
  {
    VacateStarts(h, t, m, s);
    ShiftKeepsPairs(h, Vacate(t, s), s, s, |t|, false);
    ShiftRepairs(h, Vacate(t, s), s, s, |t|, Deleted(h, t, s, false));
    PairsAreMap(t, m, s, Deleted(h, t, s, false));
  }

  // ---- the source's early stop ----

  /** Where the early-stopping shift leaves its hole: it ends before the first entry that sits in its home slot. */
  function FinalHole(h: Hash, t: Table, cur: nat, left: nat): (r: nat)
    requires cur < |t|
    ensures r < |t|
    decreases left
  {
    var nxt := Next(|t|, cur);
    if left == 0 || !Occ(t, nxt) || Home(h, |t|, t[nxt].key) == nxt then cur
    else FinalHole(h, t, nxt, left - 1)
  }

  /** No entry of the table before the call was displaced past the slot at which the shift stops. */
  ghost predicate StopsSafely(h: Hash, t: Table, s: nat)
    requires s < |t|
  {
    var hole := FinalHole(h, t, s, |t|);
    forall x :: 0 <= x < |t| && Occ(t, x) && x != s ==> !Crosses(h, t, x, hole)
  }

  lemma {:induction false} FinalHoleFrame(h: Hash, t: Table, t': Table, cur: nat, e: nat, left: nat)
    requires |t| == |t'| && cur < |t| && e < |t| && e != cur && !Occ(t, e)
    requires forall u :: 0 <= u < |t| && 0 < Dist(|t|, cur, u) <= Dist(|t|, cur, e) ==> t[u] == t'[u]
    ensures FinalHole(h, t, cur, left) == FinalHole(h, t', cur, left)
    decreases left
  {
    var nxt := Next(|t|, cur);
    if left > 0 && Occ(t, nxt) && Home(h, |t|, t[nxt].key) != nxt {
      FinalHoleFrame(h, t, t', nxt, e, left - 1);
    }
  }

  /** The early-stopping shift moves a run of entries back by one slot and touches nothing else. */
  ghost predicate MovedRun(t: Table, r: Table, cur: nat, hole: nat)
    requires cur < |t| && hole < |t| && |r| == |t|
  {
    && !Occ(r, hole)
    && forall x :: 0 <= x < |t| && x != hole ==>
         if Dist(|t|, cur, x) < Dist(|t|, cur, hole)
         then r[x] == t[Next(|t|, x)] && Occ(r, x)
         else r[x] == t[x]
  }

  lemma ShiftUnfold(h: Hash, t: Table, cur: nat, left: nat)
    requires cur < |t| && |t| > 1 && left > 0
    ensures var nxt := Next(|t|, cur);
            if Occ(t, nxt) && Home(h, |t|, t[nxt].key) != nxt
            then && Shift(h, t, cur, cur, left, true) == Shift(h, Move(t, cur, nxt), nxt, nxt, left - 1, true)
                 && FinalHole(h, t, cur, left) == FinalHole(h, t, nxt, left - 1)
            else Shift(h, t, cur, cur, left, true) == t && FinalHole(h, t, cur, left) == cur
  {
  }

  lemma {:induction false} StopState(h: Hash, t: Table, cur: nat, e: nat, left: nat) returns (r: Table, hole: nat)
    requires Shifting(h, t, cur, cur)
    requires e < |t| && e != cur && !Occ(t, e) && Dist(|t|, cur, e) <= left
    ensures r == Shift(h, t, cur, cur, left, true) && hole == FinalHole(h, t, cur, left)
    ensures Shifting(h, r, hole, hole)
    decreases left
  {
    hide Home, DistinctKeys, PathsFull;
    var nxt := Next(|t|, cur);
    if Occ(t, nxt) && Home(h, |t|, t[nxt].key) != nxt {
      MoveStep(h, t, cur, cur);
      FinalHoleFrame(h, Move(t, cur, nxt), t, nxt, e, left - 1);
      r, hole := StopState(h, Move(t, cur, nxt), nxt, e, left - 1);
    } else {
      r, hole := t, cur;
    }
  }

  lemma MovedRunStep(t: Table, r: Table, cur: nat, nxt: nat, hole: nat)
    requires cur < |t| && nxt == Next(|t|, cur) && hole < |t| && |r| == |t|
    requires !Occ(t, cur) && Occ(t, nxt) && MovedRun(Move(t, cur, nxt), r, nxt, hole)
    requires hole != cur
    ensures MovedRun(t, r, cur, hole)
  {
    var n := |t|;
    forall x | 0 <= x < n && x != hole
      ensures if Dist(n, cur, x) < Dist(n, cur, hole) then r[x] == t[Next(n, x)] && Occ(r, x) else r[x] == t[x]
    {
      assert x != cur ==> Dist(n, cur, x) == Dist(n, nxt, x) + 1;
      if x != cur && Dist(n, nxt, x) < Dist(n, nxt, hole) {
        assert Next(n, x) != cur && Next(n, x) != nxt;
      }
    }
  }

  lemma HoleAfterMove(h: Hash, t: Table, cur: nat, e: nat, left: nat)
    requires cur < |t| && e < |t| && e != cur && !Occ(t, e) && 0 < Dist(|t|, cur, e) <= left
    requires var nxt := Next(|t|, cur); Occ(t, nxt)
    ensures var nxt := Next(|t|, cur);
            FinalHole(h, Move(t, cur, nxt), nxt, left - 1) == FinalHole(h, t, nxt, left - 1) != cur
  {
    var nxt := Next(|t|, cur);
    FinalHoleFrame(h, Move(t, cur, nxt), t, nxt, e, left - 1);
    HoleFacts(h, t, nxt, e, left - 1);
  }

  lemma {:induction false} StopRun(h: Hash, t: Table, cur: nat, e: nat, left: nat) returns (r: Table, hole: nat)
    requires cur < |t| && !Occ(t, cur)
    requires e < |t| && e != cur && !Occ(t, e) && Dist(|t|, cur, e) <= left
    ensures r == Shift(h, t, cur, cur, left, true) && hole == FinalHole(h, t, cur, left)
    ensures MovedRun(t, r, cur, hole)
    decreases left
  {
    var nxt := Next(|t|, cur);
    ShiftUnfold(h, t, cur, left);
    if Occ(t, nxt) && Home(h, |t|, t[nxt].key) != nxt {
      var t' := Move(t, cur, nxt);
      r, hole := StopRun(h, t', nxt, e, left - 1);
      HoleAfterMove(h, t, cur, e, left);
      MovedRunStep(t, r, cur, nxt, hole);
    } else {
      r, hole := t, cur;
    }
  }

  /** The hole comes to rest before the next empty slot, behind a run of displaced entries. */
  lemma {:induction false} HoleFacts(h: Hash, t: Table, cur: nat, e: nat, left: nat)
    requires cur < |t| && e < |t| && e != cur && !Occ(t, e) && Dist(|t|, cur, e) <= left
    ensures var hole := FinalHole(h, t, cur, left);
            && Dist(|t|, cur, hole) < Dist(|t|, cur, e)
            && (Occ(t, Next(|t|, hole)) ==> Home(h, |t|, t[Next(|t|, hole)].key) == Next(|t|, hole))
            && (forall x :: 0 <= x < |t| && 0 < Dist(|t|, cur, x) <= Dist(|t|, cur, hole) ==>
                  Occ(t, x) && Home(h, |t|, t[x].key) != x)
    decreases left
  {
    var n, nxt := |t|, Next(|t|, cur);
    if Occ(t, nxt) && Home(h, n, t[nxt].key) != nxt {
      HoleFacts(h, t, nxt, e, left - 1);
    }
  }

  /** The early-stopping deletion in terms of the table before the call. */
  lemma StopFacts(h: Hash, t: Table, m: map<uint64, uint32>, s: nat) returns (e: nat, hole: nat, r: Table)
    requires WellProbed(h, t, m) && s < |t| && Occ(t, s)
    ensures hole == FinalHole(h, t, s, |t|) && r == Deleted(h, t, s, true)
    ensures e < |t| && !Occ(t, e) && !Occ(r, e) && Dist(|t|, s, hole) < Dist(|t|, s, e)
    ensures MovedRun(Vacate(t, s), r, s, hole) && Shifting(h, r, hole, hole) && SamePairs(Vacate(t, s), r)
    ensures var nxt := Next(|t|, hole);
            nxt != s && (Occ(t, nxt) ==> Home(h, |t|, t[nxt].key) == nxt)
    ensures forall x :: 0 <= x < |t| && 0 < Dist(|t|, s, x) <= Dist(|t|, s, hole) ==>
              Occ(t, x) && Home(h, |t|, t[x].key) != x
  {
    e :| e < |t| && !Occ(t, e);
    var t0 := Vacate(t, s);
    hole, r := FinalHole(h, t, s, |t|), Deleted(h, t, s, true);
    VacateStarts(h, t, m, s);
    FinalHoleFrame(h, t, t0, s, e, |t|);
    HoleFacts(h, t, s, e, |t|);
    ShiftKeepsPairs(h, t0, s, s, |t|, true);
    var r', hole' := StopRun(h, t0, s, e, |t|);
    r', hole' := StopState(h, t0, s, e, |t|);
  }

  /** Seen from the deleted slot, an entry inside the moved run was never displaced past the hole. */
  lemma RunDoesNotCross(h: Hash, t: Table, ok: int, s: nat, hole: nat, x: nat, e: nat)
    requires s < |t| && hole < |t| && x < |t| && e < |t|
    requires PathsFull(h, t, ok) && Occ(t, x) && !Occ(t, e) && e != ok
    requires Dist(|t|, s, x) <= Dist(|t|, s, hole) < Dist(|t|, s, e)
    ensures !Crosses(h, t, x, hole)
  {
  }

  /** The safety condition before the call is the absence of broken probe paths after it. */
  lemma SafeIffPathsFull(h: Hash, t: Table, m: map<uint64, uint32>, s: nat)
    requires WellProbed(h, t, m) && s < |t| && Occ(t, s)
    ensures StopsSafely(h, t, s) <==> PathsFull(h, Deleted(h, t, s, true), -1)
  {
    var n := |t|;
    var e, hole, r := StopFacts(h, t, m, s);
    forall x | 0 <= x < n && Occ(t, x) && x != s && Crosses(h, t, x, hole)
      ensures Occ(r, x) && Crosses(h, r, x, hole)
    {
      if Dist(n, s, x) <= Dist(n, s, hole) {
        RunDoesNotCross(h, t, -1, s, hole, x, e);
      }
    }
    forall x | 0 <= x < n && Occ(r, x) && Crosses(h, r, x, hole)
      ensures Occ(t, x) && x != s && Crosses(h, t, x, hole)
    {
      if Dist(n, s, x) <= Dist(n, s, hole) {
        RunDoesNotCross(h, r, hole, s, hole, x, e);
      }
    }
  }

  /**
   The source's deletion is exact precisely when it stops safely: every other key is found as before if and
   only if no entry was displaced past the final hole.
   */
  lemma EarlyStopExactIff(h: Hash, t: Table, m: map<uint64, uint32>, s: nat)
    requires WellProbed(h, t, m) && s < |t| && Occ(t, s)
    ensures var r := Deleted(h, t, s, true);
            (forall k :: k != t[s].key ==> Lookup(h, r, k) == Lookup(h, t, k)) <==> StopsSafely(h, t, s)
    ensures StopsSafely(h, t, s) ==> WellProbed(h, Deleted(h, t, s, true), m - {t[s].key})
  {
    var n := |t|;
    var e, hole, r := StopFacts(h, t, m, s);
    SafeIffPathsFull(h, t, m, s);
    PairsAreMap(t, m, s, r);
    if StopsSafely(h, t, s) {
      forall k | k != t[s].key
        ensures Lookup(h, r, k) == Lookup(h, t, k)
      {
        LookupIsMap(h, t, m, k);
        LookupIsMap(h, r, m - {t[s].key}, k);
      }
    } else {
      var k := BrokenPathLosesKey(h, t, m, s, r);
    }
  }

  lemma BrokenPathLosesKey(h: Hash, t: Table, m: map<uint64, uint32>, s: nat, r: Table) returns (k: uint64)
    requires WellProbed(h, t, m) && s < |t| && Occ(t, s) && |r| == |t|
    requires DistinctKeys(r) && Represents(r, m - {t[s].key}) && !PathsFull(h, r, -1)
    ensures k != t[s].key && Lookup(h, r, k) != Lookup(h, t, k)
  {
    var x, u :| 0 <= x < |r| && 0 <= u < |r| && Occ(r, x) && Crosses(h, r, x, u) && !Occ(r, u);
    k := r[x].key;
    LookupBlocked(h, r, x, u);
    LookupIsMap(h, t, m, k);
  }

  // ---- clusters in home order ----

  function Displacement(h: Hash, t: Table, s: nat): nat
    requires s < |t|
  {
    Dist(|t|, Home(h, |t|, t[s].key), s)
  }

  /** Robin Hood order: along a cluster the home slots never go back. */
  ghost predicate HomeSorted(h: Hash, t: Table) {
    forall s :: 0 <= s < |t| ==> SortedAt(h, t, s)
  }

  ghost predicate SortedAt(h: Hash, t: Table, s: nat)
    requires s < |t|
  {
    var nxt := Next(|t|, s);
    Occ(t, s) && Occ(t, nxt) ==> Displacement(h, t, nxt) <= Displacement(h, t, s) + 1
  }

  lemma {:induction false} SortedReach(h: Hash, t: Table, a: nat, x: nat)
    requires HomeSorted(h, t) && a < |t| && x < |t|
    requires Occ(t, a) && Displacement(h, t, a) == 0
    requires forall u :: 0 <= u < |t| && Dist(|t|, a, u) <= Dist(|t|, a, x) ==> Occ(t, u)
    ensures Displacement(h, t, x) <= Dist(|t|, a, x)
    decreases Dist(|t|, a, x)
  {
    if x != a {
      var prev := if x == 0 then |t| - 1 else x - 1;
      assert Dist(|t|, a, prev) == Dist(|t|, a, x) - 1;
      SortedReach(h, t, a, prev);
      assert SortedAt(h, t, prev);
    }
  }

  /** A path over the hole runs over every slot from the hole to the displaced entry. */
  lemma CrossingRun(h: Hash, t: Table, x: nat, hole: nat, u: nat)
    requires PathsFull(h, t, -1) && x < |t| && hole < |t| && u < |t|
    requires Occ(t, x) && Crosses(h, t, x, hole)
    requires Dist(|t|, hole, u) <= Dist(|t|, hole, x)
    ensures Occ(t, u) && Dist(|t|, hole, x) <= Displacement(h, t, x)
  {
    assert u == x || Crosses(h, t, x, u);
  }

  lemma SortedContradiction(h: Hash, t: Table, hole: nat, x: nat)
    requires PathsFull(h, t, -1) && HomeSorted(h, t) && hole < |t| && x < |t| && Occ(t, x)
    requires var nxt := Next(|t|, hole); Occ(t, nxt) ==> Displacement(h, t, nxt) == 0
    ensures !Crosses(h, t, x, hole)
  {
    var n, nxt := |t|, Next(|t|, hole);
    if Crosses(h, t, x, hole) {
      forall u | 0 <= u < n && Dist(n, nxt, u) <= Dist(n, nxt, x)
        ensures Occ(t, u)
      {
        CrossingRun(h, t, x, hole, u);
      }
      CrossingRun(h, t, x, hole, nxt);
      SortedReach(h, t, nxt, x);
      assert false;
    }
  }

  /** In home-sorted clusters stopping at the first entry in its home slot loses nothing. */
  lemma SortedStopsSafely(h: Hash, t: Table, m: map<uint64, uint32>, s: nat)
    requires WellProbed(h, t, m) && HomeSorted(h, t) && s < |t| && Occ(t, s)
    ensures StopsSafely(h, t, s)
  {
    var n := |t|;
    var e, hole, r := StopFacts(h, t, m, s);
    var nxt := Next(n, hole);
    forall x | 0 <= x < n && Occ(t, x) && x != s
      ensures !Crosses(h, t, x, hole)
    {
      if Crosses(h, t, x, hole) {
        SortedContradiction(h, t, hole, x);
      }
    }
  }

  /** The source's deletion keeps the clusters home-sorted. */
  lemma SortedPreserved(h: Hash, t: Table, m: map<uint64, uint32>, s: nat)
    requires WellProbed(h, t, m) && HomeSorted(h, t) && s < |t| && Occ(t, s)
    ensures HomeSorted(h, Deleted(h, t, s, true))
  {
    var n := |t|;
    var e, hole, r := StopFacts(h, t, m, s);
    forall x | 0 <= x < n
      ensures SortedAt(h, r, x)
    {
      SortedStep(h, t, s, hole, r, x);
    }
  }

  lemma SortedStep(h: Hash, t: Table, s: nat, hole: nat, r: Table, x: nat)
    requires HomeSorted(h, t) && s < |t| && hole < |t| && x < |t| && |r| == |t| && Occ(t, s)
    requires MovedRun(Vacate(t, s), r, s, hole)
    requires forall y :: 0 <= y < |t| && 0 < Dist(|t|, s, y) <= Dist(|t|, s, hole) ==>
               Occ(t, y) && Home(h, |t|, t[y].key) != y
    ensures SortedAt(h, r, x)
  {
    var n, nxt := |t|, Next(|t|, x);
    assert SortedAt(h, t, x) && SortedAt(h, t, nxt);
    if Occ(r, x) && Occ(r, nxt) {
      if Dist(n, s, x) < Dist(n, s, hole) {
        assert r[x] == t[nxt] && r[nxt] == t[Next(n, nxt)];
        assert Displacement(h, r, x) + 1 == Displacement(h, t, nxt);
        assert Displacement(h, r, nxt) + 1 == Displacement(h, t, Next(n, nxt));
      } else if nxt == s {
        assert r[x] == t[x] && r[nxt] == t[Next(n, nxt)];
        assert Displacement(h, r, nxt) + 1 == Displacement(h, t, Next(n, nxt));
      } else {
        assert r[x] == t[x] && r[nxt] == t[nxt];
      }
    }
  }

  // ---- the two deletions side by side ----

  /** Once no entry crosses the hole, the compacting scan moves nothing any more. */
  lemma {:induction false} ShiftIdle(h: Hash, t: Table, cur: nat, seen: nat, left: nat)
    requires cur < |t| && seen < |t| && !Occ(t, cur)
    requires forall x :: 0 <= x < |t| && Occ(t, x) ==> !Crosses(h, t, x, cur)
    ensures Shift(h, t, cur, seen, left, false) == t
    decreases left
  {
    var nxt := Next(|t|, seen);
    if left > 0 && Occ(t, nxt) {
      ShiftIdle(h, t, cur, nxt, left - 1);
    }
  }

  lemma {:induction false} SameUntilStop(h: Hash, t: Table, cur: nat, e: nat, left: nat)
    requires Shifting(h, t, cur, cur)
    requires e < |t| && e != cur && !Occ(t, e) && Dist(|t|, cur, e) <= left
    requires PathsFull(h, Shift(h, t, cur, cur, left, true), -1)
    ensures Shift(h, t, cur, cur, left, true) == Shift(h, t, cur, cur, left, false)
    decreases left
  {
    var n, nxt := |t|, Next(|t|, cur);
    if Occ(t, nxt) && Home(h, n, t[nxt].key) != nxt {
      MoveStep(h, t, cur, cur);
      SameUntilStop(h, Move(t, cur, nxt), nxt, e, left - 1);
    } else {
      assert Shift(h, t, cur, cur, left, true) == t;
      ShiftIdle(h, t, cur, cur, left);
    }
  }

  /** The source's deletion and the compacting one agree precisely when the source stops safely. */
  lemma SafeIffSameTable(h: Hash, t: Table, m: map<uint64, uint32>, s: nat)
    requires WellProbed(h, t, m) && s < |t| && Occ(t, s)
    ensures StopsSafely(h, t, s) <==> Deleted(h, t, s, true) == Deleted(h, t, s, false)
  {
    SafeIffPathsFull(h, t, m, s);
    CompactingDeleteExact(h, t, m, s);
    if StopsSafely(h, t, s) {
      var e: nat :| e < |t| && !Occ(t, e);
      VacateStarts(h, t, m, s);
      SameUntilStop(h, Vacate(t, s), s, e, |t|);
    }
  }

  // ---- the early stop loses a key ----

  function Mixed(key: bv64): bv64 {
    var m := (key ^ (key >> 33)) * 0xff51_afd7_ed55_8ccd;
    m ^ (m >> 33)
  }

  /** The hash of the source: a multiplication between two folding shifts, cut to 32 bits. */
  function Murmur(key: uint64): uint32 {
    (Mixed(key as bv64) & 0xFFFF_FFFF) as bv32 as int
  }

  lemma MurmurValues()
    ensures Murmur(6) == 0xEDF4_4349 && Murmur(7) == 0x00CB_3EE8 && Murmur(15) == 0x92E7_E6D0
  {
    MixedValues();
    assert 6 as bv64 == 6 && 7 as bv64 == 7 && 15 as bv64 == 15;
  }

  lemma MixedValues()
    ensures Mixed(6) & 0xFFFF_FFFF == 0xEDF4_4349
    ensures Mixed(7) & 0xFFFF_FFFF == 0x00CB_3EE8
    ensures Mixed(15) & 0xFFFF_FFFF == 0x92E7_E6D0
  {
  }

  const FREE := Entry(0, EMPTY)

  /** Three keys with home slots 0, 1, 0 in an empty table of eight slots, then the first of them deleted. */
  lemma DisplacedKeyIsLost(h: Hash, a: uint64, b: uint64, c: uint64)
    requires a != b && b != c && a != c && Home(h, 8, a) == 0 && Home(h, 8, b) == 1 && Home(h, 8, c) == 0
    ensures var t := Inserted(h, Inserted(h, Inserted(h, seq(8, _ => FREE), a, 0), b, 1), c, 2);
            && Lookup(h, t, c) == 2
            && Lookup(h, Deleted(h, t, Probe(h, t, a), true), c) == EMPTY
            && Lookup(h, Deleted(h, t, Probe(h, t, a), false), c) == 2
  {
    hide Home;
    var empty: Table := seq(8, _ => FREE);
    assert empty == [FREE, FREE, FREE, FREE, FREE, FREE, FREE, FREE];
    var t1 := Inserted(h, empty, a, 0);
    assert t1 == [Entry(a, 0), FREE, FREE, FREE, FREE, FREE, FREE, FREE];
    var t2 := Inserted(h, t1, b, 1);
    assert t2 == [Entry(a, 0), Entry(b, 1), FREE, FREE, FREE, FREE, FREE, FREE];
    var t3 := Inserted(h, t2, c, 2);
    assert Probe(h, t2, c) == ProbeFrom(t2, c, 1, 7) == ProbeFrom(t2, c, 2, 6) == 2;
    assert t3 == [Entry(a, 0), Entry(b, 1), Entry(c, 2), FREE, FREE, FREE, FREE, FREE];
    assert Probe(h, t3, a) == 0;
    assert Probe(h, t3, c) == ProbeFrom(t3, c, 1, 7) == ProbeFrom(t3, c, 2, 6) == 2;
    var v := Vacate(t3, 0);
    assert Deleted(h, t3, 0, true) == v;
    assert Probe(h, v, c) == 0;
    var r := Deleted(h, t3, 0, false);
    assert r == Shift(h, v, 0, 1, 7, false) == Shift(h, Move(v, 0, 2), 2, 2, 6, false) == Move(v, 0, 2);
    assert Probe(h, r, c) == 0;
  }

  /**
   Ids 7, 6, 15 in the id table of a book for four orders: under the source's hash their home slots among eight are
   0, 1, 0. When id 7 is deleted, id 6 sits in its home slot and stops the shift, and id 15 behind it can no longer
   be found.
   */
  lemma EarlyStopLosesKey()
    ensures var h := (key: uint64) => Murmur(key);
            var t := Inserted(h, Inserted(h, Inserted(h, seq(8, _ => FREE), 7, 0), 6, 1), 15, 2);
            && Lookup(h, t, 15) == 2
            && Lookup(h, Deleted(h, t, Probe(h, t, 7), true), 15) == EMPTY
            && Lookup(h, Deleted(h, t, Probe(h, t, 7), false), 15) == 2
  {
    hide Murmur;
    var h := (key: uint64) => Murmur(key);
    MurmurValues();
    RemIsMod(Murmur(7), 8);
    RemIsMod(Murmur(6), 8);
    RemIsMod(Murmur(15), 8);
    DisplacedKeyIsLost(h, 7, 6, 15);
  }
}
