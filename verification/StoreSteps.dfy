/** The elementary changes the operations make to the store, and what each keeps. */
module StoreSteps {
  import opened Types
  import opened Pool
  import opened BookStore
  import Bitmap
  import BookSpec

  lemma BitmapCovers(s: Store, side: Side, l: nat)
    requires SideOk(s, side) && l < |s.Qs(side)|
    ensures l < 64 * |s.Lad(side).bitmap| && l < |s.Lad(side).levels|
  {
  }

  // ---- level_remove ----

  function UnlinkedLadder(lad: Ladder, l: nat, o: Order): Ladder
    requires l < |lad.levels| && l < 64 * |lad.bitmap|
  {
    var lv := UnlinkLevel(lad.levels[l], o);
    Ladder(lad.levels[l := lv], if lv.Empty() then Bitmap.ClearBit(lad.bitmap, l) else lad.bitmap)
  }

  /** The k-th order of a level taken out of its queue. */
  function Unlinked(s: Store, side: Side, l: nat, k: nat): Store
    requires l < |s.Qs(side)| && k < |s.Qs(side)[l]| && s.Qs(side)[l][k] < |s.pool|
    requires l < |s.Lad(side).levels| && l < 64 * |s.Lad(side).bitmap|
  {
    var x := s.Qs(side)[l][k];
    s.(pool := UnlinkPool(s.pool, x))
     .WithSide(side, UnlinkedLadder(s.Lad(side), l, s.pool[x]), s.Qs(side)[l := WithoutSlot(s.Qs(side)[l], k)])
  }

  lemma QViewWithout(pool: seq<Order>, pool': seq<Order>, q: seq<nat>, k: nat)
    requires k < |q| && |pool'| == |pool|
    requires forall x :: 0 <= x < |pool| ==> pool'[x].id == pool[x].id && pool'[x].qty == pool[x].qty
    ensures QView(pool', WithoutSlot(q, k)) == BookSpec.Without(QView(pool, q), k)
    ensures BookSpec.Volume(QView(pool', WithoutSlot(q, k)))
            == BookSpec.Volume(QView(pool, q)) - SlotView(pool, q[k]).qty
  {
    var v := QView(pool, q);
    assert QView(pool', WithoutSlot(q, k)) == v[..k] + v[k + 1..];
    VolumeSplit(v, k);
    VolumeAppend(v[..k], v[k + 1..]);
  }

  lemma UnlinkedEnds(pool: seq<Order>, q: seq<nat>, lv: PriceLevel, side: Side, l: nat, base: uint32, k: nat)
    requires |pool| <= NULL_IDX && LevelOk(pool, q, lv, side, l, base) && k < |q| && q[k] < |pool|
    ensures var q', lv' := WithoutSlot(q, k), UnlinkLevel(lv, pool[q[k]]);
            && lv'.head == LinkAt(q', 0) && lv'.tail == LinkAt(q', |q'| - 1) && lv'.count == |q'|
            && lv'.price == lv.price && (lv'.Empty() <==> q' == [])
  {
    LinkedBounded(pool, q, side, l);
    assert NodeOk(pool, q, k, side, l);
  }

  lemma UnlinkedVolume(pool: seq<Order>, q: seq<nat>, lv: PriceLevel, side: Side, l: nat, base: uint32, k: nat)
    requires |pool| <= NULL_IDX && LevelOk(pool, q, lv, side, l, base) && k < |q| && q[k] < |pool|
    ensures var q', pool' := WithoutSlot(q, k), UnlinkPool(pool, q[k]);
            && QView(pool', q') == BookSpec.Without(QView(pool, q), k)
            && UnlinkLevel(lv, pool[q[k]]).totalVolume == Wrap32(BookSpec.Volume(QView(pool', q')))
  {
    UnlinkNodes(pool, q, k, side, l);
    QViewWithout(pool, UnlinkPool(pool, q[k]), q, k);
    WrapSum(BookSpec.Volume(QView(pool, q)), pool[q[k]].qty);
  }

  lemma UnlinkedLevelOk(pool: seq<Order>, q: seq<nat>, lv: PriceLevel, side: Side, l: nat, base: uint32, k: nat)
    requires |pool| <= NULL_IDX && LevelOk(pool, q, lv, side, l, base) && k < |q| && q[k] < |pool|
    ensures LevelOk(UnlinkPool(pool, q[k]), WithoutSlot(q, k), UnlinkLevel(lv, pool[q[k]]), side, l, base)
  {
    UnlinkedEnds(pool, q, lv, side, l, base, k);
    UnlinkedVolume(pool, q, lv, side, l, base, k);
    assert Linked(UnlinkPool(pool, q[k]), WithoutSlot(q, k), side, l) by {
      UnlinkNodes(pool, q, k, side, l);
    }
  }

  lemma UnlinkedChange(s: Store, side: Side, l: nat, k: nat)
    requires Sized(s) && SideOk(s, side)
    requires l < |s.Qs(side)| && k < |s.Qs(side)[l]| && s.Qs(side)[l][k] < |s.pool|
    requires l < |s.Lad(side).levels| && l < 64 * |s.Lad(side).bitmap|
    ensures OneLevelChanged(s, Unlinked(s, side, l, k), side, l)
  {
    var q := s.Qs(side)[l];
    UseLevel(s, side, l);
    UnlinkNodes(s.pool, q, k, side, l);
  }

  lemma UnlinkedBitmap(s: Store, side: Side, l: nat, k: nat)
    requires Sized(s) && SideOk(s, side)
    requires l < |s.Qs(side)| && k < |s.Qs(side)[l]| && s.Qs(side)[l][k] < |s.pool|
    requires l < |s.Lad(side).levels| && l < 64 * |s.Lad(side).bitmap|
    ensures var s' := Unlinked(s, side, l, k); BitmapOk(s'.Lad(side).bitmap, s'.Qs(side))
  {
    UseLevel(s, side, l);
    UnlinkedEnds(s.pool, s.Qs(side)[l], s.Lad(side).levels[l], side, l, s.base, k);
    assert BitOk(s.Lad(side).bitmap, s.Qs(side), l);
    var s' := Unlinked(s, side, l, k);
    BitmapUpdate(s.Lad(side).bitmap, s'.Lad(side).bitmap, s.Qs(side), l, WithoutSlot(s.Qs(side)[l], k));
  }

  lemma UnlinkedOneLevel(s: Store, side: Side, l: nat, k: nat)
    requires Sized(s) && SideOk(s, Buy) && SideOk(s, Sell)
    requires l < |s.Qs(side)| && k < |s.Qs(side)[l]| && s.Qs(side)[l][k] < |s.pool|
    requires l < |s.Lad(side).levels| && l < 64 * |s.Lad(side).bitmap|
    ensures var s' := Unlinked(s, side, l, k);
            OneLevelChanged(s, s', side, l) && SideOk(s', Buy) && SideOk(s', Sell)
  {
    UnlinkedChange(s, side, l, k);
    UnlinkedBitmap(s, side, l, k);
    UseLevel(s, side, l);
    UnlinkedLevelOk(s.pool, s.Qs(side)[l], s.Lad(side).levels[l], side, l, s.base, k);
    FrameSides(s, Unlinked(s, side, l, k), side, l);
  }

  lemma WithoutSlotElems(q: seq<nat>, k: nat)
    requires Distinct(q) && k < |q|
    ensures Elems(WithoutSlot(q, k)) == Elems(q) - {q[k]}
  {
    DistinctPairs(q);
    forall x | x in q && x != q[k]
      ensures x in WithoutSlot(q, k)
    {
      var i :| 0 <= i < |q| && q[i] == x;
      assert WithoutSlot(q, k)[if i < k then i else i - 1] == x;
    }
  }

  lemma UnlinkedLive(s: Store, side: Side, l: nat, k: nat)
    requires Sized(s) && SideOk(s, Buy) && SideOk(s, Sell)
    requires l < |s.Qs(side)| && k < |s.Qs(side)[l]| && s.Qs(side)[l][k] < |s.pool|
    requires l < |s.Lad(side).levels| && l < 64 * |s.Lad(side).bitmap|
    ensures s.Qs(side)[l][k] in LiveSet(s)
    ensures LiveSet(Unlinked(s, side, l, k)) == LiveSet(s) - {s.Qs(side)[l][k]}
  {
    var s', q := Unlinked(s, side, l, k), s.Qs(side)[l];
    UnlinkedOneLevel(s, side, l, k);
    FrameLive(s, s', side, l);
    QueueIsLive(s, side, l);
    assert s'.Qs(side)[l] == WithoutSlot(q, k);
    UseLevel(s, side, l);
    WithoutSlotElems(q, k);
    assert q[k] in Elems(q);
  }

  /** Slots that are neither queued nor in hand keep their links when one level changes. */
  lemma FreeUntouched(pool: seq<Order>, pool': seq<Order>, head: uint32, free: seq<nat>, live: set<nat>,
                      held: set<nat>, q: seq<nat>)
    requires FreeChain(pool, head, free) && Partition(|pool|, free, live, held) && |pool'| == |pool|
    requires Elems(q) <= live
    requires forall x: nat :: x < |pool| && x !in q && x !in held ==> pool'[x] == pool[x]
    ensures FreeChain(pool', head, free)
  {
    forall i | 0 <= i < |free| && free[i] < |pool|
      ensures pool'[free[i]].next == pool[free[i]].next
    {
      FreeIsIdle(|pool|, free, live, held, i);
      assert free[i] !in Elems(q);
    }
    FreeChainFrame(pool, pool', head, free);
  }

  lemma FreeIsIdle(n: nat, free: seq<nat>, live: set<nat>, held: set<nat>, i: nat)
    requires Partition(n, free, live, held) && i < |free| && free[i] < n
    ensures free[i] !in live && free[i] !in held
  {
    assert free[i] in free;
  }

  lemma PartitionMove(n: nat, free: seq<nat>, live: set<nat>, x: nat)
    requires x < n && x in live
    ensures Partition(n, free, live, {}) <==> Partition(n, free, live - {x}, {x}) && x !in free
  {
    if Partition(n, free, live - {x}, {x}) && x !in free {
      forall y: nat | y < n
        ensures y in free <==> y !in live
      {
        assert y in live - {x} <==> y in live && y != x;
      }
    }
  }

  /** level_remove moves one order from its queue into the operation's hands. */
  lemma UnlinkedOk(s: Store, side: Side, l: nat, k: nat)
    requires Inv(s, {})
    requires l < |s.Qs(side)| && k < |s.Qs(side)[l]| && s.Qs(side)[l][k] < |s.pool|
    requires l < |s.Lad(side).levels| && l < 64 * |s.Lad(side).bitmap|
    ensures Inv(Unlinked(s, side, l, k), {s.Qs(side)[l][k]})
  {
    var s', x := Unlinked(s, side, l, k), s.Qs(side)[l][k];
    UnlinkedOneLevel(s, side, l, k);
    UnlinkedLive(s, side, l, k);
    QueueIsLive(s, side, l);
    UseLevel(s, side, l);
    UnlinkNodes(s.pool, s.Qs(side)[l], k, side, l);
    FreeUntouched(s.pool, s'.pool, s.freeHead, s.free, LiveSet(s), {}, s.Qs(side)[l]);
    PartitionMove(|s.pool|, s.free, LiveSet(s), x);
    InvFromParts(s', {x}, LiveSet(s) - {x});
  }

  lemma UnlinkedIds(s: Store, side: Side, l: nat, k: nat)
    requires Inv(s, {}) && IdsRep(s, {})
    requires l < |s.Qs(side)| && k < |s.Qs(side)[l]| && s.Qs(side)[l][k] < |s.pool|
    requires l < |s.Lad(side).levels| && l < 64 * |s.Lad(side).bitmap|
    ensures IdsRep(Unlinked(s, side, l, k), {s.Qs(side)[l][k]})
    ensures var x := s.Qs(side)[l][k]; s.pool[x].id in s.ids && s.ids[s.pool[x].id] == x
  {
    var s' := Unlinked(s, side, l, k);
    UnlinkedLive(s, side, l, k);
    UseLevel(s, side, l);
    UnlinkNodes(s.pool, s.Qs(side)[l], k, side, l);
    IdsFrame(s.pool, s'.pool, s.ids, LiveSet(s), LiveSet(s'), {s.Qs(side)[l][k]});
  }

  lemma IdsFrame(pool: seq<Order>, pool': seq<Order>, ids: map<uint64, uint32>, live: set<nat>, live': set<nat>,
                 gone: set<nat>)
    requires IdsOk(pool, ids, live, {}) && live' == live - gone && |pool'| == |pool|
    requires forall x :: 0 <= x < |pool| ==> pool'[x].id == pool[x].id
    ensures IdsOk(pool', ids, live', gone)
  {
  }

  // ---- id_map_.erase and pool_.deallocate ----

  lemma ErasedIds(pool: seq<Order>, ids: map<uint64, uint32>, live: set<nat>, x: nat)
    requires IdsOk(pool, ids, live, {x}) && x < |pool| && x !in live
    requires pool[x].id in ids && ids[pool[x].id] == x
    ensures IdsOk(pool, ids - {pool[x].id}, live, {})
  {
  }

  function Freed(s: Store, x: uint32): Store
    requires x < |s.pool|
  {
    s.(pool := s.pool[x := s.pool[x].(next := s.freeHead)], freeHead := x, free := [x as nat] + s.free)
  }

  lemma IdleLevel(s: Store, x: nat, o: Order, sd: Side, m: nat)
    requires SideOk(s, sd) && x < |s.pool| && !Live(s, x) && m < |s.Qs(sd)|
    ensures LevelOk(s.pool[x := o], s.Qs(sd)[m], s.Lad(sd).levels[m], sd, m, s.base)
    ensures QView(s.pool[x := o], s.Qs(sd)[m]) == QView(s.pool, s.Qs(sd)[m])
    ensures x !in s.Qs(sd)[m]
  {
    var q, pool' := s.Qs(sd)[m], s.pool[x := o];
    UseLevel(s, sd, m);
    forall i | 0 <= i < |q|
      ensures q[i] < |s.pool| && q[i] != x
    {
      QueuedIsLive(s, sd, m, q[i]);
    }
    LevelFrame(s.pool, pool', q, s.Lad(sd).levels[m], sd, m, s.base);
  }

  /** A slot queued nowhere changes nothing for anyone else, whatever is written to it. */
  lemma IdleSlot(s: Store, x: nat, o: Order)
    requires SideOk(s, Buy) && SideOk(s, Sell) && x < |s.pool| && !Live(s, x)
    ensures var s' := s.(pool := s.pool[x := o]); SideOk(s', Buy) && SideOk(s', Sell)
    ensures forall sd: Side :: LevelsView(s.pool[x := o], s.Qs(sd)) == LevelsView(s.pool, s.Qs(sd))
  {
    var s' := s.(pool := s.pool[x := o]);
    forall sd: Side
      ensures SideOk(s', sd) && LevelsView(s'.pool, s.Qs(sd)) == LevelsView(s.pool, s.Qs(sd))
    {
      assert SideOk(s, sd);
      forall m | 0 <= m < |s.Qs(sd)|
        ensures LevelAt(s'.pool, s.base, s.Lad(sd), s.Qs(sd), sd, m)
        ensures QView(s'.pool, s.Qs(sd)[m]) == QView(s.pool, s.Qs(sd)[m])
      {
        IdleLevel(s, x, o, sd, m);
      }
    }
  }

  lemma IdleLive(s: Store, x: nat, o: Order)
    requires SideOk(s, Buy) && SideOk(s, Sell) && x < |s.pool| && !Live(s, x)
    ensures LiveSet(s.(pool := s.pool[x := o])) == LiveSet(s)
  {
    var s' := s.(pool := s.pool[x := o]);
    forall y: nat | y < |s.pool|
      ensures Live(s', y) <==> Live(s, y)
    {
      IdleLiveAt(s, x, o, y);
    }
  }

  lemma IdleLiveAt(s: Store, x: nat, o: Order, y: nat)
    requires SideOk(s, Buy) && SideOk(s, Sell) && x < |s.pool| && !Live(s, x) && y < |s.pool|
    ensures Live(s.(pool := s.pool[x := o]), y) <==> Live(s, y)
  {
    if y == x && o.price < |s.Qs(o.side)| {
      IdleLevel(s, x, o, o.side, o.price);
    }
  }

  lemma FreedOk(s: Store, x: uint32)
    requires Inv(s, {x as nat}) && x < |s.pool|
    ensures Inv(Freed(s, x), {})
    ensures IdsRep(s, {}) ==> IdsRep(Freed(s, x), {})
    ensures forall sd: Side :: LevelsView(Freed(s, x).pool, s.Qs(sd)) == LevelsView(s.pool, s.Qs(sd))
  {
    var o := s.pool[x].(next := s.freeHead);
    var s1, s' := s.(pool := s.pool[x := o]), Freed(s, x);
    assert (x as nat) !in LiveSet(s);
    IdleSlot(s, x, o);
    IdleLive(s, x, o);
    SameQueues(s1, s');
    PushChain(s.pool, s.freeHead, s.free, x);
    PartitionFree(|s.pool|, s.free, LiveSet(s), x);
    if IdsRep(s, {}) {
      IdsFrame(s.pool, s'.pool, s.ids, LiveSet(s), LiveSet(s'), {});
    }
  }

  /** The free list and the id table have no part in what is queued. */
  lemma SameQueues(s: Store, s': Store)
    requires s'.pool == s.pool && s'.bids == s.bids && s'.asks == s.asks && s'.bidQ == s.bidQ && s'.askQ == s.askQ
             && s'.base == s.base
    ensures LiveSet(s') == LiveSet(s)
    ensures forall sd: Side :: SideOk(s', sd) <==> SideOk(s, sd)
  {
    assert forall y: nat :: Live(s', y) <==> Live(s, y);
  }

  lemma PartitionFree(n: nat, free: seq<nat>, live: set<nat>, x: nat)
    requires Partition(n, free, live, {x}) && x < n
    ensures Partition(n, [x] + free, live, {})
  {
  }

  // ---- partial fill ----

  /** The k-th order of a level loses m units; its level's volume follows. */
  function Shrunk(s: Store, side: Side, l: nat, k: nat, m: nat): Store
    requires l < |s.Qs(side)| && k < |s.Qs(side)[l]| && s.Qs(side)[l][k] < |s.pool| && l < |s.Lad(side).levels|
    requires m <= s.pool[s.Qs(side)[l][k]].qty
  {
    var x, lv := s.Qs(side)[l][k], s.Lad(side).levels[l];
    s.(pool := s.pool[x := s.pool[x].(qty := s.pool[x].qty - m)])
     .WithSide(side, s.Lad(side).(levels := s.Lad(side).levels[l := lv.(totalVolume := Wrap32(lv.totalVolume - m))]),
         s.Qs(side))
  }

  lemma {:induction false} VolumeReplace(v: BookSpec.Queue, k: nat, r: Resting)
    requires k < |v|
    ensures BookSpec.Volume(v[k := r]) == BookSpec.Volume(v) - v[k].qty + r.qty
  {
    var v' := v[k := r];
    VolumeSplit(v, k);
    VolumeSplit(v', k);
    assert v'[..k] == v[..k] && v'[k + 1..] == v[k + 1..];
  }

  lemma ShrunkLevelOk(pool: seq<Order>, q: seq<nat>, lv: PriceLevel, side: Side, l: nat, base: uint32, k: nat, m: nat)
    requires LevelOk(pool, q, lv, side, l, base) && k < |q| && q[k] < |pool| && m <= pool[q[k]].qty
    ensures var pool' := pool[q[k] := pool[q[k]].(qty := pool[q[k]].qty - m)];
            && LevelOk(pool', q, lv.(totalVolume := Wrap32(lv.totalVolume - m)), side, l, base)
            && QView(pool', q) == QView(pool, q)[k := Resting(pool[q[k]].id, pool[q[k]].qty - m)]
  {
    DistinctPairs(q);
    var pool' := pool[q[k] := pool[q[k]].(qty := pool[q[k]].qty - m)];
    assert Linked(pool', q, side, l) by {
      forall i | 0 <= i < |q|
        ensures NodeOk(pool', q, i, side, l)
      {
        assert NodeOk(pool, q, i, side, l);
      }
    }
    var v, r := QView(pool, q), Resting(pool[q[k]].id, pool[q[k]].qty - m);
    assert QView(pool', q) == v[k := r];
    VolumeReplace(v, k, r);
    WrapSum(BookSpec.Volume(v), m);
  }

  lemma ShrunkChange(s: Store, side: Side, l: nat, k: nat, m: nat)
    requires SideOk(s, side)
    requires l < |s.Qs(side)| && k < |s.Qs(side)[l]| && s.Qs(side)[l][k] < |s.pool| && l < |s.Lad(side).levels|
    requires m <= s.pool[s.Qs(side)[l][k]].qty
    ensures OneLevelChanged(s, Shrunk(s, side, l, k, m), side, l)
  {
    assert s.Qs(side)[l := s.Qs(side)[l]] == s.Qs(side);
    assert s.Qs(side)[l][k] in s.Qs(side)[l];
  }

  lemma ShrunkOneLevel(s: Store, side: Side, l: nat, k: nat, m: nat)
    requires Sized(s) && SideOk(s, Buy) && SideOk(s, Sell)
    requires l < |s.Qs(side)| && k < |s.Qs(side)[l]| && s.Qs(side)[l][k] < |s.pool| && l < |s.Lad(side).levels|
    requires m <= s.pool[s.Qs(side)[l][k]].qty
    ensures var s' := Shrunk(s, side, l, k, m);
            SideOk(s', Buy) && SideOk(s', Sell) && OneLevelChanged(s, s', side, l)
  {
    var s' := Shrunk(s, side, l, k, m);
    ShrunkChange(s, side, l, k, m);
    UseLevel(s, side, l);
    ShrunkLevelOk(s.pool, s.Qs(side)[l], s.Lad(side).levels[l], side, l, s.base, k, m);
    FrameSides(s, s', side, l);
  }

  lemma ShrunkLive(s: Store, side: Side, l: nat, k: nat, m: nat)
    requires Inv(s, {})
    requires l < |s.Qs(side)| && k < |s.Qs(side)[l]| && s.Qs(side)[l][k] < |s.pool| && l < |s.Lad(side).levels|
    requires m <= s.pool[s.Qs(side)[l][k]].qty
    ensures var s' := Shrunk(s, side, l, k, m); LiveSet(s') == LiveSet(s) && FreeChain(s'.pool, s.freeHead, s.free)
  {
    var s' := Shrunk(s, side, l, k, m);
    ShrunkOneLevel(s, side, l, k, m);
    FrameLive(s, s', side, l);
    QueueIsLive(s, side, l);
    assert s.Qs(side)[l][k] in s.Qs(side)[l];
    FreeUntouched(s.pool, s'.pool, s.freeHead, s.free, LiveSet(s), {}, s.Qs(side)[l]);
  }

  lemma ShrunkOk(s: Store, side: Side, l: nat, k: nat, m: nat)
    requires Inv(s, {}) && IdsRep(s, {})
    requires l < |s.Qs(side)| && k < |s.Qs(side)[l]| && s.Qs(side)[l][k] < |s.pool| && l < |s.Lad(side).levels|
    requires m <= s.pool[s.Qs(side)[l][k]].qty
    ensures var s' := Shrunk(s, side, l, k, m); Inv(s', {}) && IdsRep(s', {})
  {
    var s' := Shrunk(s, side, l, k, m);
    ShrunkOneLevel(s, side, l, k, m);
    ShrunkLive(s, side, l, k, m);
    IdsFrame(s.pool, s'.pool, s.ids, LiveSet(s), LiveSet(s'), {});
    InvFromParts(s', {}, LiveSet(s));
  }

  // ---- level_append ----

  function AppendLevel(lv: PriceLevel, x: uint32, qty: uint32): PriceLevel {
    lv.(head := if lv.head == NULL_IDX then x else lv.head,
        tail := x,
        totalVolume := Wrap32(lv.totalVolume + qty),
        count := Wrap32(lv.count + 1))
  }

  function AppendPool(pool: seq<Order>, x: uint32, lv: PriceLevel): seq<Order>
    requires x < |pool|
  {
    var p := pool[x := pool[x].(prev := lv.tail, next := NULL_IDX)];
    if lv.head == NULL_IDX then p else SetNext(p, lv.tail, x)
  }

  /** Slot x, in hand and addressed to this level, put at the end of the level's queue. */
  function Appended(s: Store, side: Side, l: nat, x: uint32): Store
    requires l < |s.Qs(side)| && l < |s.Lad(side).levels| && l < 64 * |s.Lad(side).bitmap| && x < |s.pool| <= NULL_IDX
  {
    var lad := s.Lad(side);
    var lv := lad.levels[l];
    s.(pool := AppendPool(s.pool, x, lv))
     .WithSide(side,
               Ladder(lad.levels[l := AppendLevel(lv, x, s.pool[x].qty)],
                      if lv.Empty() then Bitmap.SetBit(lad.bitmap, l) else lad.bitmap),
               s.Qs(side)[l := s.Qs(side)[l] + [x as nat]])
  }

  lemma AppendedNodes(pool: seq<Order>, q: seq<nat>, lv: PriceLevel, side: Side, l: nat, x: uint32)
    requires |pool| <= NULL_IDX && Linked(pool, q, side, l) && x < |pool| && (x as nat) !in q
    requires lv.head == LinkAt(q, 0) && lv.tail == LinkAt(q, |q| - 1)
    requires pool[x].side == side && pool[x].price == l
    ensures Linked(AppendPool(pool, x, lv), q + [x as nat], side, l)
    ensures |AppendPool(pool, x, lv)| == |pool|
    ensures forall y :: 0 <= y < |pool| && y !in q && y != x ==> AppendPool(pool, x, lv)[y] == pool[y]
    ensures forall y :: 0 <= y < |pool| ==>
              AppendPool(pool, x, lv)[y].id == pool[y].id && AppendPool(pool, x, lv)[y].qty == pool[y].qty
  {
    DistinctPairs(q);
    var pool', q' := AppendPool(pool, x, lv), q + [x as nat];
    if q != [] {
      assert NodeOk(pool, q, 0, side, l) && NodeOk(pool, q, |q| - 1, side, l);
    }
    forall i | 0 <= i < |q'|
      ensures NodeOk(pool', q', i, side, l)
    {
      if i < |q| {
        assert NodeOk(pool, q, i, side, l) && q[i] in q;
      }
    }
  }

  lemma AppendedLevelOk(pool: seq<Order>, q: seq<nat>, lv: PriceLevel, side: Side, l: nat, base: uint32, x: uint32)
    requires |pool| <= NULL_IDX && LevelOk(pool, q, lv, side, l, base) && x < |pool| && (x as nat) !in q
    requires pool[x].side == side && pool[x].price == l && lv.price == base + l
    ensures LevelOk(AppendPool(pool, x, lv), q + [x as nat], AppendLevel(lv, x, pool[x].qty), side, l, base)
    ensures QView(AppendPool(pool, x, lv), q + [x as nat]) == QView(pool, q) + [SlotView(pool, x)]
  {
    var pool', q' := AppendPool(pool, x, lv), q + [x as nat];
    AppendedNodes(pool, q, lv, side, l, x);
    LinkedBounded(pool, q, side, l);
    LinkedBounded(pool', q', side, l);
    assert QView(pool', q') == QView(pool, q) + [SlotView(pool, x)];
    assert BookSpec.Volume(QView(pool', q')) == BookSpec.Volume(QView(pool, q)) + pool[x].qty by {
      VolumeAppend(QView(pool, q), [SlotView(pool, x)]);
    }
    WrapSum(BookSpec.Volume(QView(pool, q)), pool[x].qty);
  }

  lemma AppendedChange(s: Store, side: Side, l: nat, x: uint32)
    requires Sized(s) && SideOk(s, side) && l < |s.Qs(side)| && x < |s.pool|
    requires l < |s.Lad(side).levels| && l < 64 * |s.Lad(side).bitmap|
    requires !Live(s, x) && (x as nat) !in s.Qs(side)[l]
    requires s.pool[x].side == side && s.pool[x].price == l
    ensures OneLevelChanged(s, Appended(s, side, l, x), side, l)
  {
    var q := s.Qs(side)[l];
    UseLevel(s, side, l);
    AppendedNodes(s.pool, q, s.Lad(side).levels[l], side, l, x);
  }

  lemma AppendedBitmap(s: Store, side: Side, l: nat, x: uint32)
    requires Sized(s) && SideOk(s, side) && l < |s.Qs(side)| && x < |s.pool|
    requires l < |s.Lad(side).levels| && l < 64 * |s.Lad(side).bitmap|
    ensures var s' := Appended(s, side, l, x); BitmapOk(s'.Lad(side).bitmap, s'.Qs(side))
  {
    var q := s.Qs(side)[l];
    UseLevel(s, side, l);
    LinkedBounded(s.pool, q, side, l);
    var s' := Appended(s, side, l, x);
    assert BitOk(s.Lad(side).bitmap, s.Qs(side), l);
    BitmapUpdate(s.Lad(side).bitmap, s'.Lad(side).bitmap, s.Qs(side), l, q + [x as nat]);
  }

  lemma AppendedOneLevel(s: Store, side: Side, l: nat, x: uint32)
    requires Inv(s, {x as nat}) && l < |s.Qs(side)| && x < |s.pool|
    requires l < |s.Lad(side).levels| && l < 64 * |s.Lad(side).bitmap|
    requires s.pool[x].side == side && s.pool[x].price == l && s.Lad(side).levels[l].price == s.base + l
    ensures (x as nat) !in s.Qs(side)[l]
    ensures var s' := Appended(s, side, l, x);
            OneLevelChanged(s, s', side, l) && SideOk(s', Buy) && SideOk(s', Sell)
  {
    assert !Live(s, x) && (x as nat) !in s.Qs(side)[l] by {
      QueueIsLive(s, side, l);
      assert (x as nat) !in LiveSet(s) && (x as nat) !in Elems(s.Qs(side)[l]);
    }
    AppendedChange(s, side, l, x);
    AppendedBitmap(s, side, l, x);
    UseLevel(s, side, l);
    AppendedLevelOk(s.pool, s.Qs(side)[l], s.Lad(side).levels[l], side, l, s.base, x);
    FrameSides(s, Appended(s, side, l, x), side, l);
  }

  lemma AppendedLive(s: Store, side: Side, l: nat, x: uint32)
    requires Inv(s, {x as nat}) && l < |s.Qs(side)| && x < |s.pool|
    requires l < |s.Lad(side).levels| && l < 64 * |s.Lad(side).bitmap|
    requires s.pool[x].side == side && s.pool[x].price == l && s.Lad(side).levels[l].price == s.base + l
    ensures LiveSet(Appended(s, side, l, x)) == LiveSet(s) + {x as nat}
  {
    var s', q := Appended(s, side, l, x), s.Qs(side)[l];
    AppendedOneLevel(s, side, l, x);
    FrameLive(s, s', side, l);
    QueueIsLive(s, side, l);
    assert s'.Qs(side)[l] == q + [x as nat];
    assert Elems(q + [x as nat]) == Elems(q) + {x as nat};
  }

  /** level_append moves the slot in hand into its queue. */
  lemma AppendedOk(s: Store, side: Side, l: nat, x: uint32)
    requires Inv(s, {x as nat}) && l < |s.Qs(side)| && x < |s.pool|
    requires l < |s.Lad(side).levels| && l < 64 * |s.Lad(side).bitmap|
    requires s.pool[x].side == side && s.pool[x].price == l && s.Lad(side).levels[l].price == s.base + l
    ensures Inv(Appended(s, side, l, x), {})
  {
    var s', q := Appended(s, side, l, x), s.Qs(side)[l];
    AppendedLive(s, side, l, x);
    PartitionQueue(|s.pool|, s.free, LiveSet(s), x);
    AppendedOneLevel(s, side, l, x);
    AppendedFree(s, side, l, x);
    InvFromParts(s', {}, LiveSet(s) + {x as nat});
  }

  lemma AppendedFree(s: Store, side: Side, l: nat, x: uint32)
    requires Inv(s, {x as nat}) && l < |s.Qs(side)| && x < |s.pool| && (x as nat) !in s.Qs(side)[l]
    requires l < |s.Lad(side).levels| && l < 64 * |s.Lad(side).bitmap|
    requires s.pool[x].side == side && s.pool[x].price == l
    ensures var s' := Appended(s, side, l, x); FreeChain(s'.pool, s.freeHead, s.free) && |s'.pool| == |s.pool|
  {
    var s', q := Appended(s, side, l, x), s.Qs(side)[l];
    QueueIsLive(s, side, l);
    UseLevel(s, side, l);
    AppendedNodes(s.pool, q, s.Lad(side).levels[l], side, l, x);
    FreeUntouched(s.pool, s'.pool, s.freeHead, s.free, LiveSet(s), {x as nat}, q);
  }

  lemma PartitionQueue(n: nat, free: seq<nat>, live: set<nat>, x: nat)
    requires Partition(n, free, live, {x}) && x < n
    ensures Partition(n, free, live + {x}, {})
  {
  }

  /** Entering the new id completes the table again. */
  lemma AppendedIds(pool: seq<Order>, pool': seq<Order>, ids: map<uint64, uint32>, live: set<nat>, x: uint32,
                    id: uint64)
    requires IdsOk(pool, ids, live, {}) && x < |pool| == |pool'| && id !in ids && pool[x].id == id
    requires forall y :: 0 <= y < |pool| ==> pool'[y].id == pool[y].id
    ensures IdsOk(pool', ids[id := x], live + {x as nat}, {})
  {
  }

  lemma {:induction false} IdsInSet(ids: map<uint64, uint32>, s: set<nat>)
    requires forall k :: k in ids ==> (ids[k] as nat) in s
    requires forall k, k' :: k in ids && k' in ids && ids[k] == ids[k'] ==> k == k'
    ensures |ids| <= |s|
    decreases s
  {
    if ids != map[] {
      var k :| k in ids;
      IdsInSet(ids - {k}, s - {ids[k] as nat});
      assert |ids| == |ids.Keys| && ids.Keys == (ids - {k}).Keys + {k};
    }
  }
}
