/** The order book over its pool, linked lists, bitmaps, id table and cached top of book. */
module OrderBooks {
  import opened Types
  import opened Pool
  import opened IdTable
  import opened BookStore
  import opened StoreSteps
  import opened StoreView
  import opened StoreSlide
  import opened BookSpec
  import opened BookIds
  import opened BookWf
  import Backshift
  import Bitmap
  import ProbeTable
  import RoundUp

  class OrderBook {
    const band: nat
    const pool: OrderPool
    const idMap: IdMap
    var tob: TopOfBook
    var base: uint32
    var baseSet: bool
    var liveOrderCount: uint32
    var bids: Ladder
    var asks: Ladder
    /** The trades handed to the logger, in order. */
    var log: seq<Trade>
    ghost var bidQ: seq<seq<nat>>
    ghost var askQ: seq<seq<nat>>

    ghost function St(): Store
      reads this, pool, pool.slots, idMap
    {
      Store(pool.slots[..], pool.freeHead, pool.free, bids, asks, bidQ, askQ, idMap.M, base)
    }

    ghost function View(): Book
      reads this, pool, pool.slots, idMap
    {
      ToBook(St(), tob, baseSet, liveOrderCount, log)
    }

    /** The redundant structures agree with each other. */
    ghost predicate Coherent()
      reads this, pool, pool.slots, idMap
    {
      && Sound(St())
      && |bidQ| == band
      && idMap.Valid() && idMap.cap >= 2 * pool.slots.Length
    }

    ghost predicate Valid()
      reads this, pool, pool.slots, idMap
    {
      Coherent() && Wf(View()) && (baseSet || EmptyBook(View()))
    }

    lemma PoolValid(held: set<nat>)
      requires Inv(St(), held)
      ensures pool.Valid()
    {
    }

    constructor (priceBand: uint32, maxOrders: uint32, hash: ProbeTable.Hash)
      requires 1 <= priceBand && 1 <= maxOrders <= 0x4000_0000
      ensures Valid() && fresh(pool) && fresh(pool.slots) && fresh(idMap)
      ensures band == priceBand && pool.slots.Length == maxOrders && RoundUp.LeastPow2From(2 * maxOrders, idMap.cap)
      ensures View() == Book(maxOrders, 0, false, 0, seq(priceBand, _ => []), seq(priceBand, _ => []),
                             TopOfBook(NULL_IDX, NULL_IDX, 0, 0), [])
    {
      var p := new OrderPool(maxOrders);
      var size := RoundUp.RoundUpPow2(Wrap32(2 * maxOrders));
      TableSize(2 * maxOrders, size);
      var m := new IdMap(size, hash);
      var words: Bitmap.Words := seq((priceBand + 63) / 64, _ => 0);
      band, pool, idMap := priceBand, p, m;
      tob := TopOfBook(NULL_IDX, NULL_IDX, 0, 0);
      base, baseSet, liveOrderCount, log := 0, false, 0, [];
      bids := Ladder(seq(priceBand, _ => EMPTY_LEVEL), words);
      asks := Ladder(seq(priceBand, _ => EMPTY_LEVEL), words);
      bidQ, askQ := seq(priceBand, _ => []), seq(priceBand, _ => []);
      new;
      FreshSide(St(), Buy);
      FreshSide(St(), Sell);
      FreshStore(St());
    }

    // ---- level_remove ----

    /** The pool writes of level_remove: bypass the slot and clear its links. */
    method BypassSlot(idx: uint32)
      requires idx < pool.slots.Length && Addressed(pool.slots[..], idx, pool.slots[idx].side, pool.slots[idx].price)
      modifies pool.slots
      ensures pool.slots[..] == UnlinkPool(old(pool.slots[..]), idx)
    {
      var o := pool.slots[idx];
      ghost var p0 := pool.slots[..];
      if o.prev != NULL_IDX {
        pool.slots[o.prev] := pool.slots[o.prev].(next := o.next);
      }
      ghost var p1 := pool.slots[..];
      assert p1 == SetNext(p0, o.prev, o.next);
      if o.next != NULL_IDX {
        pool.slots[o.next] := pool.slots[o.next].(prev := o.prev);
      }
      ghost var p2 := pool.slots[..];
      assert p2 == SetPrev(p1, o.next, o.prev);
      pool.slots[idx] := pool.slots[idx].(next := NULL_IDX, prev := NULL_IDX);
      assert pool.slots[..] == p2[idx := p2[idx].(next := NULL_IDX, prev := NULL_IDX)];
    }

    /** The level and bitmap writes of level_remove. */
    static method DropFromLevel(lad: Ladder, l: nat, o: Order) returns (r: Ladder)
      requires l < |lad.levels| && l < 64 * |lad.bitmap| && o.price == l
      ensures r == UnlinkedLadder(lad, l, o)
    {
      var lv := lad.levels[l];
      if o.prev == NULL_IDX {
        lv := lv.(head := o.next);
      }
      if o.next == NULL_IDX {
        lv := lv.(tail := o.prev);
      }
      lv := lv.(totalVolume := Wrap32(lv.totalVolume - o.qty));
      lv := lv.(count := Wrap32(lv.count - 1));
      var bitmap := lad.bitmap;
      if lv.Empty() {
        bitmap := Bitmap.ClearBit(bitmap, o.price);
      }
      r := Ladder(lad.levels[l := lv], bitmap);
    }

    method LevelRemove(side: Side, l: nat, idx: uint32, ghost k: nat)
      requires Queued(St(), side, l, k) && St().Qs(side)[l][k] == idx
      requires Addressed(pool.slots[..], idx, side, l)
      modifies this`bids, this`asks, this`bidQ, this`askQ, pool.slots
      ensures St() == Unlinked(old(St()), side, l, k)
      ensures St().Qs(side) == old(St()).Qs(side)[l := WithoutSlot(old(St()).Qs(side)[l], k)]
      ensures old(Inv(St(), {})) ==> Inv(St(), {idx as nat})
    {
      ghost var s := St();
      var lad := DropFromLevel(if side.Buy? then bids else asks, l, pool.slots[idx]);
      BypassSlot(idx);
      if side.Buy? {
        bids, bidQ := lad, bidQ[l := WithoutSlot(bidQ[l], k)];
      } else {
        asks, askQ := lad, askQ[l := WithoutSlot(askQ[l], k)];
      }
      if Inv(s, {}) {
        UnlinkedOk(s, side, l, k);
      }
    }

    /** The slot is the k-th of its level's queue. */
    ghost predicate Holds(side: Side, l: nat, k: nat, idx: uint32)
      reads this, pool, pool.slots, idMap
    {
      Queued(St(), side, l, k) && St().Qs(side)[l][k] == idx
    }

    /** level_remove, id_map_.erase and pool_.deallocate, as every removal strings them together. */
    method RemoveSlot(side: Side, l: nat, idx: uint32, ghost k: nat)
      requires Coherent() && Holds(side, l, k, idx)
      modifies this`bids, this`asks, this`bidQ, this`askQ, pool, pool.slots, idMap
      ensures Coherent() && St() == Removed(old(St()), side, l, k)
    {
      ghost var s := St();
      UnlinkedFields(s, side, l, k);
      NeighbourBounds(s, side, l, k);
      LevelRemove(side, l, idx, k);
      ghost var u := St();
      idMap.EraseCompacting(pool.slots[idx].id);
      SameQueues(u, St());
      InvFromParts(St(), {idx as nat}, LiveSet(u));
      PoolValid({idx as nat});
      pool.Deallocate(idx);
      RemovedOk(s, side, l, k);
      RemovedView(s, side, l, k);
    }

    /**
     The same with the id table's deletion as the source writes it: afterwards the structures agree with each other
     if and only if the deletion stopped safely.
     */
    method RemoveSlotAsWritten(side: Side, l: nat, idx: uint32, ghost k: nat)
      requires Coherent() && Holds(side, l, k, idx)
      modifies this`bids, this`asks, this`bidQ, this`askQ, pool, pool.slots, idMap
      ensures St() == Removed(old(St()), side, l, k)
      ensures |old(idMap.entries)| > 0 && idx < |old(pool.slots[..])|
      ensures var was := old(idMap.entries);
              var s := ProbeTable.Probe(idMap.hash, was, old(pool.slots[..])[idx].id);
              Coherent() <==> Backshift.StopsSafely(idMap.hash, was, s)
    {
      ghost var s := St();
      UnlinkedFields(s, side, l, k);
      NeighbourBounds(s, side, l, k);
      UnlinkedIds(s, side, l, k);
      LevelRemove(side, l, idx, k);
      ghost var u := St();
      idMap.Erase(pool.slots[idx].id);
      SameQueues(u, St());
      InvFromParts(St(), {idx as nat}, LiveSet(u));
      PoolValid({idx as nat});
      pool.Deallocate(idx);
      RemovedOk(s, side, l, k);
      RemovedView(s, side, l, k);
    }

    method RemoveOrder(side: Side, l: nat, idx: uint32, ghost k: nat)
      requires Coherent() && Holds(side, l, k, idx)
      modifies this`bids, this`asks, this`bidQ, this`askQ, pool, pool.slots, idMap
      ensures Coherent()
      ensures l < |old(View()).Lv(side)| && k < |old(View()).Lv(side)[l]|
      ensures View() == DropAt(old(View()), side, l, k)
      ensures St().Qs(side) == old(St().Qs(side))[l := WithoutSlot(old(St().Qs(side))[l], k)]
    {
      RemovedBook(St(), tob, baseSet, liveOrderCount, log, side, l, k);
      RemovedView(St(), side, l, k);
      RemoveSlot(side, l, idx, k);
    }

    // ---- top-of-book maintenance ----

    method UpdateBestBid()
      requires Coherent() && (tob.bestBid == NULL_IDX || tob.bestBid < band)
      modifies this`tob
      ensures View() == UpdateBest(old(View()), Buy)
    {
      hide FreeChain, IdsOk, Partition, BitmapOk, IdMap.Valid, Linked, Scan;
      BitmapCovers(St(), Buy, band - 1);
      var start := if tob.bestBid == NULL_IDX then |bids.levels| - 1 else tob.bestBid;
      var next := Bitmap.FindPrevSetBit(bids.bitmap, start);
      BitmapScanIs(St(), Buy, start, next);
      if next != NULL_IDX {
        LevelVolume(St(), Buy, next);
        tob := tob.(bestBid := next, bidQty := bids.levels[next].totalVolume);
      } else {
        tob := tob.(bestBid := NULL_IDX, bidQty := 0);
      }
    }

    method UpdateBestAsk()
      requires Coherent()
      modifies this`tob
      ensures View() == UpdateBest(old(View()), Sell)
    {
      BitmapCovers(St(), Sell, band - 1);
      var start := tob.bestAsk;
      if start >= |asks.levels| {
        start := 0;
      }
      var next := Bitmap.FindNextSetBit(asks.bitmap, start);
      BitmapScanIs(St(), Sell, start, next);
      if next != NULL_IDX {
        LevelVolume(St(), Sell, next);
        tob := tob.(bestAsk := next, askQty := asks.levels[next].totalVolume);
      } else {
        tob := tob.(bestAsk := NULL_IDX, askQty := 0);
      }
    }

    // ---- matching ----

    /** `o.qty -= m; level.total_volume -= m` */
    method ShrinkSlot(side: Side, l: nat, idx: uint32, m: uint32, ghost k: nat)
      requires Holds(side, l, k, idx) && m <= pool.slots[idx].qty
      modifies this`bids, this`asks, pool.slots
      ensures St() == Shrunk(old(St()), side, l, k, m)
    {
      ghost var s := St();
      pool.slots[idx] := pool.slots[idx].(qty := pool.slots[idx].qty - m);
      assert pool.slots[..] == s.pool[idx := s.pool[idx].(qty := s.pool[idx].qty - m)];
      var lad := if side.Buy? then bids else asks;
      var lv := lad.levels[l];
      lv := lv.(totalVolume := Wrap32(lv.totalVolume - m));
      if side.Buy? {
        bids := bids.(levels := bids.levels[l := lv]);
      } else {
        asks := asks.(levels := asks.levels[l := lv]);
      }
    }

    method ShrinkOrder(side: Side, l: nat, idx: uint32, m: uint32, ghost k: nat)
      requires Coherent() && Holds(side, l, k, idx) && m <= pool.slots[idx].qty
      modifies this`bids, this`asks, pool.slots
      ensures Coherent() && Holds(side, l, k, idx)
      ensures l < |old(View()).Lv(side)| && k < |old(View()).Lv(side)[l]|
      ensures old(View()).Lv(side)[l][k] == Resting(old(pool.slots[idx].id), old(pool.slots[idx].qty))
      ensures View() == Lowered(old(View()), side, l, k, m)
      ensures pool.slots[idx] == old(pool.slots[idx]).(qty := old(pool.slots[idx].qty) - m)
    {
      ghost var s := St();
      ShrunkBook(s, tob, baseSet, liveOrderCount, log, side, l, k, m);
      ShrunkOk(s, side, l, k, m);
      ShrunkFields(s, side, l, k, m);
      ShrinkSlot(side, l, idx, m, k);
    }

    /** The head of a level trades m units and leaves if nothing of it remains. */
    method FillSlot(side: Side, l: nat, idx: uint32, m: uint32) returns (gone: bool)
      requires Coherent() && Holds(side, l, 0, idx) && m <= pool.slots[idx].qty
      modifies this`bids, this`asks, this`bidQ, this`askQ, pool, pool.slots, idMap
      ensures Coherent() && gone == (m == old(pool.slots[idx].qty))
      ensures l < |old(View()).Lv(side)| && 0 < |old(View()).Lv(side)[l]|
      ensures old(View()).Lv(side)[l][0] == Resting(old(pool.slots[idx].id), old(pool.slots[idx].qty))
      ensures View() == FillQueue(old(View()), side, l, m)
      ensures gone ==> St().Qs(side) == old(St().Qs(side))[l := old(St().Qs(side))[l][1..]]
    {
      ghost var qs := St().Qs(side);
      ShrinkOrder(side, l, idx, m, 0);
      assert St().Qs(side) == qs;
      gone := pool.slots[idx].qty == 0;
      if gone {
        RemoveOrder(side, l, idx, 0);
        assert WithoutSlot(qs[l], 0) == qs[l][1..];
      }
    }

    /** One turn of the inner matching loop: trade with the order at the head of the best level. */
    method FillHead(side: Side, l: nat, idx: uint32, taker: uint64, remaining: uint32) returns (m: uint32, next: uint32)
      requires Coherent() && Holds(side, l, 0, idx) && View().Best(side) == l
      modifies this`bids, this`asks, this`bidQ, this`askQ, this`log, this`liveOrderCount, pool, pool.slots, idMap
      ensures Coherent()
      ensures l < |old(View()).Lv(side)| && old(View()).Lv(side)[l] != []
      ensures m == FillQty(old(View()), side, remaining) && View() == FillFront(old(View()), side, taker, remaining)
      ensures m < remaining ==> St().Qs(side) == old(St().Qs(side))[l := old(St().Qs(side))[l][1..]]
      ensures next == old(pool.slots[idx].next)
    {
      hide FillQueue, FreeChain, IdsOk, Partition, IdMap.Valid, Inv;
      ghost var v := View();
      QueuedInSound(St(), side, l, 0);
      FillFrontSteps(v, side, taker, remaining);
      var o := pool.slots[idx];
      next := o.next;
      m := Min(remaining, o.qty);
      var price := if side.Buy? then bids.levels[l].price else asks.levels[l].price;
      var t := Trade(o.id, taker, price, m);
      assert t == Trade(v.Lv(side)[l][0].id, taker, v.base + l, FillQty(v, side, remaining));
      var gone := FillSlot(side, l, idx, m);
      ghost var v' := View();
      log := log + [t];
      if gone && liveOrderCount > 0 {
        liveOrderCount := liveOrderCount - 1;
      }
      assert liveOrderCount == if m == v.Lv(side)[l][0].qty then SatSub(v.live, 1) else v.live;
      assert View() == Accounted(v', t, liveOrderCount);
      assert View() == FillFront(v, side, taker, remaining);
    }

    lemma HeadHeld(side: Side, l: nat, idx: uint32)
      requires Coherent() && l < band && idx == HeadOf(St(), side, l) && idx != NULL_IDX
      ensures Holds(side, l, 0, idx)
      ensures pool.slots[idx].next == LinkAt(St().Qs(side)[l][1..], 0)
      ensures View().Lv(side)[l] != []
    {
      QueuedInSound(St(), side, l, 0);
    }

    /** The body of the inner matching loop. */
    method FillNext(side: Side, l: nat, idx: uint32, taker: uint64, ghost limit: nat, qty: uint32,
                    ghost goal: (Book, uint32))
      returns (remaining: uint32, next: uint32)
      requires Coherent() && OnTrack(View(), side, l, taker, limit, qty, goal)
      requires qty > 0 && l < band && idx == HeadOf(St(), side, l) && idx != NULL_IDX
      modifies this`bids, this`asks, this`bidQ, this`askQ, this`log, this`liveOrderCount, pool, pool.slots, idMap
      ensures Coherent() && OnTrack(View(), side, l, taker, limit, remaining, goal)
      ensures Count(View().Lv(side)) + remaining < Count(old(View()).Lv(side)) + qty
      ensures remaining > 0 ==> next == HeadOf(St(), side, l)
    {
      hide Inv, Sweep, Refresh;
      HeadHeld(side, l, idx);
      OnTrackStep(View(), side, l, taker, limit, qty, goal);
      ghost var filled := FillFront(View(), side, taker, qty);
      ghost var left := qty - FillQty(View(), side, qty);
      var m: uint32;
      m, next := FillHead(side, l, idx, taker, qty);
      assert View() == filled && qty - m == left;
      remaining := qty - m;
    }

    /** The inner matching loop: work down the queue of the best level, oldest order first. */
    method DrainLevel(side: Side, l: nat, taker: uint64, ghost limit: nat, qty: uint32, ghost goal: (Book, uint32))
      returns (remaining: uint32)
      requires Coherent() && OnTrack(View(), side, l, taker, limit, qty, goal)
      requires qty > 0 && l < band && View().Lv(side)[l] != []
      modifies this`bids, this`asks, this`bidQ, this`askQ, this`log, this`liveOrderCount, pool, pool.slots, idMap
      ensures Coherent() && OnTrack(View(), side, l, taker, limit, remaining, goal)
      ensures Count(View().Lv(side)) + remaining < Count(old(View()).Lv(side)) + qty
    {
      hide OnTrack, FreeChain, IdsOk, Partition, Sweep;
      remaining := qty;
      LevelVolume(St(), side, l);
      var idx: uint32 := if side.Buy? then bids.levels[l].head else asks.levels[l].head;
      ghost var size := Count(View().Lv(side)) + qty;
      while idx != NULL_IDX && remaining > 0
        invariant Coherent() && OnTrack(View(), side, l, taker, limit, remaining, goal)
        invariant remaining > 0 ==> idx == HeadOf(St(), side, l)
        invariant Count(View().Lv(side)) + remaining <= size
        invariant Count(View().Lv(side)) + remaining == size ==> idx != NULL_IDX && remaining > 0
        decreases Count(View().Lv(side)) + remaining
      {
        remaining, idx := FillNext(side, l, idx, taker, limit, remaining, goal);
      }
    }

    /** `if (level.empty()) update_best else qty = level.total_volume`, for the level that is the cached best. */
    method RefreshBest(side: Side, l: nat)
      requires Coherent() && l < band && View().Best(side) == l
      modifies this`tob
      ensures Coherent() && View() == Refresh(old(View()), side)
    {
      LevelVolume(St(), side, l);
      if side.Buy? {
        if bids.levels[l].Empty() {
          UpdateBestBid();
        } else {
          tob := tob.(bidQty := bids.levels[l].totalVolume);
        }
      } else {
        if asks.levels[l].Empty() {
          UpdateBestAsk();
        } else {
          tob := tob.(askQty := asks.levels[l].totalVolume);
        }
      }
    }

    method MatchAgainstAsks(taker: uint64, limit: uint32, qty: uint32) returns (remaining: uint32)
      requires Coherent() && Wf(View()) && limit < band
      modifies this`bids, this`asks, this`bidQ, this`askQ, this`tob, this`log, this`liveOrderCount, pool, pool.slots,
               idMap
      ensures Coherent() && (View(), remaining) == Sweep(old(View()), Sell, taker, limit, qty)
    {
      remaining := qty;
      ghost var goal := Sweep(View(), Sell, taker, limit, qty);
      while remaining > 0
        invariant Coherent() && Tracking(View(), Sell, taker, limit, remaining, goal)
        decreases Count(View().Lv(Sell)) + remaining
      {
        var best := tob.bestAsk;
        if best > limit {
          break;
        }
        TrackEnter(View(), Sell, taker, limit, remaining, goal);
        remaining := DrainLevel(Sell, best, taker, limit, remaining, goal);
        TrackLeave(View(), Sell, best, taker, limit, remaining, goal);
        RefreshBest(Sell, best);
      }
      TrackDone(View(), Sell, taker, limit, remaining, goal);
    }

    method MatchAgainstBids(taker: uint64, limit: uint32, qty: uint32) returns (remaining: uint32)
      requires Coherent() && Wf(View())
      modifies this`bids, this`asks, this`bidQ, this`askQ, this`tob, this`log, this`liveOrderCount, pool, pool.slots,
               idMap
      ensures Coherent() && (View(), remaining) == Sweep(old(View()), Buy, taker, limit, qty)
    {
      remaining := qty;
      ghost var goal := Sweep(View(), Buy, taker, limit, qty);
      while remaining > 0
        invariant Coherent() && Tracking(View(), Buy, taker, limit, remaining, goal)
        decreases Count(View().Lv(Buy)) + remaining
      {
        var best := tob.bestBid;
        if best == NULL_IDX || best < limit {
          break;
        }
        TrackEnter(View(), Buy, taker, limit, remaining, goal);
        LevelVolume(St(), Buy, best);
        if bids.levels[best].Empty() {
          break;
        }
        remaining := DrainLevel(Buy, best, taker, limit, remaining, goal);
        TrackLeave(View(), Buy, best, taker, limit, remaining, goal);
        RefreshBest(Buy, best);
      }
      TrackDone(View(), Buy, taker, limit, remaining, goal);
    }

    method ProcessMarketOrder(side: Side, qty: uint32)
      requires Valid()
      modifies this`bids, this`asks, this`bidQ, this`askQ, this`tob, this`log, this`liveOrderCount, pool, pool.slots,
               idMap
      ensures Valid() && View() == Market(old(View()), side, qty)
    {
      hide IdMap.Valid, Linked, LevelOk, Sweep;
      MarketWf(View(), side, qty);
      if !baseSet {
        MarketOnEmpty(View(), side, qty);
      }
      var remaining: uint32;
      if side.Buy? {
        remaining := MatchAgainstAsks(0, |asks.levels| - 1, qty);
      } else {
        remaining := MatchAgainstBids(0, 0, qty);
      }
    }

    // ---- operations on one resting order ----

    /** Take an order out and bring the top of book up to date if it stood at the best level. */
    method TakeOut(side: Side, l: nat, idx: uint32, ghost k: nat)
      requires Coherent() && l < band && Holds(side, l, k, idx)
      modifies this`bids, this`asks, this`bidQ, this`askQ, this`tob, pool, pool.slots, idMap
      ensures Coherent() && ValidPlace(old(View()), At(side, l, k))
      ensures View() == RemoveAt(old(View()), At(side, l, k))
    {
      RemoveOrder(side, l, idx, k);
      if side.Buy? {
        if l == tob.bestBid {
          RefreshBest(Buy, l);
        }
      } else {
        if l == tob.bestAsk {
          RefreshBest(Sell, l);
        }
      }
    }

    method CancelOrder(id: uint64)
      requires Valid()
      modifies this`bids, this`asks, this`bidQ, this`askQ, this`tob, pool, pool.slots, idMap
      ensures Valid() && View() == Cancel(old(View()), id)
    {
      CancelWf(View(), id);
      CancelOnEmpty(View(), id);
      ghost var k := LocateStored(St(), tob, baseSet, liveOrderCount, log, id);
      var idx := idMap.Find(id);
      if id in St().ids {
        StoredIsNotNull(St(), id);
      }
      if idx == NULL_IDX {
        return;
      }
      TakeOut(pool.slots[idx].side, pool.slots[idx].price, idx, k);
    }

    /** The side of a resting order, as callers read it through get_id_map and get_pool. */
    method FindSide(id: uint64) returns (found: bool, side: Side)
      requires Valid()
      ensures found == Locate(View(), id).At? && (found ==> side == Locate(View(), id).side)
    {
      ghost var k := LocateStored(St(), tob, baseSet, liveOrderCount, log, id);
      if id in St().ids {
        StoredIsNotNull(St(), id);
      }
      var idx := idMap.Find(id);
      if idx == NULL_IDX {
        return false, Buy;
      }
      return true, pool.slots[idx].side;
    }

    /** Lower an order in place and bring the cached quantity up to date if it stands at the best level. */
    method LowerInPlace(side: Side, l: nat, idx: uint32, amount: uint32, ghost k: nat)
      requires Coherent() && l < band && Holds(side, l, k, idx) && amount < pool.slots[idx].qty
      modifies this`bids, this`asks, this`tob, pool.slots
      ensures Coherent() && ValidPlace(old(View()), At(side, l, k))
      ensures amount <= OrderAt(old(View()), At(side, l, k)).qty
      ensures View() == ReduceAt(old(View()), At(side, l, k), amount)
    {
      hide FreeChain, IdsOk, Partition, Inv, IdMap.Valid;
      ShrinkOrder(side, l, idx, amount, k);
      assert View().Lv(side)[l] != [];
      LevelVolume(St(), side, l);
      if side.Buy? && l == tob.bestBid {
        tob := tob.(bidQty := bids.levels[l].totalVolume);
      } else if side.Sell? && l == tob.bestAsk {
        tob := tob.(askQty := asks.levels[l].totalVolume);
      }
    }

    method ExecuteOrder(id: uint64, fill: uint32) returns (gone: bool)
      requires Valid()
      modifies this`bids, this`asks, this`bidQ, this`askQ, this`tob, this`log, this`liveOrderCount, pool, pool.slots,
               idMap
      ensures Valid() && (View(), gone) == Execute(old(View()), id, fill)
    {
      ExecuteWf(View(), id, fill);
      CancelOnEmpty(View(), id);
      ghost var k := LocateStored(St(), tob, baseSet, liveOrderCount, log, id);
      if id in St().ids {
        StoredIsNotNull(St(), id);
      }
      var idx := idMap.Find(id);
      if idx == NULL_IDX {
        return false;
      }
      gone := ExecuteSlot(id, idx, fill, k);
    }

    method ExecuteSlot(id: uint64, idx: uint32, fill: uint32, ghost k: nat) returns (gone: bool)
      requires Coherent() && idx < pool.slots.Length && pool.slots[idx].price < band
      requires Holds(pool.slots[idx].side, pool.slots[idx].price, k, idx)
      requires Locate(View(), id) == At(pool.slots[idx].side, pool.slots[idx].price, k)
      requires ValidPlace(View(), Locate(View(), id))
               && OrderAt(View(), Locate(View(), id)) == Resting(id, pool.slots[idx].qty)
      requires St().Lad(pool.slots[idx].side).levels[pool.slots[idx].price].price == base + pool.slots[idx].price
      requires pool.slots[idx].id == id
      modifies this`bids, this`asks, this`bidQ, this`askQ, this`tob, this`log, this`liveOrderCount, pool, pool.slots,
               idMap
      ensures Coherent() && (View(), gone) == Execute(old(View()), id, fill)
    {
      hide Execute, RemoveAt, ReduceAt, Locate, FreeChain, IdsOk, Partition, IdMap.Valid;
      ghost var v := View();
      ExecuteSteps(v, id, fill);
      var o := pool.slots[idx];
      var absPrice := if o.side.Buy? then bids.levels[o.price].price else asks.levels[o.price].price;
      gone := fill >= o.qty;
      var t := Trade(o.id, 0, absPrice, if gone then o.qty else fill);
      if gone {
        TakeOut(o.side, o.price, idx, k);
      } else {
        LowerInPlace(o.side, o.price, idx, fill, k);
      }
      ghost var v' := View();
      log := log + [t];
      if gone && liveOrderCount > 0 {
        liveOrderCount := liveOrderCount - 1;
      }
      assert liveOrderCount == if gone then SatSub(v.live, 1) else v.live;
      assert t == Trade(id, 0, v.base + o.price, if gone then o.qty else fill);
      assert View() == Accounted(v', t, liveOrderCount);
    }

    method ReduceOrderQty(id: uint64, amount: uint32) returns (gone: bool)
      requires Valid()
      modifies this`bids, this`asks, this`bidQ, this`askQ, this`tob, pool, pool.slots, idMap
      ensures Valid() && (View(), gone) == Reduce(old(View()), id, amount)
    {
      ReduceWf(View(), id, amount);
      CancelOnEmpty(View(), id);
      ghost var k := LocateStored(St(), tob, baseSet, liveOrderCount, log, id);
      if id in St().ids {
        StoredIsNotNull(St(), id);
      }
      var idx := idMap.Find(id);
      if idx == NULL_IDX {
        return false;
      }
      if amount >= pool.slots[idx].qty {
        CancelOrder(id);
        return true;
      }
      LowerInPlace(pool.slots[idx].side, pool.slots[idx].price, idx, amount, k);
      gone := false;
    }

    // ---- re-basing ----

    /** One order of a level that leaves the window. */
    method DropNode(j: uint32, ghost s: Store, ghost gone: set<nat>, ghost moved: set<nat>, ghost newBase: uint32)
      returns (next: uint32)
      requires Sliding(s, St(), gone, moved, newBase) && idMap.Valid()
      requires (j as nat) in LiveSet(s) && (j as nat) !in gone && (j as nat) !in moved
      modifies this`liveOrderCount, pool, pool.slots, idMap
      ensures Sliding(s, St(), gone + {j as nat}, moved, newBase) && idMap.Valid()
      ensures j < |s.pool| && next == s.pool[j].next
      ensures |pool.free| == old(|pool.free|) + 1 && liveOrderCount == SatSub(old(liveOrderCount), 1)
    {
      ghost var r := St();
      Waiting(s, r, gone, moved, newBase, j);
      DropStep(s, r, gone, moved, newBase, j);
      next := pool.slots[j].next;
      idMap.EraseCompacting(pool.slots[j].id);
      pool.Deallocate(j);
      assert St() == Freed(r.(ids := r.ids - {r.pool[j].id}), j);
      if liveOrderCount > 0 {
        liveOrderCount := liveOrderCount - 1;
      }
    }

    /** The same with the deletion as the source writes it: the id table is exact afterwards iff it stopped safely. */
    method DropNodeAsWritten(j: uint32, ghost s: Store, ghost gone: set<nat>, ghost moved: set<nat>,
                             ghost newBase: uint32)
      returns (next: uint32)
      requires Sliding(s, St(), gone, moved, newBase) && idMap.Valid()
      requires (j as nat) in LiveSet(s) && (j as nat) !in gone && (j as nat) !in moved
      modifies this`liveOrderCount, pool, pool.slots, idMap
      ensures Sliding(s, St(), gone + {j as nat}, moved, newBase)
      ensures j < |s.pool| && next == s.pool[j].next
      ensures |pool.free| == old(|pool.free|) + 1 && liveOrderCount == SatSub(old(liveOrderCount), 1)
      ensures |old(idMap.entries)| > 0 && j < |old(pool.slots[..])|
      ensures var was := old(idMap.entries);
              idMap.Valid() <==>
                Backshift.StopsSafely(idMap.hash, was, ProbeTable.Probe(idMap.hash, was, old(pool.slots[..])[j].id))
    {
      hide SlotFate, FreeFate, FreeChain, IdMap.Valid;
      ghost var r := St();
      Waiting(s, r, gone, moved, newBase, j);
      DropStep(s, r, gone, moved, newBase, j);
      assert IdFate(s, r.ids, gone, r.pool[j].id);
      next := pool.slots[j].next;
      idMap.Erase(pool.slots[j].id);
      pool.Deallocate(j);
      assert St() == Freed(r.(ids := r.ids - {r.pool[j].id}), j);
      if liveOrderCount > 0 {
        liveOrderCount := liveOrderCount - 1;
      }
    }

    /** The loop that drops a whole level. */
    method DropLevel(side: Side, l: nat, ghost s: Store, ghost gone: set<nat>, ghost moved: set<nat>,
                     ghost newBase: uint32)
      requires Sliding(s, St(), gone, moved, newBase) && idMap.Valid()
      requires l < |s.Qs(side)| && Elems(s.Qs(side)[l]) !! gone && Elems(s.Qs(side)[l]) !! moved
      modifies this`liveOrderCount, pool, pool.slots, idMap
      ensures Sliding(s, St(), gone + Elems(s.Qs(side)[l]), moved, newBase) && idMap.Valid()
      ensures |pool.free| == old(|pool.free|) + |s.Qs(side)[l]|
      ensures liveOrderCount == SatSub(old(liveOrderCount), |s.Qs(side)[l]|)
    {
      hide SlotFate, FreeFate, IdFate, FreeChain, SideSlots, MovedLevels, MovedQueues, BitmapOk, IdsOk, Partition,
           Linked, IdMap.Valid;
      ghost var q := s.Qs(side)[l];
      LevelVolume(s, side, l);
      QueueDistinct(s, side, l);
      DistinctPairs(q);
      var j := if side.Buy? then bids.levels[l].head else asks.levels[l].head;
      ghost var k := 0;
      assert gone + Elems(q[..0]) == gone;
      while j != NULL_IDX
        invariant k <= |q| && j == LinkAt(q, k)
        invariant Sliding(s, St(), gone + Elems(q[..k]), moved, newBase) && idMap.Valid()
        invariant |pool.free| == old(|pool.free|) + k && liveOrderCount == SatSub(old(liveOrderCount), k)
        decreases |q| - k
      {
        QueuedInSound(s, side, l, k);
        QueuedIsLive(s, side, l, q[k]);
        assert q[k] in q;
        j := DropNode(j, s, gone + Elems(q[..k]), moved, newBase);
        assert gone + Elems(q[..k]) + {q[k]} == gone + Elems(q[..k + 1]);
        k := k + 1;
      }
      QueuedBounded(s, side, l, k);
      assert q[..|q|] == q;
    }

    /** One turn of the loop that moves a level. */
    method MoveNode(j: uint32, nr: uint32, dst: PriceLevel) returns (grown: PriceLevel, next: uint32)
      requires j < pool.slots.Length <= NULL_IDX && (dst.head == NULL_IDX || dst.tail < pool.slots.Length)
      modifies pool.slots
      ensures pool.slots[..] == MoveNodePool(old(pool.slots[..]), j, nr, dst)
      ensures grown == MoveNodeLevel(dst, j, old(pool.slots[j].qty)) && next == old(pool.slots[j].next)
    {
      ghost var p := pool.slots[..];
      pool.slots[j] := pool.slots[j].(price := nr);
      next := pool.slots[j].next;
      grown := dst;
      ghost var p0 := pool.slots[..];
      assert p0 == p[j := Order(p[j].id, p[j].next, p[j].prev, nr, p[j].qty, p[j].side)];
      if dst.head == NULL_IDX {
        grown := grown.(head := j);
        pool.slots[j] := pool.slots[j].(prev := NULL_IDX);
        assert pool.slots[..] == SetPrev(p0, j, NULL_IDX);
      } else {
        pool.slots[dst.tail] := pool.slots[dst.tail].(next := j);
        assert pool.slots[..] == SetNext(p0, dst.tail, j);
        pool.slots[j] := pool.slots[j].(prev := dst.tail);
        assert pool.slots[..] == SetPrev(SetNext(p0, dst.tail, j), j, dst.tail);
      }
      ghost var p1 := pool.slots[..];
      grown := grown.(tail := j);
      pool.slots[j] := pool.slots[j].(next := NULL_IDX);
      assert pool.slots[..] == SetNext(p1, j, NULL_IDX);
      grown := grown.(totalVolume := Wrap32(grown.totalVolume + pool.slots[j].qty));
      grown := grown.(count := Wrap32(grown.count + 1));
    }

    /** The loop that moves a whole level. */
    method MoveLevel(side: Side, l: nat, absPrice: uint32, nr: uint32,
                     ghost s: Store, ghost gone: set<nat>, ghost moved: set<nat>, ghost newBase: uint32)
      returns (dst: PriceLevel)
      requires Sliding(s, St(), gone, moved, newBase)
      requires l < |s.Qs(side)| && s.Qs(side)[l] != [] && Elems(s.Qs(side)[l]) !! gone && Elems(s.Qs(side)[l]) !! moved
      requires absPrice == s.base + l && nr == s.base + l - newBase
      modifies pool.slots
      ensures Sliding(s, St(), gone, moved + Elems(s.Qs(side)[l]), newBase)
      ensures l < |s.Lad(side).levels| && dst == s.Lad(side).levels[l]
    {
      hide Inv, Linked, LevelOk;
      ghost var r, k := St(), 0;
      LevelVolume(s, side, l);
      MovingStart(s, r, gone, moved, newBase, side, l);
      dst := EMPTY_LEVEL.(price := absPrice);
      var j := if side.Buy? then bids.levels[l].head else asks.levels[l].head;
      while j != NULL_IDX
        invariant k <= |s.Qs(side)[l]| && j == LinkAt(s.Qs(side)[l], k)
        invariant Moving(s, r, gone, moved, newBase, side, l, k, pool.slots[..], dst)
        invariant r == St().(pool := r.pool)
        decreases |s.Qs(side)[l]| - k
      {
        r := MovingStep(s, r, gone, moved, newBase, side, l, k, pool.slots[..], dst, nr);
        dst, j := MoveNode(j, nr, dst);
        k := k + 1;
      }
      MovingEnd(s, r, gone, moved, newBase, side, l, k, pool.slots[..], dst);
    }

    /** One turn of the loop over a side's levels. */
    method MoveOrDrop(side: Side, idx: nat, newBase: uint32, lad: Ladder,
                      ghost s: Store, ghost gone: set<nat>, ghost moved: set<nat>) returns (next: Ladder)
      requires SideMoved(s, St(), side, newBase, gone, moved, idx, lad) && idMap.Valid() && idx < |s.Qs(side)|
      modifies this`liveOrderCount, pool, pool.slots, idMap
      ensures SideMoved(s, St(), side, newBase, gone, moved, idx + 1, next) && idMap.Valid()
      ensures |pool.free| == old(|pool.free|) + LostAt(s, side, newBase, idx)
      ensures liveOrderCount == SatSub(old(liveOrderCount), LostAt(s, side, newBase, idx))
    {
      hide SlotFate, FreeFate, IdFate, FreeChain, SideSlots, MovedLevels, MovedQueues, BitmapOk, IdsOk, Partition,
           LevelOk, LinkAt, IdMap.Valid;
      ghost var r := St();
      ghost var g := gone + SideSlots(s, side, newBase, idx, false);
      ghost var m := moved + SideSlots(s, side, newBase, idx, true);
      NextLevelWaits(s, r, side, newBase, gone, moved, idx, lad);
      LevelVolume(s, side, idx);
      var lvl := if side.Buy? then bids.levels[idx] else asks.levels[idx];
      next := lad;
      if lvl.Empty() {
        assert g + Elems([]) == g;
        SideMovedSkip(s, r, St(), side, newBase, gone, moved, idx, lad);
        return;
      }
      var absPrice := Wrap32(base + idx);
      var newRel := absPrice - newBase;
      if newRel < 0 || newRel >= |bids.levels| {
        DropLevel(side, idx, s, g, m, newBase);
        SideMovedSkip(s, r, St(), side, newBase, gone, moved, idx, lad);
        return;
      }
      var dst := MoveLevel(side, idx, absPrice, newRel, s, g, m, newBase);
      SideMovedKeep(s, r, St(), side, newBase, gone, moved, idx, lad, newRel);
      next := Ladder(lad.levels[newRel := dst], Bitmap.SetBit(lad.bitmap, newRel));
    }

    /** The loop over one side's levels: each is moved into the new window or dropped. */
    method MoveSide(side: Side, newBase: uint32, ghost s: Store, ghost gone: set<nat>, ghost moved: set<nat>)
      returns (lad: Ladder)
      requires Sliding(s, St(), gone, moved, newBase) && OtherSide(s, side, gone) && OtherSide(s, side, moved)
               && idMap.Valid()
      modifies this`liveOrderCount, pool, pool.slots, idMap
      ensures SideMoved(s, St(), side, newBase, gone, moved, |s.Qs(side)|, lad) && idMap.Valid()
      ensures |pool.free| == old(|pool.free|) + LostIn(s, side, newBase)
      ensures liveOrderCount == SatSub(old(liveOrderCount), LostIn(s, side, newBase))
    {
      hide SlotFate, FreeFate, IdFate, FreeChain, SideSlots, MovedLevels, MovedQueues, BitmapOk, IdsOk, Partition,
           Wrap32, SideMoved, OtherSide, Inv;
      SidesSized(s);
      var n := |bids.levels|;
      var words: Bitmap.Words := seq((n + 63) / 64, _ => 0);
      lad := Ladder(seq(n, _ => EMPTY_LEVEL), words);
      SideMovedStart(s, St(), side, newBase, gone, moved, lad);
      ghost var lost: nat := 0;
      for idx := 0 to n
        invariant SideMoved(s, St(), side, newBase, gone, moved, idx, lad) && idMap.Valid()
        invariant Tally(s, side, newBase, idx, lost)
        invariant |pool.free| == old(|pool.free|) + lost && liveOrderCount == SatSub(old(liveOrderCount), lost)
      {
        lad := MoveOrDrop(side, idx, newBase, lad, s, gone, moved);
        TallyStep(s, side, newBase, idx, lost);
        lost := lost + LostAt(s, side, newBase, idx);
      }
    }

    /** The two loops of rebase_base. */
    method MoveSides(newBase: uint32, ghost s: Store) returns (newBids: Ladder, newAsks: Ladder)
      requires Sound(s) && s == St() && idMap.Valid()
      modifies this`liveOrderCount, pool, pool.slots, idMap
      ensures Slid(s, St(), newBase) && idMap.Valid()
      ensures LadderSlid(s, Buy, newBase, newBids) && LadderSlid(s, Sell, newBase, newAsks)
      ensures |pool.free| == |s.free| + LostIn(s, Buy, newBase) + LostIn(s, Sell, newBase)
      ensures liveOrderCount == SatSub(SatSub(old(liveOrderCount), LostIn(s, Buy, newBase)), LostIn(s, Sell, newBase))
    {
      SlideStart(s, newBase);
      newBids := MoveSide(Buy, newBase, s, {}, {});
      ghost var gone := {} + SideSlots(s, Buy, newBase, |s.bidQ|, false);
      ghost var moved := {} + SideSlots(s, Buy, newBase, |s.bidQ|, true);
      SideSlotsSide(s, Buy, newBase, |s.bidQ|, false);
      SideSlotsSide(s, Buy, newBase, |s.bidQ|, true);
      newAsks := MoveSide(Sell, newBase, s, gone, moved);
      SlidFrom(s, St(), newBase, gone, moved);
    }

    /** rebase_base up to the recomputation of the top of book. */
    method SlideWindow(newBase: uint32)
      requires Coherent()
      modifies this`bids, this`asks, this`bidQ, this`askQ, this`base, this`liveOrderCount, pool, pool.slots, idMap
      ensures Coherent() && View() == Slide(old(View()), newBase)
    {
      hide Inv;
      ghost var s := St();
      var newBids, newAsks := MoveSides(newBase, s);
      ghost var r := St();
      SlidBook(s, r, newBase, newBids, newAsks, tob, baseSet, old(liveOrderCount), liveOrderCount, log);
      bids, asks := newBids, newAsks;
      bidQ, askQ := MovedQueues(s.bidQ, s.base, newBase, |s.bidQ|), MovedQueues(s.askQ, s.base, newBase, |s.askQ|);
      base := newBase;
      assert St() == Swapped(s, r, newBase, newBids, newAsks);
    }

    method RebaseBase(newBase: uint32)
      requires Coherent() && (tob.bestBid == NULL_IDX || tob.bestBid < band)
      modifies this`bids, this`asks, this`bidQ, this`askQ, this`base, this`tob, this`liveOrderCount, pool, pool.slots,
               idMap
      ensures Coherent() && View() == Rebase(old(View()), newBase)
    {
      if newBase == base {
        return;
      }
      SlideWindow(newBase);
      UpdateBestBid();
      UpdateBestAsk();
    }

    // ---- resting an order ----

    /** The pool writes of level_append. */
    method LinkLast(idx: uint32, lv: PriceLevel)
      requires idx < pool.slots.Length <= NULL_IDX && (lv.head == NULL_IDX || lv.tail < pool.slots.Length)
      modifies pool.slots
      ensures pool.slots[..] == AppendPool(old(pool.slots[..]), idx, lv)
    {
      ghost var p := pool.slots[..];
      pool.slots[idx] := pool.slots[idx].(prev := lv.tail);
      pool.slots[idx] := pool.slots[idx].(next := NULL_IDX);
      ghost var p1 := pool.slots[..];
      assert p1 == p[idx := p[idx].(prev := lv.tail, next := NULL_IDX)];
      if lv.head != NULL_IDX {
        pool.slots[lv.tail] := pool.slots[lv.tail].(next := idx);
        assert pool.slots[..] == SetNext(p1, lv.tail, idx);
      }
    }

    /** The level and bitmap writes of level_append. */
    static method AddToLevel(lad: Ladder, l: nat, idx: uint32, qty: uint32) returns (r: Ladder)
      requires l < |lad.levels| && l < 64 * |lad.bitmap|
      ensures r == Ladder(lad.levels[l := AppendLevel(lad.levels[l], idx, qty)],
                          if lad.levels[l].Empty() then Bitmap.SetBit(lad.bitmap, l) else lad.bitmap)
    {
      var lv, bitmap := lad.levels[l], lad.bitmap;
      if lv.head == NULL_IDX {
        lv := lv.(head := idx);
        bitmap := Bitmap.SetBit(bitmap, l);
      }
      lv := lv.(tail := idx);
      lv := lv.(totalVolume := Wrap32(lv.totalVolume + qty));
      lv := lv.(count := Wrap32(lv.count + 1));
      r := Ladder(lad.levels[l := lv], bitmap);
    }

    method LevelAppend(side: Side, l: nat, idx: uint32)
      requires Inv(St(), {idx as nat}) && l < |St().Qs(side)| && idx < pool.slots.Length
      modifies this`bids, this`asks, this`bidQ, this`askQ, pool.slots
      ensures l < |old(St()).Lad(side).levels| && l < 64 * |old(St()).Lad(side).bitmap| && |old(St()).pool| <= NULL_IDX
      ensures St() == Appended(old(St()), side, l, idx)
      ensures St().Qs(side) == old(St()).Qs(side)[l := old(St()).Qs(side)[l] + [idx as nat]]
      ensures old(pool.slots[idx].side == side && pool.slots[idx].price == l)
              && old(St().Lad(side).levels[l].price == base + l)
              ==> Inv(St(), {})
    {
      hide IdMap.Valid, Linked, LevelOk, FreeChain;
      ghost var s := St();
      TailInPool(St(), side, l, {idx as nat});
      var lad := if side.Buy? then bids else asks;
      var grown := AddToLevel(lad, l, idx, pool.slots[idx].qty);
      LinkLast(idx, lad.levels[l]);
      if side.Buy? {
        bids, bidQ := grown, bidQ[l := bidQ[l] + [idx as nat]];
      } else {
        asks, askQ := grown, askQ[l := askQ[l] + [idx as nat]];
      }
      if s.pool[idx].side == side && s.pool[idx].price == l && s.Lad(side).levels[l].price == s.base + l {
        AppendedOk(s, side, l, idx);
      }
    }

    /** Take a slot and fill it in; NULL_IDX when the pool is exhausted. */
    method TakeSlot(id: uint64, side: Side, l: uint32, qty: uint32) returns (slot: uint32)
      requires Sound(St())
      modifies pool, pool.slots
      ensures old(pool.free) == [] ==> slot == NULL_IDX && St() == old(St())
      ensures old(pool.free) != [] ==>
                && slot == old(pool.free)[0] && slot < pool.slots.Length
                && St() == Taken(old(St()), id, l, qty, side)
    {
      PoolValid({});
      ghost var p := pool.slots[..];
      slot := pool.Allocate();
      if slot == NULL_IDX {
        return;
      }
      pool.slots[slot] := pool.slots[slot].(id := id);
      pool.slots[slot] := pool.slots[slot].(price := l);
      pool.slots[slot] := pool.slots[slot].(qty := qty);
      pool.slots[slot] := pool.slots[slot].(side := side);
      assert pool.slots[..] == p[slot := Order(id, NULL_IDX, NULL_IDX, l, qty, side)];
    }

    /** `if (level.empty()) level.price = price` */
    method PriceTheLevel(side: Side, l: nat, price: uint32)
      requires l < |St().Lad(side).levels| && price == base + l
      modifies this`bids, this`asks
      ensures St() == Priced(old(St()), side, l)
    {
      if side.Buy? {
        if bids.levels[l].Empty() {
          bids := bids.(levels := bids.levels[l := bids.levels[l].(price := price)]);
        }
      } else {
        if asks.levels[l].Empty() {
          asks := asks.(levels := asks.levels[l := asks.levels[l].(price := price)]);
        }
      }
    }

    /** Price the level, append the slot and enter its id. */
    method LinkSlot(id: uint64, side: Side, l: uint32, price: uint32, slot: uint32, ghost s: Store, ghost qty: uint32)
      requires Sound(s) && s.free != [] && s.free[0] == slot < |s.pool| && id !in s.ids
      requires l < |s.Qs(side)| && price == s.base + l
      requires St() == Taken(s, id, l, qty, side) && idMap.Valid() && idMap.cap >= 2 * |s.pool|
      modifies this`bids, this`asks, this`bidQ, this`askQ, pool.slots, idMap
      ensures l < |s.Lad(side).levels| && l < 64 * |s.Lad(side).bitmap| && |s.pool| <= NULL_IDX
      ensures St() == Rested(s, side, l, id, qty) && idMap.Valid()
    {
      hide Inv;
      TakenOk(s, id, l, qty, side);
      LevelVolume(s, side, l);
      PricedOk(St(), side, l, {slot as nat});
      PriceTheLevel(side, l, price);
      LevelAppend(side, l, slot);
      IdRoom(s);
      idMap.Insert(id, slot);
    }

    /** A remainder is queued in a free slot; false when there is none. */
    method QueueOrder(id: uint64, side: Side, l: uint32, price: uint32, qty: uint32) returns (ok: bool)
      requires Coherent() && l < band && price == base + l && Absent(View(), id)
      modifies this`bids, this`asks, this`bidQ, this`askQ, pool, pool.slots, idMap
      ensures Coherent() && ok == (old(View()).free > 0)
      ensures !ok ==> View() == old(View())
      ensures ok ==> l < |old(View()).Lv(side)| && View() == Enqueued(old(View()), side, l, id, qty)
    {
      hide IdMap.Valid;
      ghost var s := St();
      LevelVolume(s, side, l);
      AbsentStored(s, tob, baseSet, liveOrderCount, log, id);
      var slot := TakeSlot(id, side, l, qty);
      if slot == NULL_IDX {
        return false;
      }
      LinkSlot(id, side, l, price, slot, s, qty);
      RestedBook(s, tob, baseSet, liveOrderCount, log, side, l, id, qty);
      ok := true;
    }

    /** Queue a remainder and let it lead the book if it is better than the best so far. */
    method RestOrder(id: uint64, side: Side, l: uint32, price: uint32, qty: uint32) returns (ok: bool)
      requires Coherent() && l < band && price == base + l && Absent(View(), id)
      modifies this`bids, this`asks, this`bidQ, this`askQ, this`tob, this`liveOrderCount, pool, pool.slots, idMap
      ensures Coherent() && ok == (old(View()).free > 0)
      ensures !ok ==> View() == old(View())
      ensures ok ==> l < |old(View()).Lv(side)| && View() == Rest(old(View()), side, l, id, qty)
    {
      hide FreeChain, IdsOk, Partition, AbsentLevels, IdMap.Valid, Linked, LevelOk, Enqueued;
      ok := QueueOrder(id, side, l, price, qty);
      if !ok {
        return;
      }
      liveOrderCount := Wrap32(liveOrderCount + 1);
      LevelVolume(St(), side, l);
      if side.Buy? {
        if tob.bestBid == NULL_IDX || l > tob.bestBid {
          tob := tob.(bestBid := l, bidQty := bids.levels[l].totalVolume);
        }
      } else {
        if tob.bestAsk == NULL_IDX || l < tob.bestAsk {
          tob := tob.(bestAsk := l, askQty := asks.levels[l].totalVolume);
        }
      }
    }

    /** Trade what can be traded up to the order's own level, then rest what is left. */
    method MatchAndRest(id: uint64, side: Side, l: uint32, price: uint32, qty: uint32) returns (rests: bool)
      requires Coherent() && Wf(View()) && l < band && price == base + l && Absent(View(), id)
      modifies this`bids, this`asks, this`bidQ, this`askQ, this`tob, this`log, this`liveOrderCount, pool, pool.slots,
               idMap
      ensures Coherent() && (View(), rests) == InsertAt(old(View()), id, side, l, qty)
    {
      SweepWf(View(), side.Opposite(), id, l, qty);
      AbsentSweep(View(), side.Opposite(), id, l, qty, id);
      var remaining: uint32;
      if side.Buy? {
        remaining := MatchAgainstAsks(id, l, qty);
      } else {
        remaining := MatchAgainstBids(id, l, qty);
      }
      if remaining == 0 {
        return false;
      }
      rests := RestOrder(id, side, l, price, remaining);
    }

    method Anchor(price: uint32)
      requires Coherent() && (baseSet || EmptyBook(View()))
      modifies this`base, this`baseSet
      ensures Coherent() && baseSet && View() == Anchored(old(View()), price)
    {
      if !baseSet {
        var half := |bids.levels| / 2;
        AnchorEmpty(St(), tob, baseSet, liveOrderCount, log, CentredBase(band, price));
        base := if price < half then 0 else price - half;
        baseSet := true;
      }
    }

    /** A price outside the window re-bases the book while it is small. */
    method Recentre(price: uint32)
      requires Coherent() && (tob.bestBid == NULL_IDX || tob.bestBid < band)
      modifies this`bids, this`asks, this`bidQ, this`askQ, this`base, this`tob, this`liveOrderCount, pool, pool.slots,
               idMap
      ensures Coherent() && View() == Recentred(old(View()), price)
    {
      ghost var v := View();
      SidesSized(St());
      var rel: int := price - base;
      if rel < 0 || rel >= |bids.levels| {
        if liveOrderCount <= BOOTSTRAP_REBASE_LIMIT {
          var half := |bids.levels| / 2;
          var newBase: uint32 := if price < half then 0 else price - half;
          RecentredMoves(v, price, newBase);
          RebaseBase(newBase);
        } else {
          RecentredStays(v, price);
        }
      } else {
        RecentredStays(v, price);
      }
    }

    method InsertLimitOrder(id: uint64, side: Side, price: uint32, qty: uint32) returns (rests: bool)
      requires Valid() && Absent(View(), id)
      modifies this`bids, this`asks, this`bidQ, this`askQ, this`base, this`baseSet, this`tob, this`log,
               this`liveOrderCount, pool, pool.slots, idMap
      ensures Valid() && (View(), rests) == Insert(old(View()), id, side, price, qty)
    {
      hide Insert, InsertAt, WfSide, EmptyBook, AbsentLevels, IdMap.Valid, LevelOk, FreeChain;
      ghost var v := View();
      InsertIs(v, id, side, price, qty);
      InsertWf(v, id, side, price, qty);
      WindowedWf(v, price);
      AbsentWindowed(v, price, id);
      BestInBand(v, price);
      Anchor(price);
      Recentre(price);
      var rel: int := price - base;
      if rel < 0 || rel >= |bids.levels| {
        return false;
      }
      rests := MatchAndRest(id, side, rel, price, qty);
    }
  }
}
