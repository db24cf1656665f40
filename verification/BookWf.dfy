/** Every operation keeps the book well-formed, and the outward scan finds what it is meant to find. */
module BookWf {
  import opened Types
  import opened BookSpec

  // ---- the scan ----

  /** From `start` outward and before r there is no order; r itself is the first non-empty level. */
  ghost predicate FirstFrom(ls: Levels, side: Side, start: nat, r: uint32) {
    if r == NULL_IDX
    then forall j: nat :: j < |ls| && Outward(side, start, j) ==> ls[j] == []
    else && r < |ls| && ls[r] != [] && Outward(side, start, r)
         && forall j: nat :: j < |ls| && Outward(side, start, j) && !Outward(side, r, j) ==> ls[j] == []
  }

  lemma {:induction false} ScanFindsFirst(ls: Levels, side: Side, start: nat)
    requires start < |ls| <= NULL_IDX
    ensures FirstFrom(ls, side, start, Scan(ls, side, start))
    decreases if side.Buy? then start else |ls| - start
  {
    if ls[start] != [] {
    } else if side.Buy? {
      if start > 0 {
        ScanFindsFirst(ls, side, start - 1);
      }
    } else if start + 1 < |ls| {
      ScanFindsFirst(ls, side, start + 1);
    }
  }

  lemma FirstIsUnique(ls: Levels, side: Side, start: nat, r: uint32, r': uint32)
    requires FirstFrom(ls, side, start, r) && FirstFrom(ls, side, start, r')
    ensures r == r'
  {
  }

  // ---- well-formedness ----

  /** Queues are in order on both sides, and the cached best of the other side is sound. */
  ghost predicate WfMid(b: Book, side: Side) {
    && 0 < |b.bids| == |b.asks| <= NULL_IDX
    && WfSide(b, side.Opposite())
    && WfLevels(b.base, b.Lv(side))
  }

  lemma UpdateBestWf(b: Book, side: Side)
    requires WfMid(b, side)
    ensures Wf(UpdateBest(b, side))
  {
    var start := ScanStart(b, side);
    ScanFindsFirst(b.Lv(side), side, start);
    var b' := UpdateBest(b, side);
    assert WfSide(b', side);
    assert WfSide(b', side.Opposite());
    WfFromSides(b', side);
  }

  lemma WfFromSides(b: Book, side: Side)
    requires 0 < |b.bids| == |b.asks| <= NULL_IDX
    requires WfSide(b, side) && WfSide(b, side.Opposite())
    ensures Wf(b)
  {
    forall sd: Side
      ensures WfSide(b, sd)
    {
      assert sd == side || sd == side.Opposite();
    }
  }

  lemma RefreshWf(b: Book, side: Side)
    requires WfMid(b, side)
    ensures Wf(Refresh(b, side))
  {
    var best := b.Best(side);
    if best < |b.Lv(side)| && b.Lv(side)[best] != [] {
      var b' := Refresh(b, side);
      assert WfSide(b', side) && WfSide(b', side.Opposite());
      WfFromSides(b', side);
    } else {
      UpdateBestWf(b, side);
    }
  }

  lemma RefreshThenFill(b: Book, side: Side, taker: uint64, rem: uint32)
    requires b.Best(side) < |b.Lv(side)| <= NULL_IDX && b.Lv(side)[b.Best(side)] != []
    ensures var r := Refresh(b, side);
            && r.Best(side) == b.Best(side) && r.Lv(side) == b.Lv(side)
            && FillStep(r, side, taker, rem) == FillStep(b, side, taker, rem)
  {
    var l := b.Best(side);
    var q := Consume(b.Lv(side)[l], FillQty(b, side, rem));
    var f, r := FillFront(b, side, taker, rem), FillFront(Refresh(b, side), side, taker, rem);
    assert r == f.WithBest(side, l, r.BestQty(side));
  }

  /** Refreshing before a fill makes no difference: the fill and its own refresh overwrite the cached quantity. */
  lemma SweepAfterRefresh(b: Book, side: Side, taker: uint64, limit: nat, rem: uint32)
    requires |b.Lv(side)| <= NULL_IDX && rem > 0 && Marketable(b, side, limit)
    ensures Sweep(Refresh(b, side), side, taker, limit, rem) == Sweep(b, side, taker, limit, rem)
  {
    RefreshThenFill(b, side, taker, rem);
  }

  /** One fill inside the level, with the refresh put off to the end of the level. */
  lemma SweepInside(b: Book, side: Side, taker: uint64, limit: nat, rem: uint32)
    requires |b.Lv(side)| <= NULL_IDX && rem > 0 && Marketable(b, side, limit)
    ensures Sweep(Refresh(b, side), side, taker, limit, rem)
         == Sweep(FillStep(b, side, taker, rem), side, taker, limit, rem - FillQty(b, side, rem))
  {
    SweepAfterRefresh(b, side, taker, limit, rem);
    SweepUnfold(b, side, taker, limit, rem);
  }

  lemma SweepUnfold(b: Book, side: Side, taker: uint64, limit: nat, rem: uint32)
    requires |b.Lv(side)| <= NULL_IDX
    ensures Sweep(b, side, taker, limit, rem)
         == if rem == 0 || !Marketable(b, side, limit) then (b, rem)
            else Sweep(FillStep(b, side, taker, rem), side, taker, limit, rem - FillQty(b, side, rem))
  {
  }

  lemma SweepStops(b: Book, side: Side, taker: uint64, limit: nat, rem: uint32)
    requires |b.Lv(side)| <= NULL_IDX && (rem == 0 || !Marketable(b, side, limit))
    ensures Sweep(b, side, taker, limit, rem) == (b, rem)
  {
  }

  /** Every fill uses up an order or what is left of the taker. */
  lemma FillFrontShrinks(b: Book, side: Side, taker: uint64, rem: uint32)
    requires b.Best(side) < |b.Lv(side)| && b.Lv(side)[b.Best(side)] != [] && rem > 0
    ensures Count(FillFront(b, side, taker, rem).Lv(side)) + rem - FillQty(b, side, rem) < Count(b.Lv(side)) + rem
    ensures FillFront(b, side, taker, rem).Best(side) == b.Best(side)
  {
    CountUpdate(b.Lv(side), b.Best(side), Consume(b.Lv(side)[b.Best(side)], FillQty(b, side, rem)));
  }

  /** The state inside a level: refreshing now and sweeping on gives `goal`. */
  ghost predicate OnTrack(b: Book, side: Side, l: nat, taker: uint64, limit: nat, rem: uint32, goal: (Book, uint32)) {
    && WfMid(b, side)
    && l < |b.Lv(side)| && b.Best(side) == l && WithinLimit(side, l, limit)
    && Sweep(Refresh(b, side), side, taker, limit, rem) == goal
  }

  lemma OnTrackStart(b: Book, side: Side, l: nat, taker: uint64, limit: nat, rem: uint32)
    requires WfMid(b, side) && rem > 0 && Marketable(b, side, limit) && b.Best(side) == l
    ensures OnTrack(b, side, l, taker, limit, rem, Sweep(b, side, taker, limit, rem))
  {
    SweepAfterRefresh(b, side, taker, limit, rem);
  }

  lemma OnTrackStep(b: Book, side: Side, l: nat, taker: uint64, limit: nat, rem: uint32, goal: (Book, uint32))
    requires OnTrack(b, side, l, taker, limit, rem, goal) && rem > 0 && b.Lv(side)[l] != []
    ensures var f, m := FillFront(b, side, taker, rem), FillQty(b, side, rem);
            OnTrack(f, side, l, taker, limit, rem - m, goal) && Count(f.Lv(side)) + (rem - m) < Count(b.Lv(side)) + rem
  {
    SweepInside(b, side, taker, limit, rem);
    FillFrontShrinks(b, side, taker, rem);
    FillFrontWf(b, side, taker, rem);
  }

  /** The state between levels: sweeping on from here gives `goal`. */
  ghost predicate Tracking(b: Book, side: Side, taker: uint64, limit: nat, rem: uint32, goal: (Book, uint32)) {
    Wf(b) && Sweep(b, side, taker, limit, rem) == goal
  }

  lemma TrackEnter(b: Book, side: Side, taker: uint64, limit: nat, rem: uint32, goal: (Book, uint32))
    requires Tracking(b, side, taker, limit, rem, goal) && rem > 0
    requires b.Best(side) != NULL_IDX && WithinLimit(side, b.Best(side), limit)
    ensures b.Best(side) < |b.bids| == |b.asks| && b.Lv(side)[b.Best(side)] != []
    ensures OnTrack(b, side, b.Best(side), taker, limit, rem, goal)
  {
    assert WfSide(b, side) && WfSide(b, side.Opposite());
    OnTrackStart(b, side, b.Best(side), taker, limit, rem);
  }

  lemma TrackLeave(b: Book, side: Side, l: nat, taker: uint64, limit: nat, rem: uint32, goal: (Book, uint32))
    requires OnTrack(b, side, l, taker, limit, rem, goal)
    ensures Tracking(Refresh(b, side), side, taker, limit, rem, goal) && Refresh(b, side).Lv(side) == b.Lv(side)
  {
    RefreshWf(b, side);
  }

  lemma TrackDone(b: Book, side: Side, taker: uint64, limit: nat, rem: uint32, goal: (Book, uint32))
    requires Tracking(b, side, taker, limit, rem, goal)
    requires rem == 0 || b.Best(side) == NULL_IDX || !WithinLimit(side, b.Best(side), limit)
    ensures goal == (b, rem)
  {
  }

  lemma WithQueueWf(b: Book, side: Side, l: nat, q: Queue)
    requires WfMid(b, side) && l < |b.Lv(side)| && WfQueue(b.base, l, q)
    ensures WfMid(b.WithQueue(side, l, q), side)
  {
  }

  lemma FillFrontWf(b: Book, side: Side, taker: uint64, rem: uint32)
    requires WfMid(b, side) && b.Best(side) < |b.Lv(side)| && b.Lv(side)[b.Best(side)] != []
    ensures WfMid(FillFront(b, side, taker, rem), side)
  {
    var l := b.Best(side);
    var q := b.Lv(side)[l];
    var m := Min(rem, q[0].qty);
    assert WfQueue(b.base, l, q);
    var q' := Consume(q, m);
    forall k | 0 <= k < |q'|
      ensures q'[k].qty > 0
    {
      assert m == q[0].qty ==> q'[k] == q[k + 1];
    }
    WithQueueWf(b, side, l, q');
  }

  /** A fill touches its own side only. */
  lemma FillStepFrame(b: Book, side: Side, taker: uint64, rem: uint32)
    requires b.Best(side) < |b.Lv(side)| <= NULL_IDX && b.Lv(side)[b.Best(side)] != []
    ensures var b', other := FillStep(b, side, taker, rem), side.Opposite();
            && b'.Lv(other) == b.Lv(other) && b'.Best(other) == b.Best(other) && b'.BestQty(other) == b.BestQty(other)
            && b'.base == b.base && b'.baseSet == b.baseSet
  {
  }

  /** So does a whole match; one that reports nothing does nothing at all. */
  lemma {:induction false} SweepFrame(b: Book, side: Side, taker: uint64, limit: nat, rem: uint32)
    requires |b.Lv(side)| <= NULL_IDX
    ensures var b', other := Sweep(b, side, taker, limit, rem).0, side.Opposite();
            && b'.Lv(other) == b.Lv(other) && b'.Best(other) == b.Best(other) && b'.BestQty(other) == b.BestQty(other)
            && b'.base == b.base && b'.baseSet == b.baseSet && b.log <= b'.log && (b'.log == b.log ==> b' == b)
    decreases Count(b.Lv(side)), rem
  {
    hide FillStep;
    if rem > 0 && Marketable(b, side, limit) {
      FillStepShrinks(b, side, taker, rem);
      FillStepFrame(b, side, taker, rem);
      FillStepParts(b, side, taker, rem);
      SweepFrame(FillStep(b, side, taker, rem), side, taker, limit, rem - FillQty(b, side, rem));
    }
  }

  lemma FillStepWf(b: Book, side: Side, taker: uint64, rem: uint32)
    requires Wf(b) && b.Best(side) < |b.Lv(side)| && b.Lv(side)[b.Best(side)] != []
    ensures Wf(FillStep(b, side, taker, rem))
  {
    assert WfSide(b, side) && WfSide(b, side.Opposite());
    FillFrontWf(b, side, taker, rem);
    RefreshWf(FillFront(b, side, taker, rem), side);
  }

  /** Matching keeps the book well-formed and leaves the taker's own side alone. */
  lemma {:induction false} SweepWf(b: Book, side: Side, taker: uint64, limit: nat, rem: uint32)
    requires Wf(b)
    ensures var b', other := Sweep(b, side, taker, limit, rem).0, side.Opposite();
            && Wf(b') && b'.base == b.base && b'.baseSet == b.baseSet
            && b'.Lv(other) == b.Lv(other) && b'.Best(other) == b.Best(other) && b'.BestQty(other) == b.BestQty(other)
    decreases Count(b.Lv(side)), rem
  {
    if rem > 0 && Marketable(b, side, limit) {
      FillStepShrinks(b, side, taker, rem);
      FillStepWf(b, side, taker, rem);
      FillStepFrame(b, side, taker, rem);
      SweepWf(FillStep(b, side, taker, rem), side, taker, limit, rem - FillQty(b, side, rem));
    }
  }

  lemma RestWf(b: Book, side: Side, l: nat, id: uint64, qty: uint32)
    requires Wf(b) && l < |b.Lv(side)| && b.free > 0 && qty > 0 && b.base + l < TWO_32
    ensures Wf(Rest(b, side, l, id, qty))
  {
    var q := b.Lv(side)[l];
    assert WfSide(b, side) && WfSide(b, side.Opposite());
    assert WfQueue(b.base, l, q);
    assert WfQueue(b.base, l, q + [Resting(id, qty)]);
    var b' := Rest(b, side, l, id, qty);
    assert WfSide(b', side) && WfSide(b', side.Opposite());
    WfFromSides(b', side);
  }

  lemma MovedWf(ls: Levels, base: uint32, newBase: uint32)
    requires WfLevels(base, ls)
    ensures WfLevels(newBase, Moved(ls, base, newBase))
  {
    forall l | 0 <= l < |ls|
      ensures WfQueue(newBase, l, Moved(ls, base, newBase)[l])
    {
      var i: int := newBase + l - base;
      if 0 <= i < |ls| {
        assert WfQueue(base, i, ls[i]);
      }
    }
  }

  lemma RebaseWf(b: Book, newBase: uint32)
    requires Wf(b)
    ensures Wf(Rebase(b, newBase))
  {
    if newBase != b.base {
      assert WfSide(b, Buy) && WfSide(b, Sell);
      MovedWf(b.bids, b.base, newBase);
      MovedWf(b.asks, b.base, newBase);
      var s := Slide(b, newBase);
      var b1 := UpdateBest(s, Buy);
      ScanFindsFirst(s.bids, Buy, ScanStart(s, Buy));
      assert WfSide(b1, Buy);
      UpdateBestWf(b1, Sell);
    }
  }

  lemma AnchoredWf(b: Book, price: uint32)
    requires Wf(b) && (b.baseSet || EmptyBook(b))
    ensures Wf(Anchored(b, price))
  {
    var b1 := Anchored(b, price);
    assert WfSide(b, Buy) && WfSide(b, Sell);
    assert WfSide(b1, Buy) && WfSide(b1, Sell);
    WfFromSides(b1, Buy);
  }

  lemma BestInBand(b: Book, price: uint32)
    requires Wf(b)
    ensures b.tob.bestBid == NULL_IDX || b.tob.bestBid < |b.bids|
    ensures Anchored(b, price).tob == b.tob
  {
    assert WfSide(b, Buy);
  }

  lemma RecentredStays(b: Book, price: uint32)
    requires |b.bids| <= NULL_IDX && |b.asks| <= NULL_IDX
    requires 0 <= price - b.base < |b.bids| || b.live > BOOTSTRAP_REBASE_LIMIT
    ensures Recentred(b, price) == b
  {
  }

  lemma RecentredMoves(b: Book, price: uint32, newBase: uint32)
    requires |b.bids| <= NULL_IDX && |b.asks| <= NULL_IDX
    requires !(0 <= price - b.base < |b.bids|) && b.live <= BOOTSTRAP_REBASE_LIMIT
    requires newBase == if price < |b.bids| / 2 then 0 else price - |b.bids| / 2
    ensures Recentred(b, price) == Rebase(b, newBase)
  {
  }

  lemma WindowedWf(b: Book, price: uint32)
    requires Wf(b) && (b.baseSet || EmptyBook(b))
    ensures Wf(Windowed(b, price))
  {
    AnchoredWf(b, price);
    var b1 := Anchored(b, price);
    RebaseWf(b1, CentredBase(|b1.bids|, price));
  }

  /** Before the first order nothing rests: the window is anchored before anything is queued. */
  ghost predicate EmptyBook(b: Book) {
    && (forall l :: 0 <= l < |b.bids| ==> b.bids[l] == [])
    && (forall l :: 0 <= l < |b.asks| ==> b.asks[l] == [])
  }

  lemma InsertAtWf(b: Book, id: uint64, side: Side, l: nat, qty: uint32)
    requires Wf(b) && l < |b.bids| && b.base + l < TWO_32
    ensures var b' := InsertAt(b, id, side, l, qty).0; Wf(b') && b'.baseSet == b.baseSet
  {
    SweepWf(b, side.Opposite(), id, l, qty);
    var (b1, rem) := Sweep(b, side.Opposite(), id, l, qty);
    if rem > 0 && b1.free > 0 {
      RestWf(b1, side, l, id, rem);
    }
  }

  lemma WindowedAnchors(b: Book, price: uint32)
    requires Wf(b)
    ensures Windowed(b, price).baseSet
  {
  }

  lemma InsertWf(b: Book, id: uint64, side: Side, price: uint32, qty: uint32)
    requires Wf(b) && (b.baseSet || EmptyBook(b))
    ensures var b' := Insert(b, id, side, price, qty).0; Wf(b') && b'.baseSet
  {
    hide Insert, InsertAt, Windowed, WfSide, EmptyBook;
    WindowedWf(b, price);
    InsertIs(b, id, side, price, qty);
    var w := Windowed(b, price);
    WindowedAnchors(b, price);
    if InBand(w, price) {
      InsertAtWf(w, id, side, price - w.base, qty);
    }
  }

  lemma MarketWf(b: Book, side: Side, qty: uint32)
    requires Wf(b)
    ensures Wf(Market(b, side, qty)) && Market(b, side, qty).baseSet == b.baseSet
  {
    SweepWf(b, side.Opposite(), 0, if side.Buy? then |b.asks| - 1 else 0, qty);
  }

  lemma PlaceWf(b: Book, p: Place, q: Queue)
    requires Wf(b) && p.At? && ValidPlace(b, p)
    requires forall k :: 0 <= k < |q| ==> q[k].qty > 0
    ensures var b1 := b.WithQueue(p.side, p.level, q);
            && WfMid(b1, p.side)
            && (b.Best(p.side) != p.level ==> Wf(b1))
  {
    assert WfSide(b, p.side) && WfSide(b, p.side.Opposite());
    assert WfQueue(b.base, p.level, b.Lv(p.side)[p.level]);
    WithQueueWf(b, p.side, p.level, q);
    var b1 := b.WithQueue(p.side, p.level, q);
    if b.Best(p.side) != p.level {
      assert WfSide(b1, p.side) && WfSide(b1, p.side.Opposite());
      WfFromSides(b1, p.side);
    }
  }

  lemma RemoveAtWf(b: Book, p: Place)
    requires Wf(b) && p.At? && ValidPlace(b, p)
    ensures Wf(RemoveAt(b, p)) && RemoveAt(b, p).baseSet == b.baseSet
  {
    var q := b.Lv(p.side)[p.level];
    assert WfSide(b, p.side) && WfQueue(b.base, p.level, q);
    PlaceWf(b, p, Without(q, p.pos));
    var b1 := b.WithQueue(p.side, p.level, Without(q, p.pos)).(free := b.free + 1);
    assert WfMid(b1, p.side);
    RefreshWf(b1, p.side);
    if b.Best(p.side) != p.level {
      assert WfSide(b1, p.side);
      WfFromSides(b1, p.side);
    }
  }

  lemma ReduceAtWf(b: Book, p: Place, amount: nat)
    requires Wf(b) && p.At? && ValidPlace(b, p) && amount < OrderAt(b, p).qty
    ensures Wf(ReduceAt(b, p, amount)) && ReduceAt(b, p, amount).baseSet == b.baseSet
  {
    var q := b.Lv(p.side)[p.level];
    assert WfSide(b, p.side) && WfQueue(b.base, p.level, q);
    var q' := Lower(q, p.pos, amount);
    PlaceWf(b, p, q');
    var b1 := b.WithQueue(p.side, p.level, q');
    if b.Best(p.side) == p.level {
      RefreshWf(b1, p.side);
    }
    assert ReduceAt(b, p, amount) == if b.Best(p.side) == p.level then Refresh(b1, p.side) else b1;
  }

  lemma LoggedWf(b: Book, t: Trade, live: uint32)
    requires Wf(b)
    ensures Wf(b.Logged(t)) && Wf(b.Logged(t).(live := live)) && Wf(b.(live := live))
  {
    var b1 := b.Logged(t).(live := live);
    forall sd: Side
      ensures WfSide(b.Logged(t), sd) && WfSide(b1, sd) && WfSide(b.(live := live), sd)
    {
      assert WfSide(b, sd);
    }
  }

  lemma CancelWf(b: Book, id: uint64)
    requires Wf(b)
    ensures Wf(Cancel(b, id)) && Cancel(b, id).baseSet == b.baseSet
  {
    var p := Locate(b, id);
    if p.At? {
      RemoveAtWf(b, p);
    }
  }

  lemma ExecuteWf(b: Book, id: uint64, fill: uint32)
    requires Wf(b)
    ensures Wf(Execute(b, id, fill).0) && Execute(b, id, fill).0.baseSet == b.baseSet
  {
    hide WfSide, Scan, RemoveAt;
    var p := Locate(b, id);
    if p.At? {
      var o := OrderAt(b, p);
      var t := Trade(id, 0, b.base + p.level, if fill >= o.qty then o.qty else fill);
      LoggedWf(b, t, if fill >= o.qty then SatSub(b.live, 1) else b.live);
      if fill >= o.qty {
        RemoveAtWf(b.Logged(t).(live := SatSub(b.live, 1)), p);
      } else {
        ReduceAtWf(b.Logged(t), p, fill);
      }
    }
  }

  lemma ReduceWf(b: Book, id: uint64, amount: uint32)
    requires Wf(b)
    ensures Wf(Reduce(b, id, amount).0) && Reduce(b, id, amount).0.baseSet == b.baseSet
  {
    var p := Locate(b, id);
    if p.At? {
      if amount >= OrderAt(b, p).qty {
        CancelWf(b, id);
      } else {
        ReduceAtWf(b, p, amount);
      }
    }
  }

  // ---- a book that was never anchored ----

  lemma MarketOnEmpty(b: Book, side: Side, qty: uint32)
    requires Wf(b) && EmptyBook(b)
    ensures Market(b, side, qty) == b
  {
    assert WfSide(b, side.Opposite());
  }

  lemma {:induction false} LevelOfEmpty(ls: Levels, id: uint64, l: nat)
    requires l <= |ls| && forall j :: 0 <= j < |ls| ==> ls[j] == []
    ensures LevelOf(ls, id, l) == |ls|
    decreases |ls| - l
  {
    if l < |ls| {
      LevelOfEmpty(ls, id, l + 1);
    }
  }

  lemma CancelOnEmpty(b: Book, id: uint64)
    requires Wf(b)
    ensures EmptyBook(b) ==> Locate(b, id) == Nowhere && Cancel(b, id) == b
  {
    if EmptyBook(b) {
      LevelOfEmpty(b.bids, id, 0);
      LevelOfEmpty(b.asks, id, 0);
    }
  }
}
