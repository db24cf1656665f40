/**
 What the cached top of book is worth: when it names the best resting prices, how its quantities relate to
 the levels, and that the book never crosses.
 */
module Quotes {
  import opened Types
  import opened BookSpec
  import opened BookWf

  /** The cached best is the best non-empty level of the side, or NULL_IDX when the side is empty. */
  ghost predicate Exact(b: Book, side: Side) {
    BestOf(b.Lv(side), side, b.Best(side))
  }

  ghost predicate BestOf(ls: Levels, side: Side, best: uint32) {
    && (best == NULL_IDX || (best < |ls| && ls[best] != []))
    && forall j: nat :: j < |ls| && ls[j] != [] ==> NotBetter(side, best, j)
  }

  /** Level j is no better than the best; nothing is when there is no best. */
  ghost predicate NotBetter(side: Side, best: uint32, j: nat) {
    best != NULL_IDX && Outward(side, best, j)
  }

  /** Bids rest strictly below asks. */
  ghost predicate Uncrossed(b: Book) {
    forall i: nat, j: nat :: i < |b.bids| && j < |b.asks| && b.bids[i] != [] && b.asks[j] != [] ==> i < j
  }

  /** Well-formed, with exact bests on both sides, and not crossed. */
  ghost predicate Sharp(b: Book) {
    && Wf(b)
    && Exact(b, Buy) && Exact(b, Sell)
    && Uncrossed(b)
  }

  lemma BestOccupied(b: Book, side: Side)
    requires Sharp(b) && b.Best(side) != NULL_IDX
    ensures b.Best(side) < |b.Lv(side)| && b.Lv(side)[b.Best(side)] != []
  {
    assert WfSide(b, side);
  }

  lemma BothExact(b: Book, side: Side)
    requires Exact(b, side) && Exact(b, side.Opposite())
    ensures Exact(b, Buy) && Exact(b, Sell)
  {
  }

  lemma ExactOf(b: Book, side: Side)
    requires Sharp(b)
    ensures Exact(b, side) && Exact(b, side.Opposite()) && WfSide(b, side) && WfSide(b, side.Opposite())
  {
  }

  /** In a sharp book the quoted bid is below the quoted ask. */
  lemma QuotesApart(b: Book)
    requires Sharp(b) && b.tob.bestBid != NULL_IDX && b.tob.bestAsk != NULL_IDX
    ensures b.tob.bestBid < b.tob.bestAsk
  {
  }

  // ---- scanning outward from the old best ----

  ghost predicate NothingInward(ls: Levels, side: Side, start: nat) {
    forall j: nat :: j < |ls| && ls[j] != [] ==> Outward(side, start, j)
  }

  /** Scanning outward from the cached best is enough exactly when nothing rests on its inward side. */
  lemma UpdateBestExactIff(b: Book, side: Side)
    requires 0 < |b.Lv(side)| <= NULL_IDX
    ensures Exact(UpdateBest(b, side), side) <==> NothingInward(b.Lv(side), side, ScanStart(b, side))
  {
    ScanFindsFirst(b.Lv(side), side, ScanStart(b, side));
  }

  lemma RefreshExact(b: Book, side: Side)
    requires 0 < |b.Lv(side)| <= NULL_IDX && b.Best(side) < |b.Lv(side)|
    requires forall j: nat :: j < |b.Lv(side)| && b.Lv(side)[j] != [] ==> Outward(side, b.Best(side), j)
    ensures Exact(Refresh(b, side), side)
  {
    UpdateBestExactIff(b, side);
  }

  // ---- taking orders away ----

  /** b' has on each level at most what b has there; used where orders are consumed or lowered. */
  ghost predicate Thinner(b: Book, b': Book) {
    && |b'.bids| == |b.bids| && |b'.asks| == |b.asks|
    && (forall l :: 0 <= l < |b.bids| && b'.bids[l] != [] ==> b.bids[l] != [])
    && (forall l :: 0 <= l < |b.asks| && b'.asks[l] != [] ==> b.asks[l] != [])
  }

  /** Changing the best level without filling an empty one, and refreshing, keeps the side exact. */
  lemma BestLevelExact(b: Book, side: Side, q: Queue)
    requires Exact(b, side) && 0 < |b.Lv(side)| <= NULL_IDX && b.Best(side) != NULL_IDX
    ensures Exact(Refresh(b.WithQueue(side, b.Best(side), q), side), side)
    ensures Thinner(b, Refresh(b.WithQueue(side, b.Best(side), q), side))
  {
    var b1 := b.WithQueue(side, b.Best(side), q);
    forall j: nat | j < |b1.Lv(side)| && b1.Lv(side)[j] != []
      ensures Outward(side, b1.Best(side), j)
    {
      if j != b.Best(side) {
        assert NotBetter(side, b.Best(side), j);
      }
    }
    RefreshExact(b1, side);
  }

  lemma InnerLevelExact(b: Book, side: Side, l: nat, q: Queue)
    requires Exact(b, side) && l < |b.Lv(side)| && b.Lv(side)[l] != [] && b.Best(side) != l
    ensures Exact(b.WithQueue(side, l, q), side)
    ensures Thinner(b, b.WithQueue(side, l, q))
  {
  }

  /** One fill keeps the matched side exact, whatever the other side is like. */
  lemma FillStepExact(b: Book, side: Side, taker: uint64, rem: uint32)
    requires Wf(b) && Exact(b, side) && b.Best(side) != NULL_IDX
    ensures b.Best(side) < |b.Lv(side)| && b.Lv(side)[b.Best(side)] != []
    ensures var b' := FillStep(b, side, taker, rem); Wf(b') && Exact(b', side) && Thinner(b, b')
  {
    hide Wf, BestOf;
    BestThere(b, side);
    var q := Consume(b.Lv(side)[b.Best(side)], FillQty(b, side, rem));
    var b' := FillStep(b, side, taker, rem);
    BestLevelExact(b, side, q);
    FillStepWf(b, side, taker, rem);
    FillStepAsRefresh(b, side, taker, rem, q);
    ExactFrame(Refresh(b.WithQueue(side, b.Best(side), q), side), b', side);
  }

  lemma BestThere(b: Book, side: Side)
    requires Wf(b)
    ensures 0 < |b.bids| == |b.asks| <= NULL_IDX
    ensures b.Best(side) != NULL_IDX ==> b.Best(side) < |b.Lv(side)| && b.Lv(side)[b.Best(side)] != []
  {
    assert WfSide(b, side);
  }

  /** The levels and the best of a fill are those of replacing the queue and refreshing. */
  lemma FillStepAsRefresh(b: Book, side: Side, taker: uint64, rem: uint32, q: Queue)
    requires b.Best(side) < |b.Lv(side)| <= NULL_IDX && b.Lv(side)[b.Best(side)] != []
    requires q == Consume(b.Lv(side)[b.Best(side)], FillQty(b, side, rem))
    ensures var b', r := FillStep(b, side, taker, rem), Refresh(b.WithQueue(side, b.Best(side), q), side);
            b'.bids == r.bids && b'.asks == r.asks && b'.Best(side) == r.Best(side)
  {
  }

  lemma ExactFrame(b: Book, b': Book, side: Side)
    requires Exact(b, side) && b'.Lv(side) == b.Lv(side) && b'.Best(side) == b.Best(side)
    ensures Exact(b', side)
  {
  }

  lemma FillStepSharp(b: Book, side: Side, taker: uint64, rem: uint32)
    requires Sharp(b) && b.Best(side) != NULL_IDX
    ensures b.Best(side) < |b.Lv(side)| && b.Lv(side)[b.Best(side)] != []
    ensures Sharp(FillStep(b, side, taker, rem))
  {
    hide WfSide, BestOf, FillStep;
    ExactOf(b, side);
    FillStepExact(b, side, taker, rem);
    FillStepFrame(b, side, taker, rem);
    var b' := FillStep(b, side, taker, rem);
    ExactFrame(b, b', side.Opposite());
    BothExact(b', side);
  }

  lemma {:induction false} SweepSharp(b: Book, side: Side, taker: uint64, limit: nat, rem: uint32)
    requires Sharp(b)
    ensures Sharp(Sweep(b, side, taker, limit, rem).0)
    decreases Count(b.Lv(side)), rem
  {
    hide WfSide, FillStep, Exact, Uncrossed;
    if rem > 0 && Marketable(b, side, limit) {
      FillStepSharp(b, side, taker, rem);
      FillStepShrinks(b, side, taker, rem);
      SweepSharp(FillStep(b, side, taker, rem), side, taker, limit, rem - FillQty(b, side, rem));
    }
  }

  /** What a sweep leaves behind: with quantity left over, nothing rests within the limit any more. */
  lemma {:induction false} SweepExhausts(b: Book, side: Side, taker: uint64, limit: nat, rem: uint32, j: nat)
    requires Wf(b) && Exact(b, side) && Sweep(b, side, taker, limit, rem).1 > 0
    requires j < |b.Lv(side)| && WithinLimit(side, j, limit)
    ensures |Sweep(b, side, taker, limit, rem).0.Lv(side)| == |b.Lv(side)|
    ensures Sweep(b, side, taker, limit, rem).0.Lv(side)[j] == []
    decreases Count(b.Lv(side)), rem
  {
    hide FillStep, WfLevels;
    BestThere(b, side);
    if rem > 0 && Marketable(b, side, limit) {
      FillStepExact(b, side, taker, rem);
      FillStepShrinks(b, side, taker, rem);
      SweepExhausts(FillStep(b, side, taker, rem), side, taker, limit, rem - FillQty(b, side, rem), j);
    } else {
      assert b.Lv(side)[j] != [] ==> NotBetter(side, b.Best(side), j);
    }
  }

  lemma RemoveAtSharp(b: Book, p: Place)
    requires Sharp(b) && p.At? && ValidPlace(b, p)
    ensures Sharp(RemoveAt(b, p))
  {
    ExactOf(b, p.side);
    RemoveAtWf(b, p);
    var q := Without(b.Lv(p.side)[p.level], p.pos);
    QueueChangeSharp(b, p, q, RemoveAt(b, p));
  }

  lemma ReduceAtSharp(b: Book, p: Place, amount: nat)
    requires Sharp(b) && p.At? && ValidPlace(b, p) && amount < OrderAt(b, p).qty
    ensures Sharp(ReduceAt(b, p, amount))
  {
    ExactOf(b, p.side);
    ReduceAtWf(b, p, amount);
    var q := Lower(b.Lv(p.side)[p.level], p.pos, amount);
    QueueChangeSharp(b, p, q, ReduceAt(b, p, amount));
  }

  /**
   An occupied level got the queue q; if it was the best the side was refreshed, else q is not empty or the level not
   best.
   */
  lemma QueueChangeSharp(b: Book, p: Place, q: Queue, b': Book)
    requires Sharp(b) && Wf(b') && p.At? && ValidPlace(b, p)
    requires var b1 := b.WithQueue(p.side, p.level, q);
             var r := if b.Best(p.side) == p.level then Refresh(b1, p.side) else b1;
             b'.bids == r.bids && b'.asks == r.asks && b'.tob == r.tob
    ensures Sharp(b')
  {
    hide WfLevels, BestOf;
    ExactOf(b, p.side);
    if b.Best(p.side) == p.level {
      BestLevelExact(b, p.side, q);
    } else {
      InnerLevelExact(b, p.side, p.level, q);
    }
    assert Exact(b', p.side) && Exact(b', p.side.Opposite());
    BothExact(b', p.side);
    assert Thinner(b, b');
  }

  // ---- resting an order ----

  /** Resting where nothing opposite is at or inside the level keeps the book uncrossed. */
  lemma RestUncrossed(b: Book, side: Side, l: nat, id: uint64, qty: uint32)
    requires Uncrossed(b) && l < |b.Lv(side)| <= NULL_IDX && b.free > 0
    requires forall k: nat ::
               k < |b.Lv(side.Opposite())| && b.Lv(side.Opposite())[k] != [] ==> !WithinLimit(side.Opposite(), k, l)
    ensures Uncrossed(Rest(b, side, l, id, qty))
  {
    hide Rest;
    RestLevels(b, side, l, id, qty);
    var b' := Rest(b, side, l, id, qty);
    forall i: nat, k: nat | i < |b'.bids| && k < |b'.asks| && b'.bids[i] != [] && b'.asks[k] != []
      ensures i < k
    {
      assert side.Buy? ==> i == l || b.bids[i] != [];
      assert side.Sell? ==> k == l || b.asks[k] != [];
    }
  }

  lemma RestExact(b: Book, side: Side, l: nat, id: uint64, qty: uint32)
    requires Exact(b, side) && l < |b.Lv(side)| <= NULL_IDX && b.free > 0
    ensures Exact(Rest(b, side, l, id, qty), side)
  {
    RestLevels(b, side, l, id, qty);
    var b' := Rest(b, side, l, id, qty);
    forall j: nat | j < |b'.Lv(side)| && b'.Lv(side)[j] != []
      ensures NotBetter(side, b'.Best(side), j)
    {
      if j != l {
        assert NotBetter(side, b.Best(side), j);
      }
    }
  }

  lemma RestSharp(b: Book, side: Side, l: nat, id: uint64, qty: uint32)
    requires Sharp(b) && l < |b.Lv(side)| && b.free > 0 && qty > 0 && b.base + l < TWO_32
    requires forall j: nat ::
               j < |b.Lv(side.Opposite())| && WithinLimit(side.Opposite(), j, l) ==> b.Lv(side.Opposite())[j] == []
    ensures Sharp(Rest(b, side, l, id, qty))
  {
    hide WfSide, Exact, Uncrossed, Rest;
    BestThere(b, side);
    ExactOf(b, side);
    RestWf(b, side, l, id, qty);
    RestExact(b, side, l, id, qty);
    RestLevels(b, side, l, id, qty);
    RestOther(b, side, l, id, qty);
    RestUncrossed(b, side, l, id, qty);
    ExactFrame(b, Rest(b, side, l, id, qty), side.Opposite());
    BothExact(Rest(b, side, l, id, qty), side);
  }

  lemma RestOther(b: Book, side: Side, l: nat, id: uint64, qty: uint32)
    requires l < |b.Lv(side)| <= NULL_IDX && b.free > 0
    ensures Rest(b, side, l, id, qty).Best(side.Opposite()) == b.Best(side.Opposite())
  {
  }

  lemma InsertAtSharp(b: Book, id: uint64, side: Side, l: nat, qty: uint32)
    requires Sharp(b) && l < |b.bids| && b.base + l < TWO_32
    ensures Sharp(InsertAt(b, id, side, l, qty).0)
  {
    SweepSharp(b, side.Opposite(), id, l, qty);
    SweepWf(b, side.Opposite(), id, l, qty);
    var (b1, rem) := Sweep(b, side.Opposite(), id, l, qty);
    if rem > 0 && b1.free > 0 {
      forall j: nat | j < |b1.Lv(side.Opposite())| && WithinLimit(side.Opposite(), j, l)
        ensures b1.Lv(side.Opposite())[j] == []
      {
        SweepExhausts(b, side.Opposite(), id, l, qty, j);
      }
      RestSharp(b1, side, l, id, rem);
    }
  }

  // ---- re-basing ----

  /** Rebase with both bests forgotten before the rescan, as an exact version would do it. */
  function RebaseReset(b: Book, newBase: uint32): Book
    requires |b.bids| <= NULL_IDX && |b.asks| <= NULL_IDX
  {
    if newBase == b.base then b
    else UpdateBest(UpdateBest(Slide(b, newBase).WithBest(Buy, NULL_IDX, 0).WithBest(Sell, NULL_IDX, 0), Buy), Sell)
  }

  /** Every level that stays in the window ends up no further in than the stale index the rescan starts from. */
  ghost predicate InSight(b: Book, side: Side, newBase: uint32) {
    b.Best(side) != NULL_IDX ==> forall i: nat :: i < |b.Lv(side)| ==> LevelInSight(b, side, newBase, i)
  }

  ghost predicate LevelInSight(b: Book, side: Side, newBase: uint32, i: nat)
    requires i < |b.Lv(side)|
  {
    b.Lv(side)[i] != [] && Kept(|b.Lv(side)|, b.base, newBase, i) ==> Outward(side, b.Best(side), b.base + i - newBase)
  }

  /** The levels after a slide, level by level. */
  lemma MovedLevel(ls: Levels, base: uint32, newBase: uint32, i: nat)
    requires i < |ls| && Kept(|ls|, base, newBase, i)
    ensures Moved(ls, base, newBase)[base + i - newBase] == ls[i]
  {
  }

  lemma MovedFrom(ls: Levels, base: uint32, newBase: uint32, j: nat)
    requires j < |ls| && Moved(ls, base, newBase)[j] != []
    ensures var i: int := newBase + j - base;
            0 <= i < |ls| && Kept(|ls|, base, newBase, i) && Moved(ls, base, newBase)[j] == ls[i]
  {
  }

  lemma InSightIff(b: Book, side: Side, newBase: uint32, start: nat)
    requires start == b.Best(side) < |b.Lv(side)| <= NULL_IDX
    ensures NothingInward(Moved(b.Lv(side), b.base, newBase), side, start) <==> InSight(b, side, newBase)
  {
    var ls := b.Lv(side);
    var ms := Moved(ls, b.base, newBase);
    if NothingInward(ms, side, start) {
      forall i: nat | i < |ls|
        ensures LevelInSight(b, side, newBase, i)
      {
        if ls[i] != [] && Kept(|ls|, b.base, newBase, i) {
          MovedLevel(ls, b.base, newBase, i);
        }
      }
    }
    if InSight(b, side, newBase) {
      forall j: nat | j < |ms| && ms[j] != []
        ensures Outward(side, start, j)
      {
        MovedFrom(ls, b.base, newBase, j);
        assert LevelInSight(b, side, newBase, newBase + j - b.base);
      }
    }
  }

  /** The rescan after a slide is exact exactly when nothing slid inward past the old best index. */
  lemma RescanExactIff(b: Book, side: Side, newBase: uint32)
    requires Exact(b, side) && 0 < |b.Lv(side)| <= NULL_IDX
    ensures Exact(UpdateBest(Slide(b, newBase), side), side) <==> InSight(b, side, newBase)
  {
    UpdateBestExactIff(Slide(b, newBase), side);
    if b.Best(side) != NULL_IDX {
      InSightIff(b, side, newBase, b.Best(side));
    } else {
      forall j: nat | j < |b.Lv(side)|
        ensures Moved(b.Lv(side), b.base, newBase)[j] == []
      {
      }
    }
  }

  /** A window that moves away from the side's far end never hides anything: up for bids, down for asks. */
  lemma SlideOutwardInSight(b: Book, side: Side, newBase: uint32)
    requires Exact(b, side)
    requires if side.Buy? then newBase >= b.base else newBase <= b.base
    ensures InSight(b, side, newBase)
  {
    forall i: nat | i < |b.Lv(side)|
      ensures b.Best(side) != NULL_IDX ==> LevelInSight(b, side, newBase, i)
    {
      assert b.Lv(side)[i] != [] ==> NotBetter(side, b.Best(side), i);
    }
  }

  /** While the best price itself stays in the window, that direction is also necessary. */
  lemma BestKeptInSightIff(b: Book, side: Side, newBase: uint32)
    requires Exact(b, side) && b.Best(side) != NULL_IDX && Kept(|b.Lv(side)|, b.base, newBase, b.Best(side))
    ensures InSight(b, side, newBase) <==> if side.Buy? then newBase >= b.base else newBase <= b.base
  {
    if if side.Buy? then newBase >= b.base else newBase <= b.base {
      SlideOutwardInSight(b, side, newBase);
    } else {
      assert !LevelInSight(b, side, newBase, b.Best(side));
    }
  }

  lemma SlideUncrossed(b: Book, newBase: uint32)
    requires Uncrossed(b) && |b.bids| == |b.asks|
    ensures Uncrossed(Slide(b, newBase))
  {
    var s := Slide(b, newBase);
    forall i: nat, j: nat | i < |s.bids| && j < |s.asks| && s.bids[i] != [] && s.asks[j] != []
      ensures i < j
    {
      MovedFrom(b.bids, b.base, newBase, i);
      MovedFrom(b.asks, b.base, newBase, j);
    }
  }

  /** Re-basing keeps the top of book exact on both sides exactly when neither side slid past its old best index. */
  lemma RebaseSharpIff(b: Book, newBase: uint32)
    requires Sharp(b) && newBase != b.base
    ensures Sharp(Rebase(b, newBase)) <==> InSight(b, Buy, newBase) && InSight(b, Sell, newBase)
  {
    hide Moved, Slide, BestOf;
    var s := Slide(b, newBase);
    RebaseWf(b, newBase);
    SlideUncrossed(b, newBase);
    RescanExactIff(b, Buy, newBase);
    RescanExactIff(b, Sell, newBase);
    var r := Rebase(b, newBase);
    assert r.bids == s.bids && r.asks == s.asks;
    assert r.tob.bestBid == UpdateBest(s, Buy).tob.bestBid;
    assert r.tob.bestAsk == UpdateBest(s, Sell).tob.bestAsk;
  }

  lemma ResetExact(b: Book, side: Side)
    requires 0 < |b.Lv(side)| <= NULL_IDX && b.Best(side) == NULL_IDX
    ensures Exact(UpdateBest(b, side), side)
  {
    UpdateBestExactIff(b, side);
  }

  /** Forgetting both bests first makes re-basing exact without condition. */
  lemma RebaseResetSharp(b: Book, newBase: uint32)
    requires Sharp(b)
    ensures Sharp(RebaseReset(b, newBase))
  {
    hide WfLevels, BestOf;
    if newBase != b.base {
      assert WfSide(b, Buy) && WfSide(b, Sell);
      MovedWf(b.bids, b.base, newBase);
      MovedWf(b.asks, b.base, newBase);
      SlideUncrossed(b, newBase);
      var s := Slide(b, newBase).WithBest(Buy, NULL_IDX, 0).WithBest(Sell, NULL_IDX, 0);
      var u := UpdateBest(s, Buy);
      ResetExact(s, Buy);
      ResetExact(u, Sell);
      var r := UpdateBest(u, Sell);
      assert Exact(r, Buy) && Exact(r, Sell);
      SharpFrom(r);
    }
  }

  lemma SharpFrom(b: Book)
    requires 0 < |b.bids| == |b.asks| <= NULL_IDX && WfLevels(b.base, b.bids) && WfLevels(b.base, b.asks)
    requires Exact(b, Buy) && Exact(b, Sell) && Uncrossed(b)
    ensures Sharp(b)
  {
    WfFromSides(b, Buy);
  }

  /** The source's re-basing equals the exact one under the same condition. */
  lemma RebaseIsResetIff(b: Book, newBase: uint32)
    requires Sharp(b) && newBase != b.base
    ensures Rebase(b, newBase) == RebaseReset(b, newBase) <==> InSight(b, Buy, newBase) && InSight(b, Sell, newBase)
  {
    RebaseSharpIff(b, newBase);
    RebaseResetSharp(b, newBase);
    if Sharp(Rebase(b, newBase)) {
      var r, x := Rebase(b, newBase), RebaseReset(b, newBase);
      BestIsUnique(r.bids, Buy, r.tob.bestBid, x.tob.bestBid);
      BestIsUnique(r.asks, Sell, r.tob.bestAsk, x.tob.bestAsk);
    }
  }

  lemma BestIsUnique(ls: Levels, side: Side, best: uint32, best': uint32)
    requires BestOf(ls, side, best) && BestOf(ls, side, best')
    ensures best == best'
  {
  }

  /** An insertion is safe when the re-basing it may trigger is. */
  ghost predicate SafeAt(b: Book, price: uint32)
    requires |b.bids| <= NULL_IDX && |b.asks| <= NULL_IDX
  {
    var b1 := Anchored(b, price);
    var newBase := CentredBase(|b1.bids|, price);
    !InBand(b1, price) && b1.live <= BOOTSTRAP_REBASE_LIMIT && newBase != b1.base ==>
      InSight(b1, Buy, newBase) && InSight(b1, Sell, newBase)
  }

  lemma WindowedSharp(b: Book, price: uint32)
    requires Sharp(b) && (b.baseSet || EmptyBook(b)) && SafeAt(b, price)
    ensures Sharp(Windowed(b, price))
  {
    AnchoredWf(b, price);
    var b1 := Anchored(b, price);
    assert Sharp(b1);
    var newBase := CentredBase(|b1.bids|, price);
    if newBase != b1.base {
      RebaseSharpIff(b1, newBase);
    }
  }

  lemma InsertSharp(b: Book, id: uint64, side: Side, price: uint32, qty: uint32)
    requires Sharp(b) && (b.baseSet || EmptyBook(b)) && SafeAt(b, price)
    ensures Sharp(Insert(b, id, side, price, qty).0)
  {
    hide Insert, InsertAt, Windowed, Exact, Uncrossed, WfSide, EmptyBook, SafeAt;
    WindowedSharp(b, price);
    InsertIs(b, id, side, price, qty);
    var w := Windowed(b, price);
    if InBand(w, price) {
      InsertAtSharp(w, id, side, price - w.base, qty);
    }
  }

  lemma MarketSharp(b: Book, side: Side, qty: uint32)
    requires Sharp(b)
    ensures Sharp(Market(b, side, qty))
  {
    SweepSharp(b, side.Opposite(), 0, if side.Buy? then |b.asks| - 1 else 0, qty);
  }

  lemma AccountedSharp(b: Book, t: Trade, live: uint32)
    requires Sharp(b)
    ensures Sharp(Accounted(b, t, live))
  {
    LoggedWf(b, t, live);
  }

  lemma CancelSharp(b: Book, id: uint64)
    requires Sharp(b)
    ensures Sharp(Cancel(b, id))
  {
    if Locate(b, id).At? {
      RemoveAtSharp(b, Locate(b, id));
    }
  }

  lemma ExecuteSharp(b: Book, id: uint64, fill: uint32)
    requires Sharp(b)
    ensures Sharp(Execute(b, id, fill).0)
  {
    hide WfSide, UpdateBest, Exact;
    var p := Locate(b, id);
    if p.At? {
      ExecuteSteps(b, id, fill);
      var o := OrderAt(b, p);
      if fill >= o.qty {
        RemoveAtSharp(b, p);
        AccountedSharp(RemoveAt(b, p), Trade(id, 0, b.base + p.level, o.qty), SatSub(b.live, 1));
      } else {
        ReduceAtSharp(b, p, fill);
        AccountedSharp(ReduceAt(b, p, fill), Trade(id, 0, b.base + p.level, fill), b.live);
      }
    }
  }

  lemma ReduceSharp(b: Book, id: uint64, amount: uint32)
    requires Sharp(b)
    ensures Sharp(Reduce(b, id, amount).0)
  {
    var p := Locate(b, id);
    if p.At? {
      if amount >= OrderAt(b, p).qty {
        CancelSharp(b, id);
      } else {
        ReduceAtSharp(b, p, amount);
      }
    }
  }
}
