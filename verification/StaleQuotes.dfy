/**
 What an unsafe re-base costs. It leaves an order hidden from the quotes, in front of the very order it was made
 for, so nothing the insertion does afterwards can bring it back into sight.
 */
module StaleQuotes {
  import opened Types
  import opened BookSpec
  import opened BookWf
  import opened Quotes
  import opened Forecasts

  /** An occupied level strictly further in than the cached best of its side. */
  ghost predicate HiddenAt(b: Book, hs: Side, j: nat) {
    && j < |b.Lv(hs)| && b.Lv(hs)[j] != []
    && (b.Best(hs) == NULL_IDX || !Outward(hs, b.Best(hs), j))
  }

  lemma HiddenIsInexact(b: Book, hs: Side, j: nat)
    requires HiddenAt(b, hs, j)
    ensures !Sharp(b)
  {
    assert !NotBetter(hs, b.Best(hs), j);
  }

  // ---- nothing an insertion does uncovers a hidden level ----

  /** A rescan outward from a best never lands further in. */
  lemma RefreshKeepsHidden(b: Book, side: Side, j: nat)
    requires HiddenAt(b, side, j) && b.Best(side) < |b.Lv(side)| <= NULL_IDX
    ensures HiddenAt(Refresh(b, side), side, j)
  {
    ScanFindsFirst(b.Lv(side), side, b.Best(side));
  }

  lemma FillKeepsHidden(b: Book, side: Side, taker: uint64, rem: uint32, hs: Side, j: nat)
    requires HiddenAt(b, hs, j) && b.Best(side) < |b.Lv(side)| <= NULL_IDX && b.Lv(side)[b.Best(side)] != []
    ensures HiddenAt(FillStep(b, side, taker, rem), hs, j)
  {
    if hs == side {
      assert j != b.Best(side);
      RefreshKeepsHidden(FillFront(b, side, taker, rem), side, j);
    } else {
      FillStepFrame(b, side, taker, rem);
    }
  }

  lemma {:induction false} SweepKeepsHidden(b: Book, side: Side, taker: uint64, limit: nat, rem: uint32, hs: Side,
                                j: nat)
    requires HiddenAt(b, hs, j) && |b.Lv(side)| <= NULL_IDX
    ensures HiddenAt(Sweep(b, side, taker, limit, rem).0, hs, j)
    decreases Count(b.Lv(side)), rem
  {
    hide FillStep, HiddenAt;
    if rem > 0 && Marketable(b, side, limit) {
      FillKeepsHidden(b, side, taker, rem, hs, j);
      FillStepShrinks(b, side, taker, rem);
      SweepKeepsHidden(FillStep(b, side, taker, rem), side, taker, limit, rem - FillQty(b, side, rem), hs, j);
    }
  }

  lemma RestKeepsHidden(b: Book, side: Side, l: nat, id: uint64, qty: uint32, hs: Side, j: nat)
    requires HiddenAt(b, hs, j) && l < |b.Lv(side)| <= NULL_IDX && b.free > 0 && !Outward(hs, l, j)
    ensures HiddenAt(Rest(b, side, l, id, qty), hs, j)
  {
    var b' := Rest(b, side, l, id, qty);
    RestLevels(b, side, l, id, qty);
    assert b'.Lv(hs)[j] != [];
    assert b'.Best(hs) == b.Best(hs) || b'.Best(hs) == l;
  }

  /** An order at level l, whether it trades, rests or is dropped, leaves a level hidden in front of l hidden. */
  lemma InsertAtKeepsHidden(w: Book, id: uint64, side: Side, l: nat, qty: uint32, hs: Side, j: nat)
    requires HiddenAt(w, hs, j) && l < |w.bids| == |w.asks| <= NULL_IDX && !Outward(hs, l, j)
    ensures HiddenAt(InsertAt(w, id, side, l, qty).0, hs, j)
  {
    hide Sweep, Rest, InsertAt, HiddenAt;
    var (b1, rem) := Sweep(w, side.Opposite(), id, l, qty);
    SweepKeepsHidden(w, side.Opposite(), id, l, qty, hs, j);
    InsertAtIs(w, id, side, l, qty, b1, rem);
    if rem > 0 && b1.free > 0 {
      RestKeepsHidden(b1, side, l, id, rem, hs, j);
    }
  }

  // ---- what an unsafe re-base leaves behind ----

  /** The level that slid past the stale index is hidden afterwards. */
  lemma UnsafeRebaseHides(b: Book, newBase: uint32, hs: Side) returns (i: nat, j: nat)
    requires Wf(b) && newBase != b.base && !InSight(b, hs, newBase)
    ensures i < |b.Lv(hs)| && b.base + i == newBase + j
    ensures HiddenAt(Rebase(b, newBase), hs, j)
  {
    hide Rebase, Moved, WfLevels;
    assert WfSide(b, hs);
    i :| i < |b.Lv(hs)| && !LevelInSight(b, hs, newBase, i);
    j := b.base + i - newBase;
    MovedLevel(b.Lv(hs), b.base, newBase, i);
    RebaseSides(b, newBase, hs);
    ScanFindsFirst(Moved(b.Lv(hs), b.base, newBase), hs, b.Best(hs));
  }

  lemma RescanSides(b: Book, side: Side)
    requires |b.Lv(side)| <= NULL_IDX
    ensures var r, other := UpdateBest(b, side), side.Opposite();
            && r.bids == b.bids && r.asks == b.asks && r.base == b.base && r.Best(other) == b.Best(other)
            && (b.Best(side) < |b.Lv(side)| ==> r.Best(side) == Scan(b.Lv(side), side, b.Best(side)))
  {
    if b.Best(side) < |b.Lv(side)| {
      ScanFindsFirst(b.Lv(side), side, b.Best(side));
    }
  }

  /** Each side of a re-based book is that side of the slid book, rescanned. */
  lemma RebaseSides(b: Book, newBase: uint32, side: Side)
    requires |b.bids| == |b.asks| <= NULL_IDX && newBase != b.base
    ensures var r := Rebase(b, newBase);
            && r.base == newBase && |r.Lv(side)| == |b.Lv(side)| && r.Lv(side) == Moved(b.Lv(side), b.base, newBase)
            && (b.Best(side) < |b.Lv(side)| ==> r.Best(side) == Scan(r.Lv(side), side, b.Best(side)))
  {
    hide UpdateBest;
    var s := Slide(b, newBase);
    var u := UpdateBest(s, Buy);
    RescanSides(s, Buy);
    RescanSides(u, Sell);
  }

  lemma RebaseUncrossed(b: Book, newBase: uint32)
    requires |b.bids| == |b.asks| <= NULL_IDX && newBase != b.base && Uncrossed(b)
    ensures Uncrossed(Rebase(b, newBase))
  {
    hide Rebase;
    SlideUncrossed(b, newBase);
    RebaseSides(b, newBase, Buy);
    RebaseSides(b, newBase, Sell);
  }

  /** The side on which re-basing for this price may hide an order: bids when the window falls, asks when it rises. */
  function HiddenSide(b: Book, price: uint32): Side {
    if price < b.base then Buy else Sell
  }

  /** The window of an unsafe insertion, and the order it hides in front of the new order's level. */
  lemma UnsafeWindow(b: Book, price: uint32) returns (w: Book, l: nat, j: nat)
    requires Sharp(b) && (b.baseSet || EmptyBook(b)) && !SafeAt(b, price)
    ensures w == Windowed(b, price) && InBand(w, price) && l == price - w.base && |w.bids| == |w.asks| == |b.bids|
    ensures Wf(w) && Uncrossed(w)
    ensures var hs := HiddenSide(b, price);
            && HiddenAt(w, hs, j) && !Outward(hs, l, j)
            && forall k: nat ::
                 k < |w.Lv(hs.Opposite())| && w.Lv(hs.Opposite())[k] != [] ==> !WithinLimit(hs.Opposite(), k, l)
  {
    hide Rebase, Windowed, Moved, WfSide, SafeAt, EmptyBook, Exact, InSight, HiddenAt;
    UnsafeIsRebase(b, price);
    var newBase, hs := CentredBase(|b.bids|, price), HiddenSide(b, price);
    w, l := Rebase(b, newBase), price - newBase;
    UnsafeSide(b, price, newBase);
    var i;
    i, j := UnsafeRebaseHides(b, newBase, hs);
    RebaseWf(b, newBase);
    RebaseUncrossed(b, newBase);
    RebaseSides(b, newBase, hs);
    RebaseSides(b, newBase, hs.Opposite());
    forall k: nat | k < |w.Lv(hs.Opposite())| && w.Lv(hs.Opposite())[k] != []
      ensures !WithinLimit(hs.Opposite(), k, l)
    {
      MovedFrom(b.Lv(hs.Opposite()), b.base, newBase, k);
    }
  }

  /** An insertion is unsafe only in an anchored book that it re-bases. */
  lemma UnsafeIsRebase(b: Book, price: uint32)
    requires 0 < |b.bids| == |b.asks| <= NULL_IDX && !SafeAt(b, price)
    ensures b.baseSet && !InBand(b, price) && Anchored(b, price) == b
    ensures var newBase := CentredBase(|b.bids|, price);
            && newBase != b.base && 0 <= price - newBase < |b.bids|
            && Windowed(b, price) == Rebase(b, newBase)
            && !(InSight(b, Buy, newBase) && InSight(b, Sell, newBase))
  {
  }

  /** Only one side can be hidden, the one the window moves away from. */
  lemma UnsafeSide(b: Book, price: uint32, newBase: uint32)
    requires Sharp(b) && !InBand(b, price) && newBase == CentredBase(|b.bids|, price) != b.base
    requires !(InSight(b, Buy, newBase) && InSight(b, Sell, newBase))
    ensures !InSight(b, HiddenSide(b, price), newBase)
  {
    if price < b.base {
      SlideOutwardInSight(b, Sell, newBase);
    } else {
      SlideOutwardInSight(b, Buy, newBase);
    }
  }

  /** An insertion keeps both bests exact and the book uncrossed if and only if its re-base, if any, is safe. */
  lemma InsertSharpIff(b: Book, id: uint64, side: Side, price: uint32, qty: uint32)
    requires Sharp(b) && (b.baseSet || EmptyBook(b))
    ensures Sharp(Insert(b, id, side, price, qty).0) <==> SafeAt(b, price)
  {
    hide Insert, InsertAt, Windowed, Sharp, EmptyBook, SafeAt, HiddenAt;
    SharpShape(b);
    if SafeAt(b, price) {
      InsertSharp(b, id, side, price, qty);
    } else {
      var w, l, j := UnsafeWindow(b, price);
      InsertIs(b, id, side, price, qty);
      InsertAtKeepsHidden(w, id, side, l, qty, HiddenSide(b, price), j);
      HiddenIsInexact(InsertAt(w, id, side, l, qty).0, HiddenSide(b, price), j);
    }
  }

  lemma SharpShape(b: Book)
    requires Sharp(b)
    ensures 0 < |b.bids| == |b.asks| <= NULL_IDX
  {
  }

  // ---- when the book ends up crossed ----

  lemma ThinnerUncrossed(b: Book, b': Book)
    requires Uncrossed(b) && Thinner(b, b')
    ensures Uncrossed(b')
  {
  }

  lemma {:induction false} SweepThins(b: Book, side: Side, taker: uint64, limit: nat, rem: uint32)
    requires |b.Lv(side)| <= NULL_IDX
    ensures Thinner(b, Sweep(b, side, taker, limit, rem).0)
    decreases Count(b.Lv(side)), rem
  {
    hide FillStep;
    if rem > 0 && Marketable(b, side, limit) {
      var f := FillStep(b, side, taker, rem);
      FillStepParts(b, side, taker, rem);
      FillStepFrame(b, side, taker, rem);
      FillStepShrinks(b, side, taker, rem);
      assert Thinner(b, f);
      SweepThins(f, side, taker, limit, rem - FillQty(b, side, rem));
    }
  }

  /** Resting opposite to an order in front of the level crosses the book. */
  lemma RestCrosses(b: Book, side: Side, l: nat, id: uint64, qty: uint32, j: nat)
    requires l < |b.Lv(side)| <= NULL_IDX && b.free > 0
    requires j < |b.Lv(side.Opposite())| && b.Lv(side.Opposite())[j] != [] && !Outward(side.Opposite(), l, j)
    ensures !Uncrossed(Rest(b, side, l, id, qty))
  {
    hide Rest;
    RestLevels(b, side, l, id, qty);
    var b' := Rest(b, side, l, id, qty);
    assert b'.Lv(side)[l] != [] && b'.Lv(side.Opposite())[j] != [];
    assert side.Buy? ==> b'.bids[l] != [] && b'.asks[j] != [];
  }

  /** The order's part of an unsafe insertion, in the window with its hidden level. */
  lemma HiddenInsertCrossesIff(w: Book, id: uint64, side: Side, l: nat, qty: uint32, hs: Side, j: nat)
    requires HiddenAt(w, hs, j) && l < |w.bids| == |w.asks| <= NULL_IDX && !Outward(hs, l, j) && Uncrossed(w)
    requires forall k: nat ::
               k < |w.Lv(hs.Opposite())| && w.Lv(hs.Opposite())[k] != [] ==> !WithinLimit(hs.Opposite(), k, l)
    ensures var (b', rests) := InsertAt(w, id, side, l, qty); Uncrossed(b') <==> !rests || side == hs
  {
    hide Sweep, Rest, InsertAt, Uncrossed, HiddenAt, Thinner;
    var (b1, rem) := Sweep(w, side.Opposite(), id, l, qty);
    SweepKeepsHidden(w, side.Opposite(), id, l, qty, hs, j);
    SweepThins(w, side.Opposite(), id, l, qty);
    ThinnerUncrossed(w, b1);
    InsertAtIs(w, id, side, l, qty, b1, rem);
    if rem > 0 && b1.free > 0 {
      if side == hs {
        StillBehind(w, b1, hs, l);
        RestUncrossed(b1, side, l, id, rem);
      } else {
        HiddenIsThere(b1, hs, j);
        RestCrosses(b1, side, l, id, rem, j);
      }
    }
  }

  lemma HiddenIsThere(b: Book, hs: Side, j: nat)
    requires HiddenAt(b, hs, j)
    ensures j < |b.Lv(hs)| && b.Lv(hs)[j] != []
  {
  }

  lemma StillBehind(w: Book, b1: Book, hs: Side, l: nat)
    requires Thinner(w, b1)
    requires forall k: nat ::
               k < |w.Lv(hs.Opposite())| && w.Lv(hs.Opposite())[k] != [] ==> !WithinLimit(hs.Opposite(), k, l)
    ensures forall k: nat ::
              k < |b1.Lv(hs.Opposite())| && b1.Lv(hs.Opposite())[k] != [] ==> !WithinLimit(hs.Opposite(), k, l)
  {
  }

  /**
   When an insertion crosses the book: exactly when its re-base is unsafe, the order is opposite to the side the
   window leaves behind, a sell below the old window or a buy above it, and what it can get leaves something to rest.
   */
  lemma InsertCrossesIff(b: Book, id: uint64, side: Side, price: uint32, qty: uint32)
    requires Sharp(b) && (b.baseSet || EmptyBook(b))
    ensures !Uncrossed(Insert(b, id, side, price, qty).0)
       <==> !SafeAt(b, price) && (side.Sell? <==> price < b.base) && WillRest(b, side, price, qty)
  {
    hide Insert, InsertAt, Windowed, Uncrossed, EmptyBook, SafeAt, HiddenAt, WillRest;
    InsertRestsIff(b, id, side, price, qty);
    if SafeAt(b, price) {
      InsertSharp(b, id, side, price, qty);
    } else {
      SharpShape(b);
      var w, l, j := UnsafeWindow(b, price);
      InsertIs(b, id, side, price, qty);
      HiddenInsertCrossesIff(w, id, side, l, qty, HiddenSide(b, price), j);
    }
  }
}
