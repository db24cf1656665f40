/** How the cached quantity at the best price relates to what is queued there. */
module QuoteQuantities {
  import opened Types
  import opened BookSpec

  /** Never more than the best level's volume; nothing when there is no best. */
  ghost predicate QtyAtMost(b: Book, side: Side) {
    if b.Best(side) < |b.Lv(side)| then b.BestQty(side) <= Volume(b.Lv(side)[b.Best(side)]) else b.BestQty(side) == 0
  }

  /** Exactly the best level's volume, as far as 32 bits hold it. */
  ghost predicate QtyCurrent(b: Book, side: Side) {
    b.BestQty(side) == if b.Best(side) < |b.Lv(side)| then Wrap32(Volume(b.Lv(side)[b.Best(side)])) else 0
  }

  ghost predicate Modest(b: Book) {
    QtyAtMost(b, Buy) && QtyAtMost(b, Sell)
  }

  lemma CurrentIsAtMost(b: Book, side: Side)
    requires QtyCurrent(b, side)
    ensures QtyAtMost(b, side)
  {
    if b.Best(side) < |b.Lv(side)| {
      WrapAtMost(Volume(b.Lv(side)[b.Best(side)]));
    }
  }

  lemma WrapAtMost(v: nat)
    ensures Wrap32(v) <= v
  {
    assert v == v / 0x1_0000_0000 * 0x1_0000_0000 + v % 0x1_0000_0000;
  }

  lemma ModestFrom(b: Book, side: Side)
    requires QtyAtMost(b, side) && QtyAtMost(b, side.Opposite())
    ensures Modest(b)
  {
  }

  lemma ModestOf(b: Book, side: Side)
    requires Modest(b)
    ensures QtyAtMost(b, side) && QtyAtMost(b, side.Opposite())
  {
  }

  lemma UpdateBestCurrent(b: Book, side: Side)
    requires 0 < |b.Lv(side)| <= NULL_IDX
    ensures QtyCurrent(UpdateBest(b, side), side)
    ensures QtyAtMost(b, side.Opposite()) ==> Modest(UpdateBest(b, side))
  {
    var b' := UpdateBest(b, side);
    CurrentIsAtMost(b', side);
    if QtyAtMost(b, side.Opposite()) {
      ModestFrom(b', side);
    }
  }

  lemma RefreshCurrent(b: Book, side: Side)
    requires 0 < |b.Lv(side)| <= NULL_IDX
    ensures QtyCurrent(Refresh(b, side), side)
    ensures QtyAtMost(b, side.Opposite()) ==> Modest(Refresh(b, side))
  {
    UpdateBestCurrent(b, side);
    var b' := Refresh(b, side);
    CurrentIsAtMost(b', side);
    if QtyAtMost(b, side.Opposite()) {
      ModestFrom(b', side);
    }
  }

  lemma FillStepQuantity(b: Book, side: Side, taker: uint64, rem: uint32)
    requires Modest(b) && b.Best(side) < |b.Lv(side)| <= NULL_IDX && b.Lv(side)[b.Best(side)] != []
    ensures Modest(FillStep(b, side, taker, rem)) && QtyCurrent(FillStep(b, side, taker, rem), side)
  {
    hide Refresh;
    ModestOf(b, side);
    RefreshCurrent(FillFront(b, side, taker, rem), side);
  }

  /** A match that trades at all leaves the traded side's quantity current. */
  lemma {:induction false} SweepQuantity(b: Book, side: Side, taker: uint64, limit: nat, rem: uint32)
    requires Modest(b) && 0 < |b.Lv(side)| <= NULL_IDX
    ensures var (b', left) := Sweep(b, side, taker, limit, rem);
            Modest(b') && left <= rem && (left < rem || QtyCurrent(b, side) ==> QtyCurrent(b', side))
    decreases Count(b.Lv(side)), rem
  {
    hide FillStep, Modest, QtyCurrent;
    if rem > 0 && Marketable(b, side, limit) {
      FillStepQuantity(b, side, taker, rem);
      FillStepShrinks(b, side, taker, rem);
      SweepQuantity(FillStep(b, side, taker, rem), side, taker, limit, rem - FillQty(b, side, rem));
    }
  }

  /** Taking an order out of the best level, or lowering it there, leaves the quantity current. */
  lemma RemoveAtQuantity(b: Book, p: Place)
    requires Modest(b) && p.At? && ValidPlace(b, p) && |b.Lv(p.side)| <= NULL_IDX
    ensures Modest(RemoveAt(b, p))
    ensures b.Best(p.side) == p.level || QtyCurrent(b, p.side) ==> QtyCurrent(RemoveAt(b, p), p.side)
  {
    hide WfSide, UpdateBest, Volume, Refresh;
    ModestOf(b, p.side);
    var d := DropAt(b, p.side, p.level, p.pos);
    RefreshCurrent(d, p.side);
    if b.Best(p.side) != p.level {
      ModestFrom(d, p.side);
    }
  }

  lemma ReduceAtQuantity(b: Book, p: Place, amount: nat)
    requires Modest(b) && p.At? && ValidPlace(b, p) && |b.Lv(p.side)| <= NULL_IDX && amount <= OrderAt(b, p).qty
    ensures Modest(ReduceAt(b, p, amount))
    ensures b.Best(p.side) == p.level || QtyCurrent(b, p.side) ==> QtyCurrent(ReduceAt(b, p, amount), p.side)
  {
    hide WfSide, Scan, Volume, Refresh;
    ModestOf(b, p.side);
    var d := Lowered(b, p.side, p.level, p.pos, amount);
    RefreshCurrent(d, p.side);
    if b.Best(p.side) != p.level {
      ModestFrom(d, p.side);
    }
  }

  lemma {:induction false} VolumeLast(q: Queue, r: Resting)
    ensures Volume(q + [r]) == Volume(q) + r.qty
  {
    if q == [] {
      assert q + [r] == [r];
    } else {
      assert (q + [r])[1..] == q[1..] + [r];
      VolumeLast(q[1..], r);
    }
  }

  /** Resting never makes the cached quantity too large. */
  lemma RestQuantity(b: Book, side: Side, l: nat, id: uint64, qty: uint32)
    requires Modest(b) && l < |b.Lv(side)| <= NULL_IDX && b.free > 0
    ensures Modest(Rest(b, side, l, id, qty))
  {
    ModestOf(b, side);
    VolumeLast(b.Lv(side)[l], Resting(id, qty));
    var b' := Rest(b, side, l, id, qty);
    WrapAtMost(Volume(b'.Lv(side)[l]));
    ModestFrom(b', side);
  }

  /** It leaves the quantity out of date exactly when the order joins the best level. */
  lemma RestStaleIff(b: Book, side: Side, l: nat, id: uint64, qty: uint32)
    requires QtyCurrent(b, side) && l < |b.Lv(side)| <= NULL_IDX && b.free > 0 && qty > 0
    requires b.Best(side) == NULL_IDX || b.Best(side) < |b.Lv(side)|
    ensures QtyCurrent(Rest(b, side, l, id, qty), side) <==> l != b.Best(side)
  {
    VolumeLast(b.Lv(side)[l], Resting(id, qty));
    if l == b.Best(side) {
      WrapDiffers(Volume(b.Lv(side)[l]), qty);
    }
  }

  lemma WrapDiffers(v: nat, m: uint32)
    requires m > 0
    ensures Wrap32(v + m) != Wrap32(v)
  {
    var a, c := v / 0x1_0000_0000, (v + m) / 0x1_0000_0000;
    assert Wrap32(v + m) == Wrap32(v) ==> m == (c - a) * 0x1_0000_0000;
  }

  lemma WindowedQuantity(b: Book, price: uint32)
    requires Modest(b) && 0 < |b.bids| == |b.asks| <= NULL_IDX
    ensures Modest(Windowed(b, price))
  {
    var b1 := Anchored(b, price);
    assert Modest(b1);
    var newBase := CentredBase(|b1.bids|, price);
    var s := Slide(b1, newBase);
    UpdateBestCurrent(s, Buy);
    CurrentIsAtMost(UpdateBest(s, Buy), Buy);
    UpdateBestCurrent(UpdateBest(s, Buy), Sell);
  }

  lemma InsertQuantity(b: Book, id: uint64, side: Side, price: uint32, qty: uint32)
    requires Modest(b) && 0 < |b.bids| == |b.asks| <= NULL_IDX
    ensures Modest(Insert(b, id, side, price, qty).0)
  {
    hide Insert, InsertAt, Windowed, Sweep, Rest, QtyAtMost, QtyCurrent;
    WindowedQuantity(b, price);
    InsertIs(b, id, side, price, qty);
    var w := Windowed(b, price);
    if InBand(w, price) {
      var l := price - w.base;
      SweepQuantity(w, side.Opposite(), id, l, qty);
      var (b1, rem) := Sweep(w, side.Opposite(), id, l, qty);
      InsertAtIs(w, id, side, l, qty, b1, rem);
      if rem > 0 && b1.free > 0 {
        RestQuantity(b1, side, l, id, rem);
      }
    }
  }

  lemma CancelQuantity(b: Book, id: uint64)
    requires Modest(b) && |b.bids| <= NULL_IDX && |b.asks| <= NULL_IDX
    ensures Modest(Cancel(b, id))
    ensures var p := Locate(b, id); p.At? && b.Best(p.side) == p.level ==> QtyCurrent(Cancel(b, id), p.side)
  {
    if Locate(b, id).At? {
      RemoveAtQuantity(b, Locate(b, id));
    }
  }

  lemma ExecuteQuantity(b: Book, id: uint64, fill: uint32)
    requires Modest(b) && |b.bids| <= NULL_IDX && |b.asks| <= NULL_IDX
    ensures Modest(Execute(b, id, fill).0)
    ensures var p := Locate(b, id); p.At? && b.Best(p.side) == p.level ==> QtyCurrent(Execute(b, id, fill).0, p.side)
  {
    var p := Locate(b, id);
    if p.At? {
      ExecuteSteps(b, id, fill);
      if fill >= OrderAt(b, p).qty {
        RemoveAtQuantity(b, p);
      } else {
        ReduceAtQuantity(b, p, fill);
      }
    }
  }

  lemma ReduceQuantity(b: Book, id: uint64, amount: uint32)
    requires Modest(b) && |b.bids| <= NULL_IDX && |b.asks| <= NULL_IDX
    ensures Modest(Reduce(b, id, amount).0)
    ensures var p := Locate(b, id); p.At? && b.Best(p.side) == p.level ==> QtyCurrent(Reduce(b, id, amount).0, p.side)
  {
    var p := Locate(b, id);
    if p.At? {
      if amount >= OrderAt(b, p).qty {
        CancelQuantity(b, id);
      } else {
        ReduceAtQuantity(b, p, amount);
      }
    }
  }

  // ---- what leaves the quotes alone ----

  /** The quote of a side is what it was. */
  ghost predicate SameQuote(b: Book, b': Book, side: Side) {
    b'.Best(side) == b.Best(side) && b'.BestQty(side) == b.BestQty(side)
  }

  /** Off the best level nothing of the quotes moves, and the other side's quote never does. */
  ghost predicate QuotesFollow(b: Book, b': Book, p: Place) {
    && (p.Nowhere? || b.Best(p.side) != p.level ==> b'.tob == b.tob)
    && (p.At? ==> SameQuote(b, b', p.side.Opposite()))
  }

  lemma RemoveAtQuotes(b: Book, p: Place)
    requires p.At? && ValidPlace(b, p) && |b.Lv(p.side)| <= NULL_IDX
    ensures QuotesFollow(b, RemoveAt(b, p), p)
  {
  }

  lemma ReduceAtQuotes(b: Book, p: Place, amount: nat)
    requires p.At? && ValidPlace(b, p) && |b.Lv(p.side)| <= NULL_IDX && amount <= OrderAt(b, p).qty
    ensures QuotesFollow(b, ReduceAt(b, p, amount), p)
  {
  }

  lemma AccountedQuotes(b: Book, y: Book, p: Place, t: Trade, live: uint32)
    requires QuotesFollow(b, y, p)
    ensures QuotesFollow(b, Accounted(y, t, live), p)
  {
  }

  /**
   Cancelling, executing and reducing an order off its side's best level, or of an unknown id, changes no quote, and
   none of the three ever changes the quote of the other side.
   */
  lemma OrderQuotes(b: Book, id: uint64, qty: uint32)
    requires |b.bids| <= NULL_IDX && |b.asks| <= NULL_IDX
    ensures QuotesFollow(b, Cancel(b, id), Locate(b, id))
    ensures QuotesFollow(b, Execute(b, id, qty).0, Locate(b, id))
    ensures QuotesFollow(b, Reduce(b, id, qty).0, Locate(b, id))
  {
    hide RemoveAt, ReduceAt, Locate, Accounted;
    var p := Locate(b, id);
    LocateHolds(b, id);
    if p.At? {
      var q := OrderAt(b, p).qty;
      RemoveAtQuotes(b, p);
      ExecuteSteps(b, id, qty);
      if qty >= q {
        AccountedQuotes(b, RemoveAt(b, p), p, Trade(id, 0, b.base + p.level, q), SatSub(b.live, 1));
      } else {
        ReduceAtQuotes(b, p, qty);
        AccountedQuotes(b, ReduceAt(b, p, qty), p, Trade(id, 0, b.base + p.level, qty), b.live);
      }
    }
  }

  lemma LocateHolds(b: Book, id: uint64)
    ensures ValidPlace(b, Locate(b, id))
  {
  }

  /** Re-basing leaves both quoted quantities current. */
  lemma RebaseQuantity(b: Book, newBase: uint32)
    requires 0 < |b.bids| == |b.asks| <= NULL_IDX && newBase != b.base
    ensures QtyCurrent(Rebase(b, newBase), Buy) && QtyCurrent(Rebase(b, newBase), Sell)
  {
    var s := Slide(b, newBase);
    ScanRange(s, Buy);
    ScanRange(UpdateBest(s, Buy), Sell);
  }

  lemma ScanRange(b: Book, side: Side)
    requires 0 < |b.Lv(side)| <= NULL_IDX
    ensures QtyCurrent(UpdateBest(b, side), side)
    ensures SameQuote(b, UpdateBest(b, side), side.Opposite())
    ensures UpdateBest(b, side).Lv(side.Opposite()) == b.Lv(side.Opposite())
  {
  }
}
