/** What an insertion will come to, read off the book before the call. */
module Forecasts {
  import opened Types
  import opened BookSpec
  import opened BookWf
  import opened Quotes
  import opened Priority

  /** What a taker with this limit can get from a side: the orders from the cached best outward. */
  function Available(b: Book, side: Side, limit: nat): nat {
    Offered(Offers(b.Lv(side), side, b.Best(side), limit))
  }

  /** Scanning past empty levels passes over no offer. */
  lemma {:induction false} OffersFromScan(ls: Levels, side: Side, start: nat, limit: nat)
    requires start < |ls| <= NULL_IDX
    ensures Offers(ls, side, start, limit) == Offers(ls, side, Scan(ls, side, start), limit)
    decreases if side.Buy? then start else |ls| - start
  {
    if ls[start] == [] {
      assert AtLevel(start, ls[start]) == [];
      var next := NextOut(side, start);
      if 0 <= next < |ls| {
        OffersFromScan(ls, side, next, limit);
      }
    }
  }

  lemma OfferedHead(os: seq<Offer>, m: nat)
    requires os != [] && m <= os[0].order.qty
    ensures Offered(HeadGives(os, m)) == Offered(os) - m
  {
    if m < os[0].order.qty {
      assert HeadGives(os, m)[1..] == os[1..];
    }
  }

  /** The best after a fill is the next level with an order from the old best on. */
  lemma FillBest(b: Book, side: Side, taker: uint64, rem: uint32)
    requires b.Best(side) < |b.Lv(side)| <= NULL_IDX && b.Lv(side)[b.Best(side)] != []
    ensures var f := FillStep(b, side, taker, rem); f.Best(side) == Scan(f.Lv(side), side, b.Best(side))
  {
    var f := FillFront(b, side, taker, rem);
    ScanFindsFirst(f.Lv(side), side, b.Best(side));
  }

  lemma FillLeaves(b: Book, side: Side, taker: uint64, limit: nat, rem: uint32)
    requires |b.Lv(side)| <= NULL_IDX && Marketable(b, side, limit)
    ensures Available(FillStep(b, side, taker, rem), side, limit) == Available(b, side, limit) - FillQty(b, side, rem)
  {
    hide FillStep, Offers, AtLevel, HeadGives, Scan;
    var ls, best, m := b.Lv(side), b.Best(side), FillQty(b, side, rem);
    var f := FillStep(b, side, taker, rem);
    FillStepParts(b, side, taker, rem);
    FillBest(b, side, taker, rem);
    OffersFromScan(f.Lv(side), side, best, limit);
    var tail := Offers(ls, side, NextOut(side, best), limit);
    OffersFrame(ls, f.Lv(side), side, NextOut(side, best), limit);
    OffersUnfold(ls, side, best, limit);
    OffersUnfold(f.Lv(side), side, best, limit);
    HeadGivesLevel(best, ls[best], m, tail);
    OfferedHead(AtLevel(best, ls[best]) + tail, m);
  }

  lemma OffersUnfold(ls: Levels, side: Side, from: nat, limit: nat)
    requires from < |ls| && WithinLimit(side, from, limit)
    ensures Offers(ls, side, from, limit) == AtLevel(from, ls[from]) + Offers(ls, side, NextOut(side, from), limit)
  {
  }

  /** A match leaves unfilled what exceeds the quantity available, in every well-formed book. */
  lemma {:induction false} SweepLeaves(b: Book, side: Side, taker: uint64, limit: nat, rem: uint32)
    requires Wf(b)
    ensures var v := Available(b, side, limit);
            Sweep(b, side, taker, limit, rem).1 == if rem <= v then 0 else rem - v
    decreases Count(b.Lv(side)), rem
  {
    hide FillStep, Wf, Offered;
    BestThere(b, side);
    if rem > 0 && Marketable(b, side, limit) {
      FillLeaves(b, side, taker, limit, rem);
      FillStepShrinks(b, side, taker, rem);
      FillStepWf(b, side, taker, rem);
      SweepLeaves(FillStep(b, side, taker, rem), side, taker, limit, rem - FillQty(b, side, rem));
    } else if rem > 0 {
      NothingAvailable(b, side, limit);
    }
  }

  lemma NothingAvailable(b: Book, side: Side, limit: nat)
    requires Wf(b) && !Marketable(b, side, limit)
    ensures Available(b, side, limit) == 0
  {
    BestThere(b, side);
  }

  lemma FillFrees(b: Book, side: Side, taker: uint64, rem: uint32)
    requires b.Best(side) < |b.Lv(side)| <= NULL_IDX && b.Lv(side)[b.Best(side)] != []
    ensures FillStep(b, side, taker, rem).free
         == b.free + if FillQty(b, side, rem) == b.Lv(side)[b.Best(side)][0].qty then 1 else 0
    ensures FillQty(b, side, rem) < b.Lv(side)[b.Best(side)][0].qty ==> FillQty(b, side, rem) == rem
  {
  }

  lemma {:induction false} SweepFrees(b: Book, side: Side, taker: uint64, limit: nat, rem: uint32)
    requires |b.Lv(side)| <= NULL_IDX
    ensures Sweep(b, side, taker, limit, rem).0.free >= b.free
    decreases Count(b.Lv(side)), rem
  {
    hide FillStep;
    if rem > 0 && Marketable(b, side, limit) {
      FillFrees(b, side, taker, rem);
      FillStepShrinks(b, side, taker, rem);
      SweepFrees(FillStep(b, side, taker, rem), side, taker, limit, rem - FillQty(b, side, rem));
    }
  }

  /** There is a slot for what is left of an order: the pool is not full, or the order trades at once. */
  predicate RoomFor(b: Book, side: Side, limit: nat, qty: uint32) {
    b.free > 0 || qty == 0 || Marketable(b, side, limit)
  }

  /** Whether a remainder will find a slot can be told before the match, in every book. */
  lemma RoomIff(b: Book, side: Side, taker: uint64, limit: nat, qty: uint32)
    requires |b.Lv(side)| <= NULL_IDX
    ensures var (b1, rem) := Sweep(b, side, taker, limit, qty);
            rem == 0 || b1.free > 0 <==> RoomFor(b, side, limit, qty)
  {
    hide FillStep, Sweep;
    if qty == 0 || !Marketable(b, side, limit) {
      SweepStops(b, side, taker, limit, qty);
    } else {
      var f, m := FillStep(b, side, taker, qty), FillQty(b, side, qty);
      FillFrees(b, side, taker, qty);
      FillStepShrinks(b, side, taker, qty);
      SweepUnfold(b, side, taker, limit, qty);
      if m < b.Lv(side)[b.Best(side)][0].qty {
        SweepStops(f, side, taker, limit, 0);
      } else {
        SweepFrees(f, side, taker, limit, qty - m);
      }
    }
  }

  /** An order at a level rests exactly when it wants more than it can get and there is room for the rest of it. */
  lemma InsertAtRestsIff(w: Book, id: uint64, side: Side, l: nat, qty: uint32)
    requires Wf(w) && l < |w.bids|
    ensures InsertAt(w, id, side, l, qty).1
       <==> qty > Available(w, side.Opposite(), l) && RoomFor(w, side.Opposite(), l, qty)
  {
    hide Sweep, InsertAt, Rest, RoomFor, Available, WfSide;
    var (b1, rem) := Sweep(w, side.Opposite(), id, l, qty);
    SweepLeaves(w, side.Opposite(), id, l, qty);
    RoomIff(w, side.Opposite(), id, l, qty);
    InsertAtIs(w, id, side, l, qty, b1, rem);
  }

  /** In the window an insertion will find: its price is in band, it wants more than it can get, and there is room. */
  predicate WillRest(b: Book, side: Side, price: uint32, qty: uint32)
    requires |b.bids| <= NULL_IDX && |b.asks| <= NULL_IDX
  {
    var w, opp := Windowed(b, price), side.Opposite();
    && InBand(w, price)
    && qty > Available(w, opp, price - w.base)
    && RoomFor(w, opp, price - w.base, qty)
  }

  /** Whether an insertion rests can be told before the call, in every reachable book. */
  lemma InsertRestsIff(b: Book, id: uint64, side: Side, price: uint32, qty: uint32)
    requires Wf(b) && (b.baseSet || EmptyBook(b))
    ensures Insert(b, id, side, price, qty).1 <==> WillRest(b, side, price, qty)
  {
    hide Insert, InsertAt, Windowed, WfSide, EmptyBook, RoomFor, Available;
    WindowedWf(b, price);
    InsertIs(b, id, side, price, qty);
    var w := Windowed(b, price);
    if InBand(w, price) {
      InsertAtRestsIff(w, id, side, price - w.base, qty);
    }
  }
}
