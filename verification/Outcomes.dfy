/** What limit and market orders come to: their trades, their quotes, and where a remainder rests. */
module Outcomes {
  import opened Types
  import opened BookSpec
  import opened BookIds
  import opened BookWf
  import opened Totals
  import opened Quotes
  import opened QuoteQuantities
  import opened Priority
  import opened Ledgers
  import opened Uniques
  import opened Windows

  /** The price lies in the window of an anchored book. */
  predicate Inside(b: Book, price: uint32) {
    b.baseSet && b.base <= price < b.base + |b.bids|
  }

  /** An insertion inside the window matches where it stands. */
  lemma InsertInside(b: Book, id: uint64, side: Side, price: uint32, qty: uint32)
    returns (l: nat, b1: Book, rem: uint32)
    requires Shape(b) && Inside(b, price)
    ensures l == price - b.base < |b.bids| && Sweep(b, side.Opposite(), id, l, qty) == (b1, rem)
    ensures |b1.bids| == |b1.asks| == |b.bids|
    ensures Insert(b, id, side, price, qty)
         == if rem == 0 || b1.free == 0 then (b1, false) else (Rest(b1, side, l, id, rem), true)
  {
    hide Insert, InsertAt, Sweep, Rest;
    InsertIs(b, id, side, price, qty);
    WindowedInside(b, price);
    l := price - b.base;
    b1, rem := Sweep(b, side.Opposite(), id, l, qty).0, Sweep(b, side.Opposite(), id, l, qty).1;
    InsertAtIs(b, id, side, l, qty, b1, rem);
  }

  lemma WindowedInside(b: Book, price: uint32)
    requires Shape(b) && Inside(b, price)
    ensures Windowed(b, price) == b
  {
  }

  // ---- the trades ----

  /** The trades that b' reports and b does not. */
  function NewTrades(b: Book, b': Book): seq<Trade>
    requires b.log <= b'.log
  {
    b'.log[|b.log|..]
  }

  /** Reported for this taker, at a price this limit allows: bids at or above it, asks at or below. */
  predicate TradeAllowed(t: Trade, side: Side, taker: uint64, limit: int) {
    t.taker == taker && if side.Buy? then t.price >= limit else t.price <= limit
  }

  lemma {:induction false} SweepTrades(b: Book, side: Side, taker: uint64, limit: nat, rem: uint32)
    requires |b.Lv(side)| <= NULL_IDX
    ensures var b' := Sweep(b, side, taker, limit, rem).0;
            && b.log <= b'.log
            && forall k :: |b.log| <= k < |b'.log| ==> TradeAllowed(b'.log[k], side, taker, b.base + limit)
    decreases Count(b.Lv(side)), rem
  {
    hide FillStep, Refresh;
    if rem > 0 && Marketable(b, side, limit) {
      FillStepShrinks(b, side, taker, rem);
      FillStepParts(b, side, taker, rem);
      SweepTrades(FillStep(b, side, taker, rem), side, taker, limit, rem - FillQty(b, side, rem));
    }
  }

  lemma WindowedLog(b: Book, price: uint32)
    requires Shape(b)
    ensures Windowed(b, price).log == b.log
  {
  }

  /** Every trade of an insertion names its id as taker, and no trade is worse than its price. */
  lemma InsertTrades(b: Book, id: uint64, side: Side, price: uint32, qty: uint32)
    requires Shape(b)
    ensures var b' := Insert(b, id, side, price, qty).0;
            && b.log <= b'.log
            && forall t :: t in NewTrades(b, b') ==>
                 t.taker == id && if side.Buy? then t.price <= price else t.price >= price
  {
    hide Insert, InsertAt, Windowed, Sweep, Rest;
    InsertIs(b, id, side, price, qty);
    WindowedLog(b, price);
    var w := Windowed(b, price);
    if InBand(w, price) {
      var l := price - w.base;
      var (b1, rem) := Sweep(w, side.Opposite(), id, l, qty);
      SweepTrades(w, side.Opposite(), id, l, qty);
      InsertAtIs(w, id, side, l, qty, b1, rem);
      if rem > 0 && b1.free > 0 {
        RestLog(b1, side, l, id, rem);
      }
    }
  }

  lemma RestLog(b: Book, side: Side, l: nat, id: uint64, qty: uint32)
    requires l < |b.Lv(side)| <= NULL_IDX && b.free > 0
    ensures Rest(b, side, l, id, qty).log == b.log
  {
  }

  /**
   An insertion inside the window against an exact side trades in price-time priority, for all it can get within
   its price.
   */
  lemma InsertIsFair(b: Book, id: uint64, side: Side, price: uint32, qty: uint32)
    requires Wf(b) && Inside(b, price) && Exact(b, if side.Buy? then Sell else Buy)
    ensures var b', opp := Insert(b, id, side, price, qty).0, if side.Buy? then Sell else Buy;
            var os := InPriority(b, opp, price - b.base);
            && b.log <= b'.log
            && Fair(NewTrades(b, b'), os, opp, id, b.base, price - b.base)
            && Traded(NewTrades(b, b')) == if qty <= Offered(os) then qty else Offered(os)
  {
    hide Insert, Sweep, Rest, Fair, Exact, WfSide, Offers, Traded, Offered;
    var l, b1, rem := InsertInside(b, id, side, price, qty);
    FairTotal(b, side.Opposite(), id, l, qty);
    if rem > 0 && b1.free > 0 {
      RestLog(b1, side, l, id, rem);
    }
  }

  /** A fair match takes all that is offered, or all that is asked for. */
  lemma FairTotal(b: Book, side: Side, taker: uint64, limit: nat, rem: uint32)
    requires Wf(b) && Exact(b, side)
    ensures var b', os := Sweep(b, side, taker, limit, rem).0, InPriority(b, side, limit);
            && b.log <= b'.log
            && Fair(NewTrades(b, b'), os, side, taker, b.base, limit)
            && Traded(NewTrades(b, b')) == if rem <= Offered(os) then rem else Offered(os)
  {
    hide Sweep, Fair, Exact, Wf, Offers, Fills, Leftover, Unfilled;
    var os := InPriority(b, side, limit);
    SweepIsPriority(b, side, taker, limit, rem);
    MatchingIsFair(b, side, taker, limit, rem);
    UnfilledIs(os, rem);
  }

  lemma {:induction false} UnfilledIs(os: seq<Offer>, rem: nat)
    ensures Unfilled(os, rem) == if rem <= Offered(os) then 0 else rem - Offered(os)
  {
    if os != [] {
      if rem <= os[0].order.qty {
      } else {
        UnfilledIs(os[1..], rem - os[0].order.qty);
      }
    }
  }

  /**
   A market order names no taker, trades only with the other side, and, if that side's best is exact, in price-time
   priority over the whole side for all there is.
   */
  lemma MarketIsFair(b: Book, side: Side, qty: uint32)
    requires Wf(b)
    ensures var b', opp := Market(b, side, qty), if side.Buy? then Sell else Buy;
            var os := InPriority(b, opp, if side.Buy? then |b.asks| - 1 else 0);
            && b.log <= b'.log && b'.Lv(side) == b.Lv(side) && SameQuote(b, b', side) && b'.base == b.base
            && (forall t :: t in NewTrades(b, b') ==> t.taker == 0)
            && (b'.log == b.log ==> b' == b)
            && (Exact(b, opp) ==>
                  && Fair(NewTrades(b, b'), os, opp, 0, b.base, if side.Buy? then |b.asks| - 1 else 0)
                  && Traded(NewTrades(b, b')) == if qty <= Offered(os) then qty else Offered(os))
  {
    hide Sweep, Fair, Exact, WfSide, Offers, Traded, Offered;
    var limit: nat := if side.Buy? then |b.asks| - 1 else 0;
    SweepTrades(b, side.Opposite(), 0, limit, qty);
    SweepFrame(b, side.Opposite(), 0, limit, qty);
    if Exact(b, side.Opposite()) {
      FairTotal(b, side.Opposite(), 0, limit, qty);
    }
  }

  // ---- the quotes ----

  /** A level is better than the quote of its side. */
  predicate Improves(b: Book, side: Side, l: nat) {
    b.Best(side) == NULL_IDX || if side.Buy? then l > b.Best(side) else l < b.Best(side)
  }

  lemma RestQuotes(b: Book, side: Side, l: nat, id: uint64, qty: uint32)
    requires l < |b.Lv(side)| <= NULL_IDX && b.free > 0
    ensures var b' := Rest(b, side, l, id, qty);
            && SameQuote(b, b', side.Opposite())
            && if Improves(b, side, l) then b'.Best(side) == l && QtyCurrent(b', side) else SameQuote(b, b', side)
  {
  }

  /**
   The quotes after an insertion inside the window: without a trade the other side's stays; the own side's changes
   only if the order rests at a better price, which then is the quote.
   */
  lemma InsertQuotes(b: Book, id: uint64, side: Side, price: uint32, qty: uint32)
    requires Shape(b) && Inside(b, price)
    ensures var (b', rests) := Insert(b, id, side, price, qty);
            && (b'.log == b.log ==> SameQuote(b, b', side.Opposite()))
            && if rests && Improves(b, side, price - b.base)
               then b'.base + b'.Best(side) == price && QtyCurrent(b', side)
               else SameQuote(b, b', side)
  {
    hide Insert, Sweep, Rest, QtyCurrent;
    var l, b1, rem := InsertInside(b, id, side, price, qty);
    SweepFrame(b, side.Opposite(), id, l, qty);
    assert side.Opposite().Opposite() == side && SameQuote(b, b1, side);
    if rem > 0 && b1.free > 0 {
      RestLog(b1, side, l, id, rem);
      RestQuotes(b1, side, l, id, rem);
      RestLevels(b1, side, l, id, rem);
    }
  }

  // ---- where a remainder rests ----

  lemma RestPlace(b: Book, side: Side, l: nat, id: uint64, qty: uint32)
    requires UniqueIds(b) && Absent(b, id) && l < |b.Lv(side)| <= NULL_IDX && b.free > 0
    ensures var b' := Rest(b, side, l, id, qty);
            && |b'.Lv(side)| == |b.Lv(side)| && Locate(b', id) == At(side, l, |b.Lv(side)[l]|)
            && |b'.Lv(side)[l]| == |b.Lv(side)[l]| + 1
            && b'.Lv(side)[l][|b.Lv(side)[l]|] == Resting(id, qty) && b'.base == b.base
  {
    hide Rest, UniqueIds, Absent;
    RestKeepsUnique(b, side, l, id, qty);
    RestLevels(b, side, l, id, qty);
    LocateUnique(Rest(b, side, l, id, qty), At(side, l, |b.Lv(side)[l]|));
  }

  /**
   An order that rests is found on its own side, at its own price, last in line there, with exactly the quantity
   that it did not trade.
   */
  lemma InsertRests(b: Book, id: uint64, side: Side, price: uint32, qty: uint32)
    requires Shape(b) && UniqueIds(b) && Absent(b, id) && Insert(b, id, side, price, qty).1
    ensures var b' := Insert(b, id, side, price, qty).0;
            var p := Locate(b', id);
            && p.At? && ValidPlace(b', p) && p.side == side && b'.base + p.level == price
            && p.pos == |b'.Lv(side)[p.level]| - 1
            && OrderAt(b', p).qty + Traded(b'.log) == qty + Traded(b.log)
  {
    hide Insert, InsertAt, Windowed, Sweep, Rest, UniqueIds, Absent, Traded, Shifted, Locate;
    InsertIs(b, id, side, price, qty);
    WindowedKeepsUnique(b, price);
    AbsentWindowed(b, price, id);
    WindowedLog(b, price);
    var w := Windowed(b, price);
    var l := price - w.base;
    var b1, rem := SweepThenRest(w, id, side, l, qty);
    TradedBy(w, b1, qty - rem);
    SweepKeepsUnique(w, side.Opposite(), id, l, qty);
    AbsentSweep(w, side.Opposite(), id, l, qty, id);
    SweepFrame(w, side.Opposite(), id, l, qty);
    RestPlace(b1, side, l, id, rem);
    RestLog(b1, side, l, id, rem);
  }

  // ---- what an insertion leaves alone ----

  lemma {:induction false} SweepBeyond(b: Book, side: Side, taker: uint64, limit: nat, rem: uint32, j: nat)
    requires |b.Lv(side)| <= NULL_IDX && j < |b.Lv(side)| && !WithinLimit(side, j, limit)
    ensures var b' := Sweep(b, side, taker, limit, rem).0;
            |b'.Lv(side)| == |b.Lv(side)| && b'.Lv(side)[j] == b.Lv(side)[j]
    decreases Count(b.Lv(side)), rem
  {
    hide FillStep;
    if rem > 0 && Marketable(b, side, limit) {
      FillStepShrinks(b, side, taker, rem);
      FillStepParts(b, side, taker, rem);
      SweepBeyond(FillStep(b, side, taker, rem), side, taker, limit, rem - FillQty(b, side, rem), j);
    }
  }

  /** The window in which an order is handled shows, at its prices, the orders that were there. */
  lemma WindowedKeeps(b: Book, price: uint32, side: Side, p: int)
    requires Shape(b) && (b.baseSet || EmptyBook(b))
    ensures var w := Windowed(b, price);
            AtPrice(w, side, p) == if w.base <= p < w.base + |b.bids| then AtPrice(b, side, p) else []
  {
    hide Rebase;
    var b1, newBase := Anchored(b, price), CentredBase(|b.bids|, price);
    if !InBand(b1, price) && b1.live <= BOOTSTRAP_REBASE_LIMIT {
      RebaseKeeps(b1, newBase, side, p);
      RebaseMoves(b1, newBase);
    }
  }

  lemma RebaseMoves(b: Book, newBase: uint32)
    requires Shape(b)
    ensures Rebase(b, newBase).base == newBase
  {
  }

  /**
   What stands at each price of the window after an insertion: on the own side what stood there before, with the new
   order behind it if it rests; on the other side, at every price this order may not trade at, what stood there.
   */
  lemma InsertKeeps(b: Book, id: uint64, side: Side, price: uint32, qty: uint32, p: int)
    requires Shape(b) && (b.baseSet || EmptyBook(b))
    ensures var (b', rests) := Insert(b, id, side, price, qty);
            b'.base <= p < b'.base + |b.bids| ==>
              && (if rests && p == price
                  then exists q: uint32 :: AtPrice(b', side, p) == AtPrice(b, side, p) + [Resting(id, q)]
                  else AtPrice(b', side, p) == AtPrice(b, side, p))
              && ((if side.Buy? then p > price else p < price) ==>
                    AtPrice(b', side.Opposite(), p) == AtPrice(b, side.Opposite(), p))
  {
    hide Insert, InsertAt, Windowed, Sweep, Rest, EmptyBook;
    InsertIs(b, id, side, price, qty);
    WindowedKeeps(b, price, side, p);
    WindowedKeeps(b, price, side.Opposite(), p);
    var w := Windowed(b, price);
    if InBand(w, price) {
      var l := price - w.base;
      var (b1, rem) := Sweep(w, side.Opposite(), id, l, qty);
      SweepFrame(w, side.Opposite(), id, l, qty);
      InsertAtIs(w, id, side, l, qty, b1, rem);
      if w.base <= p < w.base + |b.bids| && !WithinLimit(side.Opposite(), p - w.base, l) {
        SweepBeyond(w, side.Opposite(), id, l, qty, p - w.base);
      }
      if rem > 0 && b1.free > 0 {
        RestLevels(b1, side, l, id, rem);
      }
    }
  }
}
