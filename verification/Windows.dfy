/** Sliding the price window, told in absolute prices: who stays, who goes, and what a slide gives back. */
module Windows {
  import opened Types
  import opened BookSpec
  import opened BookIds
  import opened BookWf
  import opened Totals

  /** The queue at an absolute price; empty outside the window. */
  function AtPrice(b: Book, side: Side, price: int): Queue {
    if 0 <= price - b.base < |b.Lv(side)| then b.Lv(side)[price - b.base] else []
  }

  predicate InWindow(n: nat, base: nat, price: int) {
    base <= price < base + n
  }

  /** r is b with both sides seen from the new base, its lost orders' slots given back and counted off. */
  ghost predicate Relocated(b: Book, newBase: uint32, r: Book) {
    && r.base == newBase && r.log == b.log && r.baseSet == b.baseSet
    && r.bids == Moved(b.bids, b.base, newBase) && r.asks == Moved(b.asks, b.base, newBase)
    && r.free == b.free + Lost(b.bids, b.base, newBase, 0) + Lost(b.asks, b.base, newBase, 0)
    && r.live == SatSub(b.live, r.free - b.free)
  }

  lemma RebaseLevels(b: Book, newBase: uint32) returns (r: Book)
    requires |b.bids| == |b.asks| <= NULL_IDX && newBase != b.base
    ensures r == Rebase(b, newBase) && Relocated(b, newBase, r)
  {
    r := Rebase(b, newBase);
  }

  lemma SlidKeeps(b: Book, newBase: uint32, r: Book, side: Side, price: int)
    requires Relocated(b, newBase, r) && |b.bids| == |b.asks|
    ensures AtPrice(r, side, price) == if InWindow(|b.bids|, newBase, price) then AtPrice(b, side, price) else []
  {
  }

  /** The same orders at the same prices in the same order as far as they lie in the new window, and nothing else. */
  lemma RebaseKeeps(b: Book, newBase: uint32, side: Side, price: int)
    requires |b.bids| == |b.asks| <= NULL_IDX
    ensures AtPrice(Rebase(b, newBase), side, price)
         == if newBase == b.base || InWindow(|b.bids|, newBase, price) then AtPrice(b, side, price) else []
  {
    if newBase != b.base {
      var r := RebaseLevels(b, newBase);
      SlidKeeps(b, newBase, r, side, price);
    }
  }

  /** One slot comes back, and one order is counted off, for each order that falls out of the window. */
  lemma RebaseFrees(b: Book, newBase: uint32)
    requires |b.bids| == |b.asks| <= NULL_IDX
    ensures var r := Rebase(b, newBase);
            && r.free + Orders(r) == b.free + Orders(b)
            && r.live == SatSub(b.live, Orders(b) - Orders(r))
            && r.log == b.log
  {
    if newBase != b.base {
      var r := RebaseLevels(b, newBase);
      MovedCount(b.bids, b.base, newBase);
      MovedCount(b.asks, b.base, newBase);
    }
  }

  lemma SlidForgetsIff(b: Book, newBase: uint32, r: Book, p: Place)
    requires Relocated(b, newBase, r) && |b.bids| == |b.asks| && UniqueIds(b) && p.At? && ValidPlace(b, p)
    ensures Absent(r, OrderAt(b, p).id) <==> !InWindow(|b.bids|, newBase, b.base + p.level)
  {
    var id := OrderAt(b, p).id;
    if InWindow(|b.bids|, newBase, b.base + p.level) {
      var l: nat := b.base + p.level - newBase;
      assert r.Lv(p.side)[l] == b.Lv(p.side)[p.level];
      assert !AbsentQueue(r.Lv(p.side)[l], id);
    } else {
      forall o: Place | o.At? && ValidPlace(r, o)
        ensures OrderAt(r, o).id != id
      {
        var was := At(o.side, newBase + o.level - b.base, o.pos);
        assert ValidPlace(b, was) && OrderAt(b, was) == OrderAt(r, o) && was != p;
      }
      AbsentIsNowhere(r, id);
      LocateSound(r, id);
    }
  }

  /** An id is lost by a slide exactly when its price lies outside the new window. */
  lemma RebaseForgetsIff(b: Book, newBase: uint32, p: Place)
    requires |b.bids| == |b.asks| <= NULL_IDX && newBase != b.base && UniqueIds(b) && p.At? && ValidPlace(b, p)
    ensures Absent(Rebase(b, newBase), OrderAt(b, p).id) <==> !InWindow(|b.bids|, newBase, b.base + p.level)
  {
    var r := RebaseLevels(b, newBase);
    SlidForgetsIff(b, newBase, r, p);
  }

  /** Anchoring or re-basing on a price puts it in the window; so only a book past its bootstrap refuses a price. */
  lemma WindowedInBand(b: Book, price: uint32)
    requires 0 < |b.bids| == |b.asks| <= NULL_IDX
    ensures InBand(Windowed(b, price), price) <==>
            !b.baseSet || InBand(b, price) || b.live <= 64
  {
  }

  /** The base of the window in which an order at this price is handled. */
  lemma WindowBase(b: Book, price: uint32)
    requires 0 < |b.bids| == |b.asks| <= NULL_IDX
    ensures var w := Windowed(b, price);
            && w.baseSet
            && (b.baseSet && b.base <= price < b.base + |b.bids| ==> w == b)
            && (b.baseSet && !(b.base <= price < b.base + |b.bids|) && b.live > 64 ==> w == b)
            && (!b.baseSet || (!(b.base <= price < b.base + |b.bids|) && b.live <= 64) ==>
                  price - w.base == if price < |b.bids| / 2 then price else |b.bids| / 2)
  {
  }

  lemma InsertAtBase(w: Book, id: uint64, side: Side, l: nat, qty: uint32)
    requires l < |w.bids| == |w.asks| <= NULL_IDX
    ensures var b' := InsertAt(w, id, side, l, qty).0; b'.base == w.base && b'.baseSet == w.baseSet
  {
    hide Sweep, InsertAt, Rest;
    var (b1, rem) := Sweep(w, side.Opposite(), id, l, qty);
    SweepFrame(w, side.Opposite(), id, l, qty);
    InsertAtIs(w, id, side, l, qty, b1, rem);
    if rem > 0 && b1.free > 0 {
      RestLevels(b1, side, l, id, rem);
    }
  }

  /**
   Where the window stands after an insertion. The first order, or one out of band while at most 64 orders count as
   live, puts its own price in the middle, or as far from the bottom as it is from zero; an order in band moves
   nothing; any other order out of band is refused and changes nothing.
   */
  lemma InsertBase(b: Book, id: uint64, side: Side, price: uint32, qty: uint32)
    requires 0 < |b.bids| == |b.asks| <= NULL_IDX
    ensures var (b', rests) := Insert(b, id, side, price, qty);
            && b'.baseSet
            && (b.baseSet && b.base <= price < b.base + |b.bids| ==> b'.base == b.base)
            && (b.baseSet && !(b.base <= price < b.base + |b.bids|) && b.live > 64 ==> b' == b && !rests)
            && (!b.baseSet || (!(b.base <= price < b.base + |b.bids|) && b.live <= 64) ==>
                  price - b'.base == if price < |b.bids| / 2 then price else |b.bids| / 2)
  {
    hide Insert, InsertAt, Windowed;
    WindowBase(b, price);
    InsertIs(b, id, side, price, qty);
    var w := Windowed(b, price);
    if InBand(w, price) {
      InsertAtBase(w, id, side, price - w.base, qty);
    }
  }
}
