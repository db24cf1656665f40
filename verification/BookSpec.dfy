/**
 What the order book does, stated on values: per side one queue of resting orders for each level of the
 price window, the cached top of book, and the trades reported so far. The pool, the linked lists, the
 bitmaps and the id table do not appear here; class OrderBook is proved to compute these functions.
 */
module BookSpec {
  import opened Types

  type Queue = seq<Resting>
  type Levels = seq<Queue>

  /** `free` is the number of unused pool slots, `live` the counter that gates re-basing. */
  datatype Book = Book(free: nat, base: uint32, baseSet: bool, live: uint32,
                       bids: Levels, asks: Levels, tob: TopOfBook, log: seq<Trade>)
  {
    function Lv(side: Side): Levels {
      if side.Buy? then bids else asks
    }

    function Best(side: Side): uint32 {
      if side.Buy? then tob.bestBid else tob.bestAsk
    }

    function BestQty(side: Side): uint32 {
      if side.Buy? then tob.bidQty else tob.askQty
    }

    function WithLevels(side: Side, ls: Levels): Book {
      if side.Buy? then this.(bids := ls) else this.(asks := ls)
    }

    function WithQueue(side: Side, l: nat, q: Queue): Book
      requires l < |Lv(side)|
    {
      WithLevels(side, Lv(side)[l := q])
    }

    function WithBest(side: Side, best: uint32, qty: uint32): Book {
      if side.Buy?
      then this.(tob := tob.(bestBid := best, bidQty := qty))
      else this.(tob := tob.(bestAsk := best, askQty := qty))
    }

    function Logged(t: Trade): Book {
      this.(log := log + [t])
    }
  }

  const BOOTSTRAP_REBASE_LIMIT := 64

  function Volume(q: Queue): nat {
    if q == [] then 0 else q[0].qty + Volume(q[1..])
  }

  function Count(ls: Levels): nat {
    if ls == [] then 0 else |ls[0]| + Count(ls[1..])
  }

  lemma {:induction false} CountUpdate(ls: Levels, l: nat, q: Queue)
    requires l < |ls|
    ensures Count(ls[l := q]) == Count(ls) - |ls[l]| + |q|
    decreases |ls|
  {
    if l > 0 {
      assert ls[l := q][1..] == ls[1..][l - 1 := q];
      CountUpdate(ls[1..], l - 1, q);
    } else {
      assert ls[l := q][1..] == ls[1..];
    }
  }

  /** Saturating decrement, as the source guards its live-order counter. */
  function SatSub(x: uint32, n: nat): uint32 {
    if n <= x then x - n else 0
  }

  // ---- top of book ----

  /** The first non-empty level from `start` outward: downward for bids, upward for asks. */
  function Scan(ls: Levels, side: Side, start: nat): uint32
    requires |ls| <= NULL_IDX
    decreases if side.Buy? then start else |ls| - start
  {
    if start >= |ls| then NULL_IDX
    else if ls[start] != [] then start
    else if side.Buy? then (if start == 0 then NULL_IDX else Scan(ls, side, start - 1))
    else Scan(ls, side, start + 1)
  }

  /** Level j lies at `start` or further from the top of the book. */
  predicate Outward(side: Side, start: nat, j: nat) {
    if side.Buy? then j <= start else j >= start
  }

  function ScanStart(b: Book, side: Side): nat {
    if b.Best(side) < |b.Lv(side)| then b.Best(side)
    else if side.Buy? then (if |b.bids| == 0 then 0 else |b.bids| - 1) else 0
  }

  /** update_best_bid / update_best_ask: scan outward from the cached best. */
  function UpdateBest(b: Book, side: Side): Book
    requires |b.Lv(side)| <= NULL_IDX
  {
    var next := Scan(b.Lv(side), side, ScanStart(b, side));
    if next < |b.Lv(side)| then b.WithBest(side, next, Wrap32(Volume(b.Lv(side)[next])))
    else b.WithBest(side, NULL_IDX, 0)
  }

  /** After the best level changed: move on if it is empty, else refresh the cached quantity. */
  function Refresh(b: Book, side: Side): Book
    requires |b.Lv(side)| <= NULL_IDX
  {
    var best := b.Best(side);
    if best < |b.Lv(side)| && b.Lv(side)[best] != []
    then b.WithBest(side, best, Wrap32(Volume(b.Lv(side)[best])))
    else UpdateBest(b, side)
  }

  // ---- matching ----

  /** Level `best` of a side may trade against a taker with this limit. */
  predicate WithinLimit(side: Side, best: nat, limit: nat) {
    if side.Buy? then best >= limit else best <= limit
  }

  predicate Marketable(b: Book, side: Side, limit: nat) {
    && b.Best(side) < |b.Lv(side)|
    && b.Lv(side)[b.Best(side)] != []
    && WithinLimit(side, b.Best(side), limit)
  }

  /** The k-th order of a queue lowered by m units, keeping its place. */
  function Lower(q: Queue, k: nat, m: nat): Queue
    requires k < |q| && m <= q[k].qty
  {
    q[k := Resting(q[k].id, q[k].qty - m)]
  }

  function Without(q: Queue, k: nat): Queue
    requires k < |q|
  {
    q[..k] + q[k + 1..]
  }

  /** The k-th order of a level lowered in place. */
  function Lowered(b: Book, side: Side, l: nat, k: nat, m: nat): Book
    requires l < |b.Lv(side)| && k < |b.Lv(side)[l]| && m <= b.Lv(side)[l][k].qty
  {
    b.WithQueue(side, l, Lower(b.Lv(side)[l], k, m))
  }

  /** The k-th order of a level taken out and its slot freed; the top of book is left for later. */
  function DropAt(b: Book, side: Side, l: nat, k: nat): Book
    requires l < |b.Lv(side)| && k < |b.Lv(side)[l]|
  {
    b.WithQueue(side, l, Without(b.Lv(side)[l], k)).(free := b.free + 1)
  }

  function Consume(q: Queue, m: nat): Queue
    requires q != [] && m <= q[0].qty
  {
    if m == q[0].qty then q[1..] else Lower(q, 0, m)
  }

  /** Trade with the oldest order of the best level. */
  function FillFront(b: Book, side: Side, taker: uint64, rem: uint32): Book
    requires b.Best(side) < |b.Lv(side)| && b.Lv(side)[b.Best(side)] != []
  {
    var l := b.Best(side);
    var q := b.Lv(side)[l];
    var m := Min(rem, q[0].qty);
    var b1 := b.WithQueue(side, l, Consume(q, m)).Logged(Trade(q[0].id, taker, b.base + l, m));
    if m == q[0].qty then b1.(free := b.free + 1, live := SatSub(b.live, 1)) else b1
  }

  function FillQty(b: Book, side: Side, rem: uint32): uint32
    requires b.Best(side) < |b.Lv(side)| && b.Lv(side)[b.Best(side)] != []
  {
    Min(rem, b.Lv(side)[b.Best(side)][0].qty)
  }

  /** The queue's part of a fill: lower the head, and take it out if nothing is left of it. */
  function FillQueue(b: Book, side: Side, l: nat, m: nat): Book
    requires l < |b.Lv(side)| && b.Lv(side)[l] != [] && m <= b.Lv(side)[l][0].qty
  {
    var b1 := Lowered(b, side, l, 0, m);
    if m == b.Lv(side)[l][0].qty then DropAt(b1, side, l, 0) else b1
  }

  function Accounted(b: Book, t: Trade, live: uint32): Book {
    b.(log := b.log + [t], live := live)
  }

  /** A fill as the source goes about it: the queue first, then the report and the counter. */
  lemma FillFrontSteps(b: Book, side: Side, taker: uint64, rem: uint32)
    requires b.Best(side) < |b.Lv(side)| && b.Lv(side)[b.Best(side)] != []
    ensures var l, m := b.Best(side), FillQty(b, side, rem);
            var q := b.Lv(side)[l];
            FillFront(b, side, taker, rem)
            == Accounted(FillQueue(b, side, l, m), Trade(q[0].id, taker, b.base + l, m),
                         if m == q[0].qty then SatSub(b.live, 1) else b.live)
  {
    var l, m := b.Best(side), FillQty(b, side, rem);
    var q := b.Lv(side)[l];
    if m == q[0].qty {
      assert Without(Lower(q, 0, m), 0) == q[1..];
      assert b.Lv(side)[l := Lower(q, 0, m)][l := q[1..]] == b.Lv(side)[l := q[1..]];
      var d := Accounted(FillQueue(b, side, l, m), Trade(q[0].id, taker, b.base + l, m), SatSub(b.live, 1));
      SameBook(FillFront(b, side, taker, rem), d, side);
    }
  }

  lemma SameBook(b: Book, b': Book, side: Side)
    requires b.Lv(side) == b'.Lv(side) && b.Lv(side.Opposite()) == b'.Lv(side.Opposite())
    requires b.free == b'.free && b.base == b'.base && b.baseSet == b'.baseSet && b.live == b'.live
    requires b.tob == b'.tob && b.log == b'.log
    ensures b == b'
  {
  }

  /** One fill and the bookkeeping after it. */
  function FillStep(b: Book, side: Side, taker: uint64, rem: uint32): Book
    requires b.Best(side) < |b.Lv(side)| <= NULL_IDX && b.Lv(side)[b.Best(side)] != []
  {
    Refresh(FillFront(b, side, taker, rem), side)
  }

  /** What one fill and its bookkeeping do to the levels and the log. */
  lemma FillStepParts(b: Book, side: Side, taker: uint64, rem: uint32)
    requires b.Best(side) < |b.Lv(side)| <= NULL_IDX && b.Lv(side)[b.Best(side)] != []
    ensures var l, m, b' := b.Best(side), FillQty(b, side, rem), FillStep(b, side, taker, rem);
            && b'.Lv(side) == b.Lv(side)[l := Consume(b.Lv(side)[l], m)]
            && b'.log == b.log + [Trade(b.Lv(side)[l][0].id, taker, b.base + l, m)]
            && b'.base == b.base
  {
  }

  lemma FillStepShrinks(b: Book, side: Side, taker: uint64, rem: uint32)
    requires b.Best(side) < |b.Lv(side)| <= NULL_IDX && b.Lv(side)[b.Best(side)] != []
    ensures var b' := FillStep(b, side, taker, rem); |b'.bids| == |b.bids| && |b'.asks| == |b.asks|
    ensures Count(FillStep(b, side, taker, rem).Lv(side))
         == Count(b.Lv(side)) - (if FillQty(b, side, rem) == b.Lv(side)[b.Best(side)][0].qty then 1 else 0)
  {
    CountUpdate(b.Lv(side), b.Best(side), Consume(b.Lv(side)[b.Best(side)], FillQty(b, side, rem)));
  }

  /** match_against_bids / match_against_asks: the book and the unfilled quantity. */
  function Sweep(b: Book, side: Side, taker: uint64, limit: nat, rem: uint32): (r: (Book, uint32))
    requires |b.Lv(side)| <= NULL_IDX
    ensures |r.0.bids| == |b.bids| && |r.0.asks| == |b.asks|
    decreases Count(b.Lv(side)), rem
  {
    if rem == 0 || !Marketable(b, side, limit) then (b, rem)
    else
      FillStepShrinks(b, side, taker, rem);
      Sweep(FillStep(b, side, taker, rem), side, taker, limit, rem - FillQty(b, side, rem))
  }

  // ---- the sliding window ----

  predicate InBand(b: Book, price: uint32) {
    0 <= price - b.base < |b.bids|
  }

  /** The base that centres the window on a price. */
  function CentredBase(band: nat, price: uint32): uint32 {
    if price < band / 2 then 0 else price - band / 2
  }

  function Anchored(b: Book, price: uint32): Book {
    if b.baseSet then b else b.(base := CentredBase(|b.bids|, price), baseSet := true)
  }

  /** Level i stays in the window when the base moves. */
  predicate Kept(n: nat, base: uint32, newBase: uint32, i: nat) {
    0 <= base + i - newBase < n
  }

  /** The levels as seen from another base: those that fall outside the window are gone. */
  function Moved(ls: Levels, base: uint32, newBase: uint32): Levels {
    seq(|ls|, r requires 0 <= r < |ls| =>
      var i: int := newBase + r - base; if 0 <= i < |ls| then ls[i] else [])
  }

  /** Number of orders in levels from i on whose price lies outside the new window. */
  function Lost(ls: Levels, base: uint32, newBase: uint32, i: nat): nat
    decreases |ls| - i
  {
    if i >= |ls| then 0
    else (if Kept(|ls|, base, newBase, i) then 0 else |ls[i]|) + Lost(ls, base, newBase, i + 1)
  }

  /** The window slid to a new base, top of book untouched. */
  function Slide(b: Book, newBase: uint32): Book {
    var lost := Lost(b.bids, b.base, newBase, 0) + Lost(b.asks, b.base, newBase, 0);
    b.(base := newBase, free := b.free + lost, live := SatSub(b.live, lost),
       bids := Moved(b.bids, b.base, newBase), asks := Moved(b.asks, b.base, newBase))
  }

  /** rebase_base: the top of book is then rescanned from the old relative indices. */
  function Rebase(b: Book, newBase: uint32): Book
    requires |b.bids| <= NULL_IDX && |b.asks| <= NULL_IDX
  {
    if newBase == b.base then b
    else UpdateBest(UpdateBest(Slide(b, newBase), Buy), Sell)
  }

  /** A price outside the window re-bases the book while it is small. */
  function Recentred(b: Book, price: uint32): Book
    requires |b.bids| <= NULL_IDX && |b.asks| <= NULL_IDX
  {
    if !InBand(b, price) && b.live <= BOOTSTRAP_REBASE_LIMIT
    then Rebase(b, CentredBase(|b.bids|, price))
    else b
  }

  /** The book in which an order at this price is handled. */
  function Windowed(b: Book, price: uint32): Book
    requires |b.bids| <= NULL_IDX && |b.asks| <= NULL_IDX
  {
    Recentred(Anchored(b, price), price)
  }

  // ---- the public operations ----

  /** The queue's part of resting an order: last in its level, one pool slot less. */
  function Enqueued(b: Book, side: Side, l: nat, id: uint64, qty: uint32): Book
    requires l < |b.Lv(side)| && b.free > 0
  {
    b.WithQueue(side, l, b.Lv(side)[l] + [Resting(id, qty)]).(free := b.free - 1)
  }

  /** Queue a remainder; a level better than the cached best becomes the best. */
  function Rest(b: Book, side: Side, l: nat, id: uint64, qty: uint32): Book
    requires l < |b.Lv(side)| <= NULL_IDX && b.free > 0
  {
    var b1 := Enqueued(b, side, l, id, qty).(live := Wrap32(b.live + 1));
    if b.Best(side) == NULL_IDX || (if side.Buy? then l > b.Best(side) else l < b.Best(side))
    then b1.WithBest(side, l, Wrap32(Volume(b1.Lv(side)[l])))
    else b1
  }

  lemma RestLevels(b: Book, side: Side, l: nat, id: uint64, qty: uint32)
    requires l < |b.Lv(side)| <= NULL_IDX && b.free > 0
    ensures var b' := Rest(b, side, l, id, qty);
            && b'.Lv(side) == b.Lv(side)[l := b.Lv(side)[l] + [Resting(id, qty)]]
            && b'.Lv(side.Opposite()) == b.Lv(side.Opposite()) && b'.base == b.base && b'.baseSet == b.baseSet
  {
  }

  function InsertAt(b: Book, id: uint64, side: Side, l: nat, qty: uint32): (Book, bool)
    requires l < |b.bids| == |b.asks| <= NULL_IDX
  {
    var (b1, rem) := Sweep(b, side.Opposite(), id, l, qty);
    if rem == 0 || b1.free == 0 then (b1, false)
    else (Rest(b1, side, l, id, rem), true)
  }

  /** insert_limit_order; the flag says whether the order rests. */
  function Insert(b: Book, id: uint64, side: Side, price: uint32, qty: uint32): (Book, bool)
    requires |b.bids| == |b.asks| <= NULL_IDX
  {
    var w := Windowed(b, price);
    WindowedSize(b, price);
    if !InBand(w, price) then (w, false)
    else InsertAt(w, id, side, price - w.base, qty)
  }

  lemma WindowedSize(b: Book, price: uint32)
    requires |b.bids| == |b.asks| <= NULL_IDX
    ensures var w := Windowed(b, price); |w.bids| == |w.asks| == |b.bids|
  {
  }

  lemma InsertIs(b: Book, id: uint64, side: Side, price: uint32, qty: uint32)
    requires |b.bids| == |b.asks| <= NULL_IDX
    ensures var w := Windowed(b, price);
            && |w.bids| == |w.asks| == |b.bids|
            && Insert(b, id, side, price, qty) ==
               if InBand(w, price) then InsertAt(w, id, side, price - w.base, qty) else (w, false)
  {
    WindowedSize(b, price);
  }

  lemma InsertAtIs(w: Book, id: uint64, side: Side, l: nat, qty: uint32, b1: Book, rem: uint32)
    requires l < |w.bids| == |w.asks| <= NULL_IDX && Sweep(w, side.Opposite(), id, l, qty) == (b1, rem)
    ensures |b1.bids| == |b1.asks| == |w.bids|
    ensures InsertAt(w, id, side, l, qty)
         == if rem == 0 || b1.free == 0 then (b1, false) else (Rest(b1, side, l, id, rem), true)
  {
  }

  function Market(b: Book, side: Side, qty: uint32): Book
    requires 0 < |b.bids| == |b.asks| <= NULL_IDX
  {
    Sweep(b, side.Opposite(), 0, if side.Buy? then |b.asks| - 1 else 0, qty).0
  }

  // ---- operations on one resting order ----

  datatype Place = Nowhere | At(side: Side, level: nat, pos: nat)

  /** Position of the id in a queue, or the queue's length. */
  function IndexOf(q: Queue, id: uint64): (k: nat)
    ensures k <= |q| && (k < |q| ==> q[k].id == id)
  {
    if q == [] || q[0].id == id then 0 else 1 + IndexOf(q[1..], id)
  }

  /** The first level from l on whose queue holds the id, or the number of levels. */
  function LevelOf(ls: Levels, id: uint64, l: nat): (r: nat)
    requires l <= |ls|
    ensures l <= r <= |ls| && (r < |ls| ==> IndexOf(ls[r], id) < |ls[r]|)
    decreases |ls| - l
  {
    if l == |ls| || IndexOf(ls[l], id) < |ls[l]| then l else LevelOf(ls, id, l + 1)
  }

  function Locate(b: Book, id: uint64): Place {
    var l := LevelOf(b.bids, id, 0);
    if l < |b.bids| then At(Buy, l, IndexOf(b.bids[l], id))
    else
      var m := LevelOf(b.asks, id, 0);
      if m < |b.asks| then At(Sell, m, IndexOf(b.asks[m], id)) else Nowhere
  }

  predicate ValidPlace(b: Book, p: Place) {
    p.At? ==> p.level < |b.Lv(p.side)| && p.pos < |b.Lv(p.side)[p.level]|
  }

  function OrderAt(b: Book, p: Place): Resting
    requires p.At? && ValidPlace(b, p)
  {
    b.Lv(p.side)[p.level][p.pos]
  }

  /** Take the order out of its queue and refresh the top of book if its level was the best. */
  function RemoveAt(b: Book, p: Place): Book
    requires p.At? && ValidPlace(b, p) && |b.Lv(p.side)| <= NULL_IDX
  {
    var b1 := DropAt(b, p.side, p.level, p.pos);
    if b.Best(p.side) == p.level then Refresh(b1, p.side) else b1
  }

  /** Lower the order's quantity in place. */
  function ReduceAt(b: Book, p: Place, amount: nat): Book
    requires p.At? && ValidPlace(b, p) && |b.Lv(p.side)| <= NULL_IDX && amount <= OrderAt(b, p).qty
  {
    var b1 := Lowered(b, p.side, p.level, p.pos, amount);
    if b.Best(p.side) == p.level then Refresh(b1, p.side) else b1
  }

  /** What a removal leaves alone. */
  lemma RemoveAtFrame(b: Book, p: Place)
    requires p.At? && ValidPlace(b, p) && |b.Lv(p.side)| <= NULL_IDX
    ensures var d, r := DropAt(b, p.side, p.level, p.pos), RemoveAt(b, p);
            && r.bids == d.bids && r.asks == d.asks && |r.bids| == |b.bids| && |r.asks| == |b.asks|
            && r.log == d.log == b.log && r.free == d.free && r.live == d.live == b.live && r.base == b.base
  {
  }

  /** What a reduction leaves alone. */
  lemma ReduceAtFrame(b: Book, p: Place, m: nat)
    requires p.At? && ValidPlace(b, p) && |b.Lv(p.side)| <= NULL_IDX && m <= OrderAt(b, p).qty
    ensures var r := ReduceAt(b, p, m);
            && |r.bids| == |b.bids| && |r.asks| == |b.asks| && r.base == b.base && r.live == b.live && r.log == b.log
  {
  }

  /** Reporting and counting may come before or after the queue's part of a removal. */
  lemma RemoveAtSteps(b: Book, p: Place, t: Trade, live: uint32)
    requires p.At? && ValidPlace(b, p) && |b.Lv(p.side)| <= NULL_IDX
    ensures RemoveAt(b.Logged(t).(live := live), p) == Accounted(RemoveAt(b, p), t, live)
  {
  }

  lemma ReduceAtSteps(b: Book, p: Place, t: Trade, amount: nat)
    requires p.At? && ValidPlace(b, p) && |b.Lv(p.side)| <= NULL_IDX && amount <= OrderAt(b, p).qty
    ensures ReduceAt(b.Logged(t), p, amount) == Accounted(ReduceAt(b, p, amount), t, b.live)
  {
  }

  function Cancel(b: Book, id: uint64): Book
    requires |b.bids| <= NULL_IDX && |b.asks| <= NULL_IDX
  {
    var p := Locate(b, id);
    if p.Nowhere? then b else RemoveAt(b, p)
  }

  /** execute_order; the flag says whether the order left the book. */
  function Execute(b: Book, id: uint64, fill: uint32): (Book, bool)
    requires |b.bids| <= NULL_IDX && |b.asks| <= NULL_IDX
  {
    var p := Locate(b, id);
    if p.Nowhere? then (b, false)
    else
      var o := OrderAt(b, p);
      if fill >= o.qty
      then (RemoveAt(b.Logged(Trade(id, 0, b.base + p.level, o.qty)).(live := SatSub(b.live, 1)), p), true)
      else (ReduceAt(b.Logged(Trade(id, 0, b.base + p.level, fill)), p, fill), false)
  }

  /** execute_order as the source goes about it: the queue, the report, the counter. */
  lemma ExecuteSteps(b: Book, id: uint64, fill: uint32)
    requires |b.bids| <= NULL_IDX && |b.asks| <= NULL_IDX && Locate(b, id).At?
    ensures var p := Locate(b, id);
            var o := OrderAt(b, p);
            Execute(b, id, fill) ==
            if fill >= o.qty
            then (Accounted(RemoveAt(b, p), Trade(id, 0, b.base + p.level, o.qty), SatSub(b.live, 1)), true)
            else (Accounted(ReduceAt(b, p, fill), Trade(id, 0, b.base + p.level, fill), b.live), false)
  {
    var p := Locate(b, id);
    var o := OrderAt(b, p);
    if fill >= o.qty {
      RemoveAtSteps(b, p, Trade(id, 0, b.base + p.level, o.qty), SatSub(b.live, 1));
    } else {
      ReduceAtSteps(b, p, Trade(id, 0, b.base + p.level, fill), fill);
    }
  }

  lemma ExecuteNowhere(b: Book, id: uint64, fill: uint32)
    requires |b.bids| <= NULL_IDX && |b.asks| <= NULL_IDX && Locate(b, id) == Nowhere
    ensures Execute(b, id, fill) == (b, false)
  {
  }

  /** reduce_order_qty; the flag says whether the order left the book. */
  function Reduce(b: Book, id: uint64, amount: uint32): (Book, bool)
    requires |b.bids| <= NULL_IDX && |b.asks| <= NULL_IDX
  {
    var p := Locate(b, id);
    if p.Nowhere? then (b, false)
    else if amount >= OrderAt(b, p).qty then (Cancel(b, id), true)
    else (ReduceAt(b, p, amount), false)
  }

  // ---- what every reachable book satisfies ----

  /** Well-formedness, whatever the top of book may have missed after a re-base. */
  ghost predicate Wf(b: Book) {
    && 0 < |b.bids| == |b.asks| <= NULL_IDX
    && (forall side: Side :: WfSide(b, side))
  }

  ghost predicate WfSide(b: Book, side: Side) {
    && WfLevels(b.base, b.Lv(side))
    && (b.Best(side) == NULL_IDX || (b.Best(side) < |b.Lv(side)| && b.Lv(side)[b.Best(side)] != []))
  }

  ghost predicate WfLevels(base: uint32, ls: Levels) {
    forall l :: 0 <= l < |ls| ==> WfQueue(base, l, ls[l])
  }

  /** Resting quantities are positive and the level's price fits 32 bits. */
  ghost predicate WfQueue(base: uint32, l: nat, q: Queue) {
    && (forall k :: 0 <= k < |q| ==> q[k].qty > 0)
    && (q != [] ==> base + l < TWO_32)
  }
}
