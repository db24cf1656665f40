/** Runs of the book, and what adds up over them: quantity, pool slots and the live-order counter. */
module Ledgers {
  import opened Types
  import opened BookSpec
  import opened BookWf
  import opened BookIds
  import opened Totals
  import opened QuoteQuantities

  datatype Op =
    | Limit(id: uint64, side: Side, price: uint32, qty: uint32)
    | MarketOrder(side: Side, qty: uint32)
    | CancelId(id: uint64)
    | ExecuteId(id: uint64, fill: uint32)
    | ReduceId(id: uint64, amount: uint32)

  predicate Shape(b: Book) {
    0 < |b.bids| == |b.asks| <= NULL_IDX
  }

  function Step(b: Book, op: Op): (r: Book)
    requires Shape(b)
    ensures |r.bids| == |r.asks| == |b.bids|
  {
    StepShape(b, op);
    match op
    case Limit(id, side, price, qty) => Insert(b, id, side, price, qty).0
    case MarketOrder(side, qty) => Market(b, side, qty)
    case CancelId(id) => Cancel(b, id)
    case ExecuteId(id, fill) => Execute(b, id, fill).0
    case ReduceId(id, amount) => Reduce(b, id, amount).0
  }

  lemma InsertShape(b: Book, id: uint64, side: Side, price: uint32, qty: uint32)
    requires Shape(b)
    ensures var r := Insert(b, id, side, price, qty).0; |r.bids| == |r.asks| == |b.bids|
  {
    WindowedSize(b, price);
  }

  lemma StepShape(b: Book, op: Op)
    requires Shape(b)
    ensures op.Limit? ==> var r := Insert(b, op.id, op.side, op.price, op.qty).0; |r.bids| == |r.asks| == |b.bids|
    ensures op.CancelId? ==> var r := Cancel(b, op.id); |r.bids| == |r.asks| == |b.bids|
    ensures op.ExecuteId? ==> var r := Execute(b, op.id, op.fill).0; |r.bids| == |r.asks| == |b.bids|
    ensures op.ReduceId? ==> var r := Reduce(b, op.id, op.amount).0; |r.bids| == |r.asks| == |b.bids|
  {
    if op.Limit? {
      InsertShape(b, op.id, op.side, op.price, op.qty);
    } else if !op.MarketOrder? {
      var p := Locate(b, op.id);
      if p.At? {
        RemoveAtFrame(b, p);
        if op.ReduceId? && op.amount < OrderAt(b, p).qty {
          ReduceAtFrame(b, p, op.amount);
        } else if op.ExecuteId? {
          ExecuteSteps(b, op.id, op.fill);
          if op.fill < OrderAt(b, p).qty {
            ReduceAtFrame(b, p, op.fill);
          }
        }
      }
    }
  }

  function Run(b: Book, ops: seq<Op>): (r: Book)
    requires Shape(b)
    ensures |r.bids| == |r.asks| == |b.bids|
    decreases |ops|
  {
    if ops == [] then b else Run(Step(b, ops[0]), ops[1..])
  }

  /** The book as constructed. */
  function FreshBook(band: nat, capacity: nat): Book {
    Book(capacity, 0, false, 0, seq(band, _ => []), seq(band, _ => []), TopOfBook(NULL_IDX, NULL_IDX, 0, 0), [])
  }

  // ---- the sums that are tracked ----

  /** Resting quantity, traded quantity, pool slots, and live counter minus resting orders. */
  datatype Sums = Sums(resting: nat, traded: nat, slots: nat, slack: int)

  function SumsOf(b: Book): Sums {
    Sums(RestingQty(b), Traded(b.log), b.free + Orders(b), b.live - Orders(b))
  }

  /** A step that moves `less` out of the book and reports `sold`; a counter that covers the orders keeps its lead. */
  ghost predicate Shifted(b: Book, b': Book, less: int, sold: nat, lead: int) {
    var s, s' := SumsOf(b), SumsOf(b');
    && s'.resting == s.resting - less
    && s'.traded == s.traded + sold
    && s'.slots == s.slots
    && (s.slack >= 0 ==> s'.slack == s.slack + lead)
  }

  lemma QueueSums(b: Book, side: Side, l: nat, q: Queue)
    requires l < |b.Lv(side)|
    ensures var b', was := b.WithQueue(side, l, q), b.Lv(side)[l];
            && RestingQty(b') == RestingQty(b) - Volume(was) + Volume(q)
            && Orders(b') == Orders(b) - |was| + |q|
  {
    TotalUpdate(b.Lv(side), l, q, Volume);
    CountUpdate(b.Lv(side), l, q);
  }

  /** The sums do not depend on the top of book. */
  lemma SumsFrame(b: Book, b': Book)
    requires b'.bids == b.bids && b'.asks == b.asks && b'.log == b.log && b'.free == b.free && b'.live == b.live
    ensures SumsOf(b') == SumsOf(b)
  {
  }

  lemma {:induction false} VolumeConsume(q: Queue, m: nat)
    requires q != [] && m <= q[0].qty
    ensures Volume(Consume(q, m)) == Volume(q) - m
  {
    if m < q[0].qty {
      assert Consume(q, m)[1..] == q[1..];
    }
  }

  lemma FillFrontSums(b: Book, side: Side, taker: uint64, rem: uint32)
    requires b.Best(side) < |b.Lv(side)| && b.Lv(side)[b.Best(side)] != []
    ensures Shifted(b, FillFront(b, side, taker, rem), FillQty(b, side, rem), FillQty(b, side, rem), 0)
    ensures FillFront(b, side, taker, rem).live <= b.live
  {
    hide Volume, Total, Traded;
    var l, m := b.Best(side), FillQty(b, side, rem);
    var q := b.Lv(side)[l];
    VolumeConsume(q, m);
    QueueSums(b, side, l, Consume(q, m));
    TradedLast(b.log, Trade(q[0].id, taker, b.base + l, m));
  }

  lemma RefreshFrame(b: Book, side: Side)
    requires |b.Lv(side)| <= NULL_IDX
    ensures SumsOf(Refresh(b, side)) == SumsOf(b) && Refresh(b, side).live == b.live
  {
    SumsFrame(b, Refresh(b, side));
  }

  lemma FillSums(b: Book, side: Side, taker: uint64, rem: uint32)
    requires b.Best(side) < |b.Lv(side)| <= NULL_IDX && b.Lv(side)[b.Best(side)] != []
    ensures Shifted(b, FillStep(b, side, taker, rem), FillQty(b, side, rem), FillQty(b, side, rem), 0)
    ensures FillStep(b, side, taker, rem).live <= b.live
  {
    FillFrontSums(b, side, taker, rem);
    RefreshFrame(FillFront(b, side, taker, rem), side);
  }

  lemma ShiftedTwice(b: Book, b1: Book, b2: Book, less: int, sold: nat, more: int, sold': nat, lead: int)
    requires Shifted(b, b1, less, sold, 0) && Shifted(b1, b2, more, sold', lead)
    ensures Shifted(b, b2, less + more, sold + sold', lead)
  {
    hide SumsOf;
  }

  lemma FillQtyBound(b: Book, side: Side, rem: uint32)
    requires b.Best(side) < |b.Lv(side)| && b.Lv(side)[b.Best(side)] != []
    ensures FillQty(b, side, rem) <= rem
    ensures FillQty(b, side, rem) == rem || FillQty(b, side, rem) == b.Lv(side)[b.Best(side)][0].qty
  {
  }

  lemma ShiftedNot(b: Book)
    ensures Shifted(b, b, 0, 0, 0)
  {
  }

  lemma {:induction false} SweepSums(b: Book, side: Side, taker: uint64, limit: nat, rem: uint32)
    requires |b.Lv(side)| <= NULL_IDX
    ensures var (b', left) := Sweep(b, side, taker, limit, rem);
            left <= rem && b'.live <= b.live && Shifted(b, b', rem - left, rem - left, 0)
    decreases Count(b.Lv(side)), rem
  {
    hide FillStep, FillQty, Shifted;
    if rem > 0 && Marketable(b, side, limit) {
      var f, m := FillStep(b, side, taker, rem), FillQty(b, side, rem);
      FillQtyBound(b, side, rem);
      FillSums(b, side, taker, rem);
      FillStepShrinks(b, side, taker, rem);
      SweepSums(f, side, taker, limit, rem - m);
      var (b', left) := Sweep(f, side, taker, limit, rem - m);
      ShiftedTwice(b, f, b', m, m, rem - m - left, rem - m - left, 0);
    } else {
      ShiftedNot(b);
    }
  }

  lemma RestSums(b: Book, side: Side, l: nat, id: uint64, qty: uint32)
    requires l < |b.Lv(side)| <= NULL_IDX && b.free > 0
    ensures var more: int, live: int := qty, Wrap32(b.live + 1);
            && Shifted(b, Rest(b, side, l, id, qty), -more, 0, live - b.live - 1)
            && Rest(b, side, l, id, qty).live == live
  {
    var q := b.Lv(side)[l] + [Resting(id, qty)];
    VolumeLast(b.Lv(side)[l], Resting(id, qty));
    QueueSums(b, side, l, q);
    SumsFrame(Enqueued(b, side, l, id, qty).(live := Wrap32(b.live + 1)), Rest(b, side, l, id, qty));
  }

  lemma {:induction false} VolumeWithout(q: Queue, k: nat)
    requires k < |q|
    ensures Volume(Without(q, k)) == Volume(q) - q[k].qty
  {
    if k == 0 {
      assert Without(q, 0) == q[1..];
    } else {
      assert Without(q, k)[1..] == Without(q[1..], k - 1);
      VolumeWithout(q[1..], k - 1);
    }
  }

  lemma {:induction false} VolumeLower(q: Queue, k: nat, m: nat)
    requires k < |q| && m <= q[k].qty
    ensures Volume(Lower(q, k, m)) == Volume(q) - m
  {
    if k == 0 {
      assert Lower(q, 0, m)[1..] == q[1..];
    } else {
      assert Lower(q, k, m)[1..] == Lower(q[1..], k - 1, m);
      VolumeLower(q[1..], k - 1, m);
    }
  }

  lemma RemoveAtSums(b: Book, p: Place)
    requires p.At? && ValidPlace(b, p) && |b.Lv(p.side)| <= NULL_IDX
    ensures Shifted(b, RemoveAt(b, p), OrderAt(b, p).qty, 0, 1) && RemoveAt(b, p).live == b.live
            && RemoveAt(b, p).log == b.log
    ensures SumsOf(b).slack >= 0 ==> b.live > 0
  {
    hide Count, SideQty, Volume, RemoveAt;
    var q := b.Lv(p.side)[p.level];
    VolumeWithout(q, p.pos);
    QueueSums(b, p.side, p.level, Without(q, p.pos));
    CountPositive(b, p);
    RemoveAtFrame(b, p);
    SumsFrame(DropAt(b, p.side, p.level, p.pos), RemoveAt(b, p));
  }

  lemma CountPositive(b: Book, p: Place)
    requires p.At? && ValidPlace(b, p)
    ensures Orders(b) > 0
  {
    CountUpdate(b.Lv(p.side), p.level, []);
  }

  lemma ReduceAtSums(b: Book, p: Place, m: nat)
    requires p.At? && ValidPlace(b, p) && |b.Lv(p.side)| <= NULL_IDX && m <= OrderAt(b, p).qty
    ensures Shifted(b, ReduceAt(b, p, m), m, 0, 0) && ReduceAt(b, p, m).live == b.live && ReduceAt(b, p, m).log == b.log
  {
    var q := b.Lv(p.side)[p.level];
    VolumeLower(q, p.pos, m);
    QueueSums(b, p.side, p.level, Lower(q, p.pos, m));
    SumsFrame(Lowered(b, p.side, p.level, p.pos, m), ReduceAt(b, p, m));
  }

  lemma AccountedSums(b: Book, t: Trade, live: uint32)
    ensures var s, s' := SumsOf(b), SumsOf(Accounted(b, t, live));
            s' == Sums(s.resting, s.traded + t.qty, s.slots, s.slack - b.live + live)
  {
    TradedLast(b.log, t);
  }

  /** The quantity that a slide to the new base drops. */
  function SlidOut(b: Book, newBase: uint32): nat {
    LostTotal(b.bids, b.base, newBase, 0, Volume) + LostTotal(b.asks, b.base, newBase, 0, Volume)
  }

  lemma SlideSums(b: Book, newBase: uint32)
    ensures Shifted(b, Slide(b, newBase), SlidOut(b, newBase), 0, 0)
  {
    MovedTotal(b.bids, b.base, newBase, Volume);
    MovedTotal(b.asks, b.base, newBase, Volume);
    MovedCount(b.bids, b.base, newBase);
    MovedCount(b.asks, b.base, newBase);
  }

  /** The quantity that anchoring or re-basing for this price drops. */
  function WindowLoss(b: Book, price: uint32): nat {
    var b1 := Anchored(b, price);
    var newBase := CentredBase(|b1.bids|, price);
    if !InBand(b1, price) && b1.live <= BOOTSTRAP_REBASE_LIMIT && newBase != b1.base then SlidOut(b1, newBase) else 0
  }

  lemma RebaseSums(b: Book, newBase: uint32)
    requires Shape(b) && newBase != b.base
    ensures Shifted(b, Rebase(b, newBase), SlidOut(b, newBase), 0, 0) && Rebase(b, newBase).live <= b.live
  {
    hide Rebase, Slide, SlidOut, SumsOf;
    SlideSums(b, newBase);
    RebaseFrame(b, newBase);
    SumsFrame(Slide(b, newBase), Rebase(b, newBase));
  }

  lemma RebaseFrame(b: Book, newBase: uint32)
    requires Shape(b) && newBase != b.base
    ensures var s, r := Slide(b, newBase), Rebase(b, newBase);
            r.bids == s.bids && r.asks == s.asks && r.log == s.log && r.free == s.free && r.live == s.live <= b.live
  {
  }

  lemma WindowedSums(b: Book, price: uint32)
    requires Shape(b)
    ensures Shifted(b, Windowed(b, price), WindowLoss(b, price), 0, 0) && Windowed(b, price).live <= b.live
  {
    hide Rebase, SlidOut, SumsOf;
    var b1 := Anchored(b, price);
    var newBase := CentredBase(|b1.bids|, price);
    SumsFrame(b, b1);
    if !InBand(b1, price) && b1.live <= BOOTSTRAP_REBASE_LIMIT {
      RecentredMoves(b1, price, newBase);
      if newBase != b1.base {
        RebaseSums(b1, newBase);
      } else {
        RebaseSame(b1);
      }
    } else {
      RecentredStays(b1, price);
    }
  }

  lemma RebaseSame(b: Book)
    requires Shape(b)
    ensures Rebase(b, b.base) == b
  {
  }

  // ---- the ledger ----

  /** Where quantity came from and where it went. */
  datatype Ledger = Ledger(accepted: nat, asMaker: nat, asTaker: nat, cancelled: nat, exhausted: nat, slid: nat)
  {
    function Plus(e: Ledger): Ledger {
      Ledger(accepted + e.accepted, asMaker + e.asMaker, asTaker + e.asTaker,
             cancelled + e.cancelled, exhausted + e.exhausted, slid + e.slid)
    }

    function Gone(): nat {
      asMaker + asTaker + cancelled + exhausted + slid
    }
  }

  const NO_ENTRY := Ledger(0, 0, 0, 0, 0, 0)

  /** Quantity reported in trades by a step. */
  function NewlyTraded(b: Book, b': Book): nat {
    if Traded(b'.log) < Traded(b.log) then 0 else Traded(b'.log) - Traded(b.log)
  }

  /** The quantity resting under an id. */
  function QtyOf(b: Book, id: uint64): nat {
    var p := Locate(b, id);
    if p.At? then OrderAt(b, p).qty else 0
  }

  /**
   What one step enters: orders accepted into the band, trades as reported, cancellations, orders dropped for
   want of a slot or by a re-base. A limit order's trades count once for the maker and once for the taker.
   */
  function Entry(b: Book, op: Op): Ledger
    requires Shape(b)
  {
    var traded := NewlyTraded(b, Step(b, op));
    match op
    case Limit(id, side, price, qty) =>
      var slid := WindowLoss(b, price);
      if !InBand(Windowed(b, price), price) then Ledger(0, 0, 0, 0, 0, slid)
      else if Insert(b, id, side, price, qty).1 then Ledger(qty, traded, traded, 0, 0, slid)
      else Ledger(qty, traded, traded, 0, if traded <= qty then qty - traded else 0, slid)
    case MarketOrder(_, _) => Ledger(0, traded, 0, 0, 0, 0)
    case ExecuteId(_, _) => Ledger(0, traded, 0, 0, 0, 0)
    case CancelId(id) => Ledger(0, 0, 0, QtyOf(b, id), 0, 0)
    case ReduceId(id, amount) => Ledger(0, 0, 0, Min(amount, QtyOf(b, id)), 0, 0)
  }

  /** Successful cancellations: they free a slot without counting the order off. */
  function Uncounted(b: Book, op: Op): nat {
    match op
    case CancelId(id) => if Locate(b, id).At? then 1 else 0
    case ReduceId(id, amount) => if Locate(b, id).At? && amount >= OrderAt(b, Locate(b, id)).qty then 1 else 0
    case _ => 0
  }

  /** Quantity and slots are conserved; the counter's lead grows by the cancellations, as long as it does not wrap. */
  ghost predicate Conserves(b: Book, b': Book, e: Ledger, uncounted: nat) {
    var s, s' := SumsOf(b), SumsOf(b');
    && s.resting + e.accepted == s'.resting + e.Gone()
    && s'.traded == s.traded + e.asMaker
    && s'.slots == s.slots
    && (s.slack >= 0 && b.live + 1 < TWO_32 ==> s'.slack == s.slack + uncounted && b'.live <= b.live + 1)
  }

  /** The whole of an insertion once its level is known. */
  ghost predicate Booked(b: Book, b': Book, rests: bool, qty: nat, traded: nat, lead: int) {
    && traded <= qty
    && Shifted(b, b', if rests then traded + traded - qty else traded, traded, lead)
    && (b.live + 1 < TWO_32 ==> b'.live <= b.live + 1 && lead == 0)
  }

  lemma InsertedOnly(b: Book, b1: Book, qty: nat, traded: nat)
    requires traded <= qty && b1.live <= b.live && Shifted(b, b1, traded, traded, 0)
    ensures Booked(b, b1, false, qty, traded, 0)
  {
  }

  lemma InsertedRest(b: Book, b1: Book, b2: Book, qty: nat, traded: nat, lead: int)
    requires traded <= qty && b1.live <= b.live && Shifted(b, b1, traded, traded, 0)
    requires Shifted(b1, b2, traded - qty, 0, lead) && b2.live == Wrap32(b1.live + 1)
             && lead == (b2.live as int) - (b1.live as int) - 1
    ensures Booked(b, b2, true, qty, traded, lead)
  {
    ShiftedTwice(b, b1, b2, traded, traded, traded - qty, 0, lead);
  }

  lemma SweepThenRest(b: Book, id: uint64, side: Side, l: nat, qty: uint32) returns (b1: Book, rem: uint32)
    requires Shape(b) && l < |b.bids|
    ensures (b1, rem) == Sweep(b, side.Opposite(), id, l, qty)
    ensures rem <= qty && b1.live <= b.live && Shifted(b, b1, qty - rem, qty - rem, 0)
            && |b1.bids| == |b1.asks| == |b.bids|
    ensures InsertAt(b, id, side, l, qty)
         == if rem == 0 || b1.free == 0 then (b1, false) else (Rest(b1, side, l, id, rem), true)
  {
    SweepSums(b, side.Opposite(), id, l, qty);
    b1, rem := Sweep(b, side.Opposite(), id, l, qty).0, Sweep(b, side.Opposite(), id, l, qty).1;
  }

  lemma InsertAtSums(b: Book, id: uint64, side: Side, l: nat, qty: uint32) returns (traded: nat, lead: int)
    requires Shape(b) && l < |b.bids|
    ensures var r := InsertAt(b, id, side, l, qty); Booked(b, r.0, r.1, qty, traded, lead)
  {
    var b1, rem := SweepThenRest(b, id, side, l, qty);
    traded, lead := qty - rem, 0;
    if rem == 0 || b1.free == 0 {
      InsertedOnly(b, b1, qty, traded);
    } else {
      var b2 := Rest(b1, side, l, id, rem);
      RestSums(b1, side, l, id, rem);
      lead := (b2.live as int) - (b1.live as int) - 1;
      InsertedRest(b, b1, b2, qty, traded, lead);
    }
  }

  /** Conservation of an insertion, from its parts. */
  lemma InsertedConserves(b: Book, w: Book, b': Book, rests: bool, qty: nat, traded: nat, lead: int, slid: nat)
    requires Shifted(b, w, slid, 0, 0) && w.live <= b.live && Booked(w, b', rests, qty, traded, lead)
    ensures Conserves(b, b', Ledger(qty, traded, traded, 0, if rests then 0 else qty - traded, slid), 0)
    ensures Traded(b'.log) == Traded(b.log) + traded
  {
  }

  lemma InsertConserves(b: Book, id: uint64, side: Side, price: uint32, qty: uint32)
    requires Shape(b)
    ensures var op := Limit(id, side, price, qty); Conserves(b, Step(b, op), Entry(b, op), Uncounted(b, op))
  {
    var op := Limit(id, side, price, qty);
    var w, slid := WindowPart(b, price);
    if InBand(w, price) {
      var r, traded, lead := InsertAtPart(b, w, op);
      InsertedConserves(b, w, r.0, r.1, qty, traded, lead, slid);
      LimitEntry(b, op, w, r, traded);
    } else {
      InsertIs(b, id, side, price, qty);
      LimitEntry(b, op, w, (w, false), 0);
      WindowConserves(b, w, slid);
    }
  }

  lemma WindowConserves(b: Book, w: Book, slid: nat)
    requires Shifted(b, w, slid, 0, 0) && w.live <= b.live
    ensures Conserves(b, w, Ledger(0, 0, 0, 0, 0, slid), 0)
  {
  }

  lemma WindowPart(b: Book, price: uint32) returns (w: Book, slid: nat)
    requires Shape(b)
    ensures w == Windowed(b, price) && slid == WindowLoss(b, price)
    ensures Shifted(b, w, slid, 0, 0) && w.live <= b.live && Shape(w) && Traded(w.log) == Traded(b.log)
  {
    WindowedSums(b, price);
    WindowedSize(b, price);
    w, slid := Windowed(b, price), WindowLoss(b, price);
  }

  lemma InsertAtPart(b: Book, w: Book, op: Op) returns (r: (Book, bool), traded: nat, lead: int)
    requires Shape(b) && op.Limit? && w == Windowed(b, op.price) && Shape(w) && InBand(w, op.price)
    ensures Booked(w, r.0, r.1, op.qty, traded, lead) && r == Insert(b, op.id, op.side, op.price, op.qty)
  {
    hide Insert, InsertAt, Windowed, Booked;
    InsertIs(b, op.id, op.side, op.price, op.qty);
    traded, lead := InsertAtSums(w, op.id, op.side, op.price - w.base, op.qty);
    r := InsertAt(w, op.id, op.side, op.price - w.base, op.qty);
  }

  lemma LimitEntry(b: Book, op: Op, w: Book, r: (Book, bool), traded: nat)
    requires Shape(b) && op.Limit? && w == Windowed(b, op.price) && Insert(b, op.id, op.side, op.price, op.qty) == r
    requires Traded(r.0.log) == Traded(b.log) + traded && traded <= op.qty
    ensures Step(b, op) == r.0
    ensures Entry(b, op) == if !InBand(w, op.price) then Ledger(0, 0, 0, 0, 0, WindowLoss(b, op.price))
                            else Ledger(op.qty, traded, traded, 0, if r.1 then 0 else op.qty - traded,
                                WindowLoss(b, op.price))
    ensures Uncounted(b, op) == 0
  {
  }

  /**
   Quantity is written off as exhausted only by an insertion that leaves the pool full, and it is then exactly what
   matching left over.
   */
  lemma ExhaustedMeansFull(b: Book, op: Op)
    requires Shape(b)
    ensures Entry(b, op).exhausted > 0
            ==> op.Limit? && Step(b, op).free == 0 && !Insert(b, op.id, op.side, op.price, op.qty).1
    ensures op.Limit? ==>
              var w := Windowed(b, op.price);
              && |w.bids| == |w.asks| == |b.bids|
              && (!InBand(w, op.price) ==> Entry(b, op).exhausted == 0)
              && (InBand(w, op.price) ==>
                    var (b1, rem) := Sweep(w, op.side.Opposite(), op.id, op.price - w.base, op.qty);
                    Entry(b, op).exhausted == if b1.free == 0 then rem else 0)
  {
    hide Insert, InsertAt, Windowed, Sweep, Rest, Shifted, Entry, Step;
    OnlyLimitsExhaust(b, op);
    if op.Limit? {
      var w, slid := WindowPart(b, op.price);
      InsertIs(b, op.id, op.side, op.price, op.qty);
      if InBand(w, op.price) {
        var b1, rem := SweepThenRest(w, op.id, op.side, op.price - w.base, op.qty);
        if rem == 0 || b1.free == 0 {
          TradedBy(w, b1, op.qty - rem);
          LimitEntry(b, op, w, (b1, false), op.qty - rem);
        } else {
          RestedEntry(b, op);
        }
      } else {
        LimitEntry(b, op, w, (w, false), 0);
      }
    }
  }

  lemma TradedBy(b: Book, b': Book, sold: nat)
    requires Shifted(b, b', sold, sold, 0)
    ensures Traded(b'.log) == Traded(b.log) + sold
  {
  }

  lemma OnlyLimitsExhaust(b: Book, op: Op)
    requires Shape(b)
    ensures !op.Limit? ==> Entry(b, op).exhausted == 0
  {
    hide Step, NewlyTraded, QtyOf;
  }

  lemma RestedEntry(b: Book, op: Op)
    requires Shape(b) && op.Limit? && Insert(b, op.id, op.side, op.price, op.qty).1
    ensures Entry(b, op).exhausted == 0
  {
    hide Step, NewlyTraded, Windowed, Insert;
  }

  /** A report adds its quantity to what was traded. */
  lemma ReportedConserves(b: Book, y: Book, x: Book, t: Trade, live: uint32, all: bool)
    requires Shifted(b, y, t.qty, 0, if all then 1 else 0) && y.log == b.log && y.live == b.live
             && x == Accounted(y, t, live)
    requires all ==> live == SatSub(b.live, 1) && (SumsOf(b).slack >= 0 ==> b.live > 0)
    requires !all ==> live == b.live
    ensures Conserves(b, x, Ledger(0, t.qty, 0, 0, 0, 0), 0) && Traded(x.log) == Traded(b.log) + t.qty
  {
    hide RestingQty, Orders, Traded;
    AccountedSums(y, t, live);
    TradedAccounted(y, t, live);
  }

  lemma TradedAccounted(y: Book, t: Trade, live: uint32)
    ensures Traded(Accounted(y, t, live).log) == Traded(y.log) + t.qty
  {
    TradedLast(y.log, t);
  }

  lemma ExecuteEntry(b: Book, id: uint64, fill: uint32, r: (Book, bool), traded: nat)
    requires Shape(b) && Execute(b, id, fill) == r && Traded(r.0.log) == Traded(b.log) + traded
    ensures var op := ExecuteId(id, fill);
            Step(b, op) == r.0 && Entry(b, op) == Ledger(0, traded, 0, 0, 0, 0) && Uncounted(b, op) == 0
  {
    hide Execute;
  }

  lemma ExecuteConserves(b: Book, id: uint64, fill: uint32)
    requires Shape(b)
    ensures var op := ExecuteId(id, fill); Conserves(b, Step(b, op), Entry(b, op), Uncounted(b, op))
  {
    hide Execute, RemoveAt, ReduceAt, Locate, Accounted, Entry, Step, Uncounted, Conserves, Shifted, SumsOf, Traded;
    var p := Locate(b, id);
    LocateSound(b, id);
    if p.Nowhere? {
      ExecuteNowhere(b, id, fill);
      ExecuteEntry(b, id, fill, (b, false), 0);
      NothingConserves(b);
    } else {
      ExecuteSteps(b, id, fill);
      var all := fill >= OrderAt(b, p).qty;
      var t := Trade(id, 0, b.base + p.level, if all then OrderAt(b, p).qty else fill);
      var live := if all then SatSub(b.live, 1) else b.live;
      var y := if all then RemoveAt(b, p) else ReduceAt(b, p, fill);
      if all {
        RemoveAtSums(b, p);
      } else {
        ReduceAtSums(b, p, fill);
      }
      ReportedConserves(b, y, Accounted(y, t, live), t, live, all);
      ExecuteEntry(b, id, fill, (Accounted(y, t, live), all), t.qty);
    }
  }

  lemma NothingConserves(b: Book)
    ensures Conserves(b, b, Ledger(0, 0, 0, 0, 0, 0), 0)
  {
  }

  lemma MarketEntry(b: Book, side: Side, qty: uint32, b': Book, left: uint32)
    requires Shape(b) && Sweep(b, side.Opposite(), 0, if side.Buy? then |b.asks| - 1 else 0, qty) == (b', left)
    requires left <= qty && Traded(b'.log) == Traded(b.log) + (qty - left)
    ensures var op := MarketOrder(side, qty);
            Step(b, op) == b' && Entry(b, op) == Ledger(0, qty - left, 0, 0, 0, 0) && Uncounted(b, op) == 0
  {
    hide Sweep;
  }

  lemma SoldConserves(b: Book, b': Book, sold: nat)
    requires Shifted(b, b', sold, sold, 0) && b'.live <= b.live
    ensures Conserves(b, b', Ledger(0, sold, 0, 0, 0, 0), 0) && Traded(b'.log) == Traded(b.log) + sold
  {
  }

  lemma MarketConserves(b: Book, side: Side, qty: uint32)
    requires Shape(b)
    ensures var op := MarketOrder(side, qty); Conserves(b, Step(b, op), Entry(b, op), Uncounted(b, op))
  {
    hide Sweep, Entry, Step, Uncounted, Conserves, Shifted, SumsOf;
    var limit: nat := if side.Buy? then |b.asks| - 1 else 0;
    SweepSums(b, side.Opposite(), 0, limit, qty);
    var (b', left) := Sweep(b, side.Opposite(), 0, limit, qty);
    SoldConserves(b, b', qty - left);
    MarketEntry(b, side, qty, b', left);
  }

  /** Quantity taken out of the book by a cancellation; `full` when the order leaves it. */
  lemma WithdrawnConserves(b: Book, y: Book, qty: nat, full: bool)
    requires Shifted(b, y, qty, 0, if full then 1 else 0) && y.live == b.live
    ensures Conserves(b, y, Ledger(0, 0, 0, qty, 0, 0), if full then 1 else 0)
  {
    hide SumsOf;
  }

  lemma CancelEntry(b: Book, id: uint64, p: Place)
    requires Shape(b) && p == Locate(b, id)
    ensures var op := CancelId(id);
            && Step(b, op) == (if p.At? then RemoveAt(b, p) else b)
            && Entry(b, op) == Ledger(0, 0, 0, if p.At? then OrderAt(b, p).qty else 0, 0, 0)
            && Uncounted(b, op) == if p.At? then 1 else 0
  {
    hide RemoveAt, Traded;
  }

  lemma CancelConserves(b: Book, id: uint64)
    requires Shape(b)
    ensures var op := CancelId(id); Conserves(b, Step(b, op), Entry(b, op), Uncounted(b, op))
  {
    hide RemoveAt, Locate, Entry, Step, Uncounted, Conserves, Shifted, SumsOf;
    var p := Locate(b, id);
    LocateSound(b, id);
    CancelEntry(b, id, p);
    if p.At? {
      RemoveAtSums(b, p);
      WithdrawnConserves(b, RemoveAt(b, p), OrderAt(b, p).qty, true);
    } else {
      NothingConserves(b);
    }
  }

  lemma ReduceEntry(b: Book, id: uint64, amount: uint32, p: Place)
    requires Shape(b) && p == Locate(b, id) && p.At?
    ensures var op, all := ReduceId(id, amount), amount >= OrderAt(b, p).qty;
            && Step(b, op) == (if all then RemoveAt(b, p) else ReduceAt(b, p, amount))
            && Entry(b, op) == Ledger(0, 0, 0, if all then OrderAt(b, p).qty else amount, 0, 0)
            && Uncounted(b, op) == if all then 1 else 0
  {
    hide RemoveAt, ReduceAt, Traded;
  }

  lemma ReduceMisses(b: Book, id: uint64, amount: uint32)
    requires Shape(b) && Locate(b, id) == Nowhere
    ensures var op := ReduceId(id, amount);
            Step(b, op) == b && Entry(b, op) == Ledger(0, 0, 0, 0, 0, 0) && Uncounted(b, op) == 0
  {
    hide RemoveAt, ReduceAt, Traded;
  }

  lemma ReduceConserves(b: Book, id: uint64, amount: uint32)
    requires Shape(b)
    ensures var op := ReduceId(id, amount); Conserves(b, Step(b, op), Entry(b, op), Uncounted(b, op))
  {
    hide RemoveAt, ReduceAt, Locate, Entry, Step, Uncounted, Conserves, Shifted, SumsOf;
    var p := Locate(b, id);
    LocateSound(b, id);
    if p.Nowhere? {
      ReduceMisses(b, id, amount);
      NothingConserves(b);
    } else {
      ReduceEntry(b, id, amount, p);
      if amount >= OrderAt(b, p).qty {
        RemoveAtSums(b, p);
        WithdrawnConserves(b, RemoveAt(b, p), OrderAt(b, p).qty, true);
      } else {
        ReduceAtSums(b, p, amount);
        WithdrawnConserves(b, ReduceAt(b, p, amount), amount, false);
      }
    }
  }

  lemma StepConserves(b: Book, op: Op)
    requires Shape(b)
    ensures Conserves(b, Step(b, op), Entry(b, op), Uncounted(b, op))
  {
    match op
    case Limit(id, side, price, qty) => InsertConserves(b, id, side, price, qty);
    case MarketOrder(side, qty) => MarketConserves(b, side, qty);
    case CancelId(id) => CancelConserves(b, id);
    case ExecuteId(id, fill) => ExecuteConserves(b, id, fill);
    case ReduceId(id, amount) => ReduceConserves(b, id, amount);
  }
}
