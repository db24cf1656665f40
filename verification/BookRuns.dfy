/** Whole runs of the book: what holds in every reachable state, and what adds up from the first order on. */
module BookRuns {
  import opened Types
  import opened BookSpec
  import opened BookWf
  import opened BookIds
  import opened Totals
  import opened Quotes
  import opened StaleQuotes
  import opened QuoteQuantities
  import opened Ledgers

  /** Every insertion of the run carries an id that is not resting at that point. */
  ghost predicate FreshIds(b: Book, ops: seq<Op>)
    requires Shape(b)
    decreases |ops|
  {
    ops != [] ==> (ops[0].Limit? ==> Absent(b, ops[0].id)) && FreshIds(Step(b, ops[0]), ops[1..])
  }

  /** No re-basing of the run slides an order past the stale index its rescan starts from. */
  ghost predicate SafeRun(b: Book, ops: seq<Op>)
    requires Shape(b)
    decreases |ops|
  {
    ops != [] ==> (ops[0].Limit? ==> SafeAt(b, ops[0].price)) && SafeRun(Step(b, ops[0]), ops[1..])
  }

  /** Well-formed, and empty until the first order has anchored the window. */
  ghost predicate Sane(b: Book) {
    Wf(b) && (b.baseSet || EmptyBook(b))
  }

  lemma IdleOnEmpty(b: Book, op: Op)
    requires Wf(b) && EmptyBook(b) && !op.Limit?
    ensures Step(b, op) == b
  {
    if op.MarketOrder? {
      MarketOnEmpty(b, op.side, op.qty);
    } else {
      CancelOnEmpty(b, op.id);
    }
  }

  lemma StepSane(b: Book, op: Op)
    requires Sane(b)
    ensures Sane(Step(b, op))
  {
    if !op.Limit? && EmptyBook(b) {
      IdleOnEmpty(b, op);
    } else {
      match op
      case Limit(id, side, price, qty) => InsertWf(b, id, side, price, qty);
      case MarketOrder(side, qty) => MarketWf(b, side, qty);
      case CancelId(id) => CancelWf(b, id);
      case ExecuteId(id, fill) => ExecuteWf(b, id, fill);
      case ReduceId(id, amount) => ReduceWf(b, id, amount);
    }
  }

  lemma StepSharp(b: Book, op: Op)
    requires Sharp(b) && Sane(b) && (op.Limit? ==> SafeAt(b, op.price))
    ensures Sharp(Step(b, op))
  {
    match op
    case Limit(id, side, price, qty) => InsertSharp(b, id, side, price, qty);
    case MarketOrder(side, qty) => MarketSharp(b, side, qty);
    case CancelId(id) => CancelSharp(b, id);
    case ExecuteId(id, fill) => ExecuteSharp(b, id, fill);
    case ReduceId(id, amount) => ReduceSharp(b, id, amount);
  }

  lemma StepModest(b: Book, op: Op)
    requires Modest(b) && Shape(b)
    ensures Modest(Step(b, op))
  {
    hide Modest;
    match op
    case Limit(id, side, price, qty) => InsertQuantity(b, id, side, price, qty);
    case MarketOrder(side, qty) =>
      SweepQuantity(b, side.Opposite(), 0, if side.Buy? then |b.asks| - 1 else 0, qty);
    case CancelId(id) => CancelQuantity(b, id);
    case ExecuteId(id, fill) => ExecuteQuantity(b, id, fill);
    case ReduceId(id, amount) => ReduceQuantity(b, id, amount);
  }

  // ---- every reachable state ----

  /** Every reachable book is well-formed, and its quoted quantities never exceed what rests at the quoted level. */
  lemma {:induction false} RunSane(b: Book, ops: seq<Op>)
    requires Sane(b) && Modest(b)
    ensures Sane(Run(b, ops)) && Modest(Run(b, ops))
    decreases |ops|
  {
    hide Step, WfSide, EmptyBook, Modest;
    if ops != [] {
      StepSane(b, ops[0]);
      StepModest(b, ops[0]);
      RunSane(Step(b, ops[0]), ops[1..]);
    }
  }

  /**
   In every state of a run without unsafe re-basing the cached bests are the best resting prices and the book is
   not crossed.
   */
  lemma {:induction false} RunSharp(b: Book, ops: seq<Op>)
    requires Sharp(b) && Sane(b) && SafeRun(b, ops)
    ensures Sharp(Run(b, ops))
    decreases |ops|
  {
    hide Step, WfSide, EmptyBook, Exact, Uncrossed;
    if ops != [] {
      StepSane(b, ops[0]);
      StepSharp(b, ops[0]);
      RunSharp(Step(b, ops[0]), ops[1..]);
    }
  }

  /** The state after the first k operations has exact bests and is not crossed. */
  ghost predicate SharpAfter(b: Book, ops: seq<Op>, k: nat)
    requires Shape(b) && k <= |ops|
  {
    Sharp(Run(b, ops[..k]))
  }

  ghost predicate AlwaysSharp(b: Book, ops: seq<Op>)
    requires Shape(b)
  {
    forall k: nat :: k <= |ops| ==> SharpAfter(b, ops, k)
  }

  lemma AfterFirst(b: Book, ops: seq<Op>, k: nat)
    requires Shape(b) && 0 < k <= |ops|
    ensures SharpAfter(b, ops, k) <==> SharpAfter(Step(b, ops[0]), ops[1..], k - 1)
  {
    hide Step, Sharp;
    assert ops[..k][1..] == ops[1..][..k - 1];
  }

  /** A run is sharp throughout if its start is, and it is from the second state on. */
  lemma AlwaysSharpUnfold(b: Book, ops: seq<Op>)
    requires Shape(b) && ops != []
    ensures AlwaysSharp(b, ops) <==> Sharp(b) && AlwaysSharp(Step(b, ops[0]), ops[1..])
  {
    hide Step, Sharp, SharpAfter;
    AfterNone(b, ops);
    var b1, rest := Step(b, ops[0]), ops[1..];
    if AlwaysSharp(b, ops) {
      forall k: nat | k <= |rest|
        ensures SharpAfter(b1, rest, k)
      {
        AfterFirst(b, ops, k + 1);
        assert SharpAfter(b, ops, k + 1);
      }
    }
    if Sharp(b) && AlwaysSharp(b1, rest) {
      forall k: nat | k <= |ops|
        ensures SharpAfter(b, ops, k)
      {
        if k > 0 {
          AfterFirst(b, ops, k);
          assert SharpAfter(b1, rest, k - 1);
        }
      }
    }
  }

  lemma AfterNone(b: Book, ops: seq<Op>)
    requires Shape(b)
    ensures SharpAfter(b, ops, 0) <==> Sharp(b)
    ensures AlwaysSharp(b, ops) ==> Sharp(b)
    ensures ops == [] ==> (AlwaysSharp(b, ops) <==> Sharp(b))
  {
    hide Step, Sharp;
    assert ops[..0] == [];
    if ops == [] && Sharp(b) {
      forall k: nat | k <= |ops|
        ensures SharpAfter(b, ops, k)
      {
      }
    }
  }

  lemma StepSharpIff(b: Book, op: Op)
    requires Sharp(b) && Sane(b)
    ensures Sharp(Step(b, op)) <==> (op.Limit? ==> SafeAt(b, op.price))
  {
    hide Sharp, Wf, SafeAt, EmptyBook, Insert, Market, Cancel, Execute, Reduce;
    SharpShape(b);
    if op.Limit? {
      InsertSharpIff(b, op.id, op.side, op.price, op.qty);
    } else {
      StepSharp(b, op);
    }
  }

  /** All states of a run have exact bests and are not crossed if and only if every re-basing of the run is safe. */
  lemma {:induction false} RunSharpIff(b: Book, ops: seq<Op>)
    requires Sharp(b) && Sane(b)
    ensures AlwaysSharp(b, ops) <==> SafeRun(b, ops)
    decreases |ops|
  {
    hide Step, SharpAfter, AlwaysSharp, WfSide, EmptyBook, Exact, Uncrossed, SafeAt;
    if ops == [] {
      AfterNone(b, ops);
    } else {
      AlwaysSharpUnfold(b, ops);
      StepSane(b, ops[0]);
      StepSharpIff(b, ops[0]);
      if Sharp(Step(b, ops[0])) {
        RunSharpIff(Step(b, ops[0]), ops[1..]);
      } else {
        AfterNone(Step(b, ops[0]), ops[1..]);
      }
    }
  }

  lemma FreshIsSharp(band: nat, capacity: nat)
    requires 0 < band <= NULL_IDX
    ensures var b := FreshBook(band, capacity); Sharp(b) && Sane(b) && Modest(b)
  {
    var b := FreshBook(band, capacity);
    forall side: Side
      ensures WfSide(b, side)
    {
    }
  }

  /**
   From an empty book on: quoted quantities are never too large; quotes are exact and the bid below the ask in every
   state exactly when every re-basing is safe, and then the quotes at the end are.
   */
  lemma QuotesHold(band: nat, capacity: nat, ops: seq<Op>)
    requires 0 < band <= NULL_IDX
    ensures var b0 := FreshBook(band, capacity);
            var b := Run(b0, ops);
            && Modest(b)
            && (AlwaysSharp(b0, ops) <==> SafeRun(b0, ops))
            && (SafeRun(b0, ops) ==>
                  && Exact(b, Buy) && Exact(b, Sell)
                  && (b.tob.bestBid != NULL_IDX && b.tob.bestAsk != NULL_IDX ==> b.tob.bestBid < b.tob.bestAsk))
  {
    hide Run, SafeRun, AlwaysSharp, WfSide, EmptyBook, Modest, BestOf;
    FreshIsSharp(band, capacity);
    var b0 := FreshBook(band, capacity);
    RunSharpIff(b0, ops);
    RunSane(b0, ops);
    if SafeRun(b0, ops) {
      RunSharp(b0, ops);
      if Run(b0, ops).tob.bestBid != NULL_IDX && Run(b0, ops).tob.bestAsk != NULL_IDX {
        QuotesApart(Run(b0, ops));
      }
    }
  }

  // ---- what adds up ----

  function RunLedger(b: Book, ops: seq<Op>): Ledger
    requires Shape(b)
    decreases |ops|
  {
    if ops == [] then NO_ENTRY else Entry(b, ops[0]).Plus(RunLedger(Step(b, ops[0]), ops[1..]))
  }

  /** Successful cancellations of a run. */
  function Cancels(b: Book, ops: seq<Op>): nat
    requires Shape(b)
    decreases |ops|
  {
    if ops == [] then 0 else Uncounted(b, ops[0]) + Cancels(Step(b, ops[0]), ops[1..])
  }

  lemma NoEntryGone()
    ensures NO_ENTRY.Gone() == NO_ENTRY.accepted == NO_ENTRY.asMaker == 0
  {
  }

  lemma PlusAdds(e: Ledger, l: Ledger)
    ensures e.Plus(l).accepted == e.accepted + l.accepted && e.Plus(l).asMaker == e.asMaker + l.asMaker
    ensures e.Plus(l).Gone() == e.Gone() + l.Gone()
  {
  }

  lemma {:induction false} RunConserves(b: Book, ops: seq<Op>)
    requires Shape(b)
    ensures var b', l := Run(b, ops), RunLedger(b, ops);
            && RestingQty(b) + l.accepted == RestingQty(b') + l.Gone()
            && Traded(b'.log) == Traded(b.log) + l.asMaker
            && b'.free + Orders(b') == b.free + Orders(b)
    decreases |ops|
  {
    hide Step, Entry, Uncounted, RestingQty, Orders, Traded, Ledger.Gone, Ledger.Plus;
    NoEntryGone();
    if ops != [] {
      PlusAdds(Entry(b, ops[0]), RunLedger(Step(b, ops[0]), ops[1..]));
      StepConserves(b, ops[0]);
      RunConserves(Step(b, ops[0]), ops[1..]);
    }
  }

  lemma {:induction false} RunCounts(b: Book, ops: seq<Op>)
    requires Shape(b) && b.live >= Orders(b) && b.live + |ops| < TWO_32
    ensures Run(b, ops).live - Orders(Run(b, ops)) == b.live - Orders(b) + Cancels(b, ops)
    decreases |ops|
  {
    hide Step, Entry, Uncounted, RestingQty, Traded, Orders;
    if ops != [] {
      StepConserves(b, ops[0]);
      RunCounts(Step(b, ops[0]), ops[1..]);
    }
  }

  /**
   Over any run from an empty book: accepted quantity is resting, or traded as maker or as taker, or cancelled,
   or dropped for want of a slot or by a re-base; slots in use and free slots make up the pool.
   */
  lemma QuantityIsConserved(band: nat, capacity: nat, ops: seq<Op>)
    requires 0 < band <= NULL_IDX
    ensures var b0 := FreshBook(band, capacity);
            var b, l := Run(b0, ops), RunLedger(b0, ops);
            && l.accepted == RestingQty(b) + l.asMaker + l.asTaker + l.cancelled + l.exhausted + l.slid
            && l.asMaker == Traded(b.log)
            && b.free + Orders(b) == capacity
  {
    hide Run, RunLedger;
    var b0 := FreshBook(band, capacity);
    RunConserves(b0, ops);
    FreshSums(band, capacity);
  }

  lemma FreshSums(band: nat, capacity: nat)
    ensures SumsOf(FreshBook(band, capacity)) == Sums(0, 0, capacity, 0)
  {
    var ls: Levels := seq(band, _ => []);
    TotalEmpty(ls, Volume);
    TotalEmpty(ls, Length);
    CountIsTotal(ls);
  }

  /** The live-order counter is the number of resting orders plus the number of successful cancellations. */
  lemma CounterIsOrdersPlusCancels(band: nat, capacity: nat, ops: seq<Op>)
    requires 0 < band <= NULL_IDX && |ops| < TWO_32
    ensures var b0 := FreshBook(band, capacity);
            var b := Run(b0, ops);
            b.live == Orders(b) + Cancels(b0, ops)
  {
    hide Run, Cancels;
    FreshSums(band, capacity);
    RunCounts(FreshBook(band, capacity), ops);
  }

  lemma RefusesOutOfBand(b: Book, id: uint64, side: Side, price: uint32, qty: uint32)
    requires Shape(b) && b.baseSet && !InBand(b, price) && b.live > BOOTSTRAP_REBASE_LIMIT
    ensures Insert(b, id, side, price, qty) == (b, false)
  {
  }

  /** So after more than 64 cancellations an anchored book refuses every out-of-band price, even when it is empty. */
  lemma CancelsEndBootstrap(band: nat, capacity: nat, ops: seq<Op>, b: Book, id: uint64, side: Side, price: uint32,
                            qty: uint32)
    requires 0 < band <= NULL_IDX && |ops| < TWO_32 && b == Run(FreshBook(band, capacity), ops)
    requires Cancels(FreshBook(band, capacity), ops) > 64
    requires b.baseSet && !InBand(b, price)
    ensures |b.bids| == |b.asks| && Insert(b, id, side, price, qty) == (b, false)
  {
    hide Run, Cancels, Insert, Orders;
    CounterIsOrdersPlusCancels(band, capacity, ops);
    RefusesOutOfBand(b, id, side, price, qty);
  }

  // ---- a run that is not safe ----

  lemma FirstSell(b: Book)
    requires b == FreshBook(10, 8)
    ensures var asks := b.asks[5 := [Resting(1, 5)]];
            Step(b, Limit(1, Sell, 108, 5)) == Book(7, 103, true, 1, b.bids, asks, TopOfBook(NULL_IDX, 5, 0, 5), [])
  {
    var w := Windowed(b, 108);
    assert w == b.(base := 103, baseSet := true);
    assert Sweep(w, Buy, 1, 5, 5) == (w, 5);
    assert w.asks[5] + [Resting(1, 5)] == [Resting(1, 5)];
    assert Volume([Resting(1, 5)]) == 5;
  }

  lemma {:induction false} ScanEmpty(ls: Levels, side: Side, start: nat)
    requires |ls| <= NULL_IDX && forall j: nat :: j < |ls| && Outward(side, start, j) ==> ls[j] == []
    ensures Scan(ls, side, start) == NULL_IDX
    decreases if side.Buy? then start else |ls| - start
  {
    if start < |ls| {
      if side.Sell? {
        ScanEmpty(ls, side, start + 1);
      } else if start > 0 {
        ScanEmpty(ls, side, start - 1);
      }
    }
  }

  /** No bids, and one ask of five units at this level. */
  ghost predicate OneAsk(b: Book, l: nat) {
    && |b.bids| == |b.asks| == 10 && l < 10
    && (forall j: nat :: j < 10 ==> b.bids[j] == [])
    && (forall j: nat :: j < 10 && j != l ==> b.asks[j] == [])
    && b.asks[l] == [Resting(1, 5)]
  }

  lemma StaleLevels(b: Book) returns (s: Book)
    requires OneAsk(b, 5) && b.base == 103
    ensures s == Slide(b, 108) && OneAsk(s, 0) && s.base == 108 && s.free == b.free && s.tob == b.tob && s.log == b.log
  {
    s := Slide(b, 108);
    LostBelow(b.bids, 103, 108, 0, Length);
    LostBelow(b.asks, 103, 108, 0, Length);
    LostIsTotal(b.bids, 103, 108, 0);
    LostIsTotal(b.asks, 103, 108, 0);
    TotalEmpty(b.bids[0..5], Length);
    TotalEmpty(b.asks[0..5], Length);
  }

  /** Scanning up from the stale index 5 misses the ask at level 0. */
  lemma StaleScan(s: Book) returns (w: Book)
    requires OneAsk(s, 0) && s.tob == TopOfBook(NULL_IDX, 5, 0, 5)
    ensures w == UpdateBest(UpdateBest(s, Buy), Sell)
    ensures OneAsk(w, 0) && w.tob == TopOfBook(NULL_IDX, NULL_IDX, 0, 0)
    ensures w.base == s.base && w.free == s.free && w.log == s.log && w.baseSet == s.baseSet
  {
    ScanEmpty(s.bids, Buy, 9);
    ScanEmpty(s.asks, Sell, 5);
    var u := UpdateBest(s, Buy);
    assert u.tob == s.tob;
    w := UpdateBest(u, Sell);
  }

  /** The re-base for price 113 slides the ask at 108 from level 5 to level 0, below the stale index 5. */
  lemma StaleAsk(b: Book) returns (w: Book)
    requires OneAsk(b, 5) && b.tob == TopOfBook(NULL_IDX, 5, 0, 5) && b.base == 103 && b.baseSet && b.live == 1
    ensures w == Windowed(b, 113) && w.base == 108 && OneAsk(w, 0) && w.tob == TopOfBook(NULL_IDX, NULL_IDX, 0, 0)
    ensures w.free == b.free && w.log == b.log
  {
    hide OneAsk, UpdateBest, Slide;
    assert |b.bids| == |b.asks| == 10 by { OneAskSize(b, 5); }
    RecentredMoves(b, 113, 108);
    var s := StaleLevels(b);
    w := StaleScan(s);
  }

  lemma OneAskSize(b: Book, l: nat)
    requires OneAsk(b, l)
    ensures |b.bids| == |b.asks| == 10
  {
  }

  lemma SecondBuy(b: Book, w: Book) returns (b2: Book)
    requires |b.bids| == |b.asks| == 10 && w == Windowed(b, 113)
    requires w.base == 108 && OneAsk(w, 0) && w.tob == TopOfBook(NULL_IDX, NULL_IDX, 0, 0) && w.free > 0
    ensures b2 == Step(b, Limit(2, Buy, 113, 5))
    ensures b2.bids == w.bids[5 := [Resting(2, 5)]] && b2.asks == w.asks
    ensures b2.base == 108 && b2.log == w.log && b2.tob.bestAsk == NULL_IDX
  {
    hide Windowed;
    InsertIs(b, 2, Buy, 113, 5);
    SweepStops(w, Sell, 2, 5, 5);
    assert w.bids[5] + [Resting(2, 5)] == [Resting(2, 5)];
    b2 := Rest(w, Buy, 5, 2, 5);
  }

  lemma RunTwo(b: Book, op: Op, op': Op)
    requires Shape(b)
    ensures Run(b, [op, op']) == Step(Step(b, op), op')
  {
    hide Step;
    var ops := [op, op'];
    var b1 := Step(b, op);
    assert ops[1..] == [op'] && [op'][1..] == [];
    assert Run(b, ops) == Run(b1, [op']) == Run(Step(b1, op'), []);
  }

  /** Sell at 108, then buy at 113, in a window of ten prices: they do not trade, and the book is crossed. */
  lemma UnsafeRunCrosses()
    ensures var b := Run(FreshBook(10, 8), [Limit(1, Sell, 108, 5), Limit(2, Buy, 113, 5)]);
            && !Uncrossed(b) && !Exact(b, Sell)
            && b.log == [] && b.base == 108 && b.asks[0] == [Resting(1, 5)] && b.bids[5] == [Resting(2, 5)]
  {
    hide Step, Run;
    var b0 := FreshBook(10, 8);
    var b1 := Step(b0, Limit(1, Sell, 108, 5));
    FirstSell(b0);
    var w := StaleAsk(b1);
    var b2 := SecondBuy(b1, w);
    RunTwo(b0, Limit(1, Sell, 108, 5), Limit(2, Buy, 113, 5));
    assert b2.bids[5] != [] && b2.asks[0] != [];
    assert !NotBetter(Sell, b2.tob.bestAsk, 0);
  }
}
