/** The book with one change: re-basing forgets both bests before it rescans. Then every run is exact and uncrossed. */
module ResetRuns {
  import opened Types
  import opened BookSpec
  import opened BookWf
  import opened Quotes
  import opened Ledgers
  import opened BookRuns

  function WindowedReset(b: Book, price: uint32): Book
    requires Shape(b)
  {
    var b1 := Anchored(b, price);
    if !InBand(b1, price) && b1.live <= BOOTSTRAP_REBASE_LIMIT
    then RebaseReset(b1, CentredBase(|b1.bids|, price))
    else b1
  }

  function InsertReset(b: Book, id: uint64, side: Side, price: uint32, qty: uint32): (Book, bool)
    requires Shape(b)
  {
    var w := WindowedReset(b, price);
    WindowedResetShape(b, price);
    if InBand(w, price) then InsertAt(w, id, side, price - w.base, qty) else (w, false)
  }

  lemma WindowedResetShape(b: Book, price: uint32)
    requires Shape(b)
    ensures var w := WindowedReset(b, price); |w.bids| == |w.asks| == |b.bids| && w.baseSet
  {
  }

  lemma WindowedResetSharp(b: Book, price: uint32)
    requires Sharp(b) && Sane(b)
    ensures Sharp(WindowedReset(b, price))
  {
    hide RebaseReset;
    AnchoredWf(b, price);
    var b1 := Anchored(b, price);
    assert Sharp(b1);
    RebaseResetSharp(b1, CentredBase(|b1.bids|, price));
  }

  lemma InsertAtKeepsBase(b: Book, id: uint64, side: Side, l: nat, qty: uint32)
    requires Wf(b) && l < |b.bids| && b.base + l < TWO_32
    ensures InsertAt(b, id, side, l, qty).0.baseSet == b.baseSet
  {
    InsertAtWf(b, id, side, l, qty);
  }

  lemma InsertResetSharp(b: Book, id: uint64, side: Side, price: uint32, qty: uint32)
    requires Sharp(b) && Sane(b)
    ensures var b' := InsertReset(b, id, side, price, qty).0; Sharp(b') && Sane(b')
  {
    hide InsertAt, WindowedReset, Exact, Uncrossed, WfSide, EmptyBook;
    var w := WindowedReset(b, price);
    WindowedResetShape(b, price);
    WindowedResetSharp(b, price);
    if InBand(w, price) {
      InsertAtSharp(w, id, side, price - w.base, qty);
      InsertAtKeepsBase(w, id, side, price - w.base, qty);
    }
  }

  /** Where the source's own re-base is safe, the change makes no difference. */
  lemma ResetAgrees(b: Book, id: uint64, side: Side, price: uint32, qty: uint32)
    requires Sharp(b) && Sane(b) && SafeAt(b, price)
    ensures InsertReset(b, id, side, price, qty) == Insert(b, id, side, price, qty)
  {
    hide InsertAt, Rebase, RebaseReset, Exact, Uncrossed, WfSide, EmptyBook, InSight;
    AnchoredWf(b, price);
    var b1 := Anchored(b, price);
    var newBase := CentredBase(|b1.bids|, price);
    AnchoredSharp(b, price);
    if newBase != b1.base {
      RebaseIsResetIff(b1, newBase);
    } else {
      NoMove(b1);
    }
    InsertIs(b, id, side, price, qty);
  }

  lemma AnchoredSharp(b: Book, price: uint32)
    requires Sharp(b) && Sane(b)
    ensures Sharp(Anchored(b, price))
  {
    AnchoredWf(b, price);
  }

  lemma NoMove(b: Book)
    requires Shape(b)
    ensures Rebase(b, b.base) == b == RebaseReset(b, b.base)
  {
  }

  function StepReset(b: Book, op: Op): (r: Book)
    requires Shape(b)
    ensures |r.bids| == |r.asks| == |b.bids|
  {
    if op.Limit? then
      InsertResetShape(b, op.id, op.side, op.price, op.qty);
      InsertReset(b, op.id, op.side, op.price, op.qty).0
    else Step(b, op)
  }

  lemma InsertResetShape(b: Book, id: uint64, side: Side, price: uint32, qty: uint32)
    requires Shape(b)
    ensures var r := InsertReset(b, id, side, price, qty).0; |r.bids| == |r.asks| == |b.bids|
  {
    hide WindowedReset;
    WindowedResetShape(b, price);
  }

  function RunReset(b: Book, ops: seq<Op>): (r: Book)
    requires Shape(b)
    ensures |r.bids| == |r.asks| == |b.bids|
    decreases |ops|
  {
    if ops == [] then b else RunReset(StepReset(b, ops[0]), ops[1..])
  }

  lemma StepResetSharp(b: Book, op: Op)
    requires Sharp(b) && Sane(b)
    ensures Sharp(StepReset(b, op)) && Sane(StepReset(b, op))
  {
    hide InsertReset, Step, Exact, Uncrossed, WfSide, EmptyBook;
    if op.Limit? {
      InsertResetSharp(b, op.id, op.side, op.price, op.qty);
    } else {
      StepSharp(b, op);
      StepSane(b, op);
    }
  }

  lemma {:induction false} RunResetKeeps(b: Book, ops: seq<Op>)
    requires Sharp(b) && Sane(b)
    ensures Sharp(RunReset(b, ops)) && Sane(RunReset(b, ops))
    decreases |ops|
  {
    hide StepReset, Exact, Uncrossed, WfSide, EmptyBook;
    if ops != [] {
      StepResetSharp(b, ops[0]);
      RunResetKeeps(StepReset(b, ops[0]), ops[1..]);
    }
  }

  /** With the reset, in every reachable state of every run both bests are exact and the book is not crossed. */
  lemma ResetNeverCrosses(band: nat, capacity: nat, ops: seq<Op>)
    requires 0 < band <= NULL_IDX
    ensures var b := RunReset(FreshBook(band, capacity), ops);
            && Exact(b, Buy) && Exact(b, Sell)
            && (b.tob.bestBid != NULL_IDX && b.tob.bestAsk != NULL_IDX ==> b.tob.bestBid < b.tob.bestAsk)
  {
    hide RunReset, WfSide, EmptyBook;
    FreshIsSharp(band, capacity);
    RunResetKeeps(FreshBook(band, capacity), ops);
    var b := RunReset(FreshBook(band, capacity), ops);
    if b.tob.bestBid != NULL_IDX && b.tob.bestAsk != NULL_IDX {
      QuotesApart(b);
    }
  }
}
