/** Partial fills and reductions compose, and leave every order its place in the queue. */
module PartialFills {
  import opened Types
  import opened BookSpec
  import opened BookIds
  import opened Totals

  /** The same ids in the same places. */
  ghost predicate SameLine(b: Book, b': Book) {
    forall p: Place :: p.At? ==> (ValidPlace(b, p) <==> ValidPlace(b', p)) && (ValidPlace(b, p) ==> SameIdAt(b, b', p))
  }

  ghost predicate SameIdAt(b: Book, b': Book, p: Place)
    requires p.At? && ValidPlace(b, p) && ValidPlace(b', p)
  {
    OrderAt(b, p).id == OrderAt(b', p).id
  }

  /** Lowering an order moves nobody: every id keeps its level and its position there. */
  lemma ReduceKeepsLine(b: Book, p: Place, amount: nat)
    requires p.At? && ValidPlace(b, p) && |b.Lv(p.side)| <= NULL_IDX && amount <= OrderAt(b, p).qty
    ensures SameLine(b, ReduceAt(b, p, amount))
  {
    var q := b.Lv(p.side)[p.level];
    assert ReduceAt(b, p, amount).Lv(p.side) == b.Lv(p.side)[p.level := Lower(q, p.pos, amount)];
    assert ReduceAt(b, p, amount).Lv(p.side.Opposite()) == b.Lv(p.side.Opposite());
  }

  lemma SameLineLocates(b: Book, b': Book, p: Place)
    requires UniqueIds(b) && SameLine(b, b') && p.At? && ValidPlace(b, p)
    ensures UniqueIds(b') && Locate(b', OrderAt(b, p).id) == p && ValidPlace(b', p)
  {
    forall o: Place, o': Place | o.At? && o'.At? && ValidPlace(b', o) && ValidPlace(b', o')
        && OrderAt(b', o).id == OrderAt(b', o').id
      ensures o == o'
    {
      assert SameIdAt(b, b', o) && SameIdAt(b, b', o');
    }
    assert SameIdAt(b, b', p);
    LocateUnique(b', p);
  }

  /** An order taken out is gone. */
  lemma RemovedIsAbsent(b: Book, p: Place)
    requires UniqueIds(b) && p.At? && ValidPlace(b, p) && |b.Lv(p.side)| <= NULL_IDX
    ensures Locate(RemoveAt(b, p), OrderAt(b, p).id) == Nowhere
  {
    var b', id, q := RemoveAt(b, p), OrderAt(b, p).id, b.Lv(p.side)[p.level];
    assert b'.Lv(p.side) == b.Lv(p.side)[p.level := Without(q, p.pos)]
           && b'.Lv(p.side.Opposite()) == b.Lv(p.side.Opposite());
    forall f: Place | f.At? && ValidPlace(b', f)
      ensures OrderAt(b', f).id != id
    {
      var o := At(f.side, f.level,
                  if f.side == p.side && f.level == p.level && f.pos >= p.pos then f.pos + 1 else f.pos);
      assert o != p && ValidPlace(b, o) && OrderAt(b', f) == OrderAt(b, o);
    }
    LocateSound(b', id);
  }

  /** Lowering an order before taking it out changes nothing. */
  lemma ReduceThenRemove(b: Book, p: Place, a: nat)
    requires p.At? && ValidPlace(b, p) && |b.Lv(p.side)| <= NULL_IDX && a < OrderAt(b, p).qty
    ensures ValidPlace(ReduceAt(b, p, a), p) && RemoveAt(ReduceAt(b, p, a), p) == RemoveAt(b, p)
  {
    var q := b.Lv(p.side)[p.level];
    var b1 := ReduceAt(b, p, a);
    assert b1.Lv(p.side) == b.Lv(p.side)[p.level := Lower(q, p.pos, a)];
    assert Without(Lower(q, p.pos, a), p.pos) == Without(q, p.pos);
    var d, d1 := DropAt(b, p.side, p.level, p.pos), DropAt(b1, p.side, p.level, p.pos);
    assert d1.Lv(p.side) == d.Lv(p.side);
    if b.Best(p.side) == p.level {
      assert d1 == d.WithBest(p.side, p.level, d1.BestQty(p.side));
      RefreshForgets(d, p.side, d1.BestQty(p.side));
    } else {
      SameBook(d1, d, p.side);
    }
  }

  /** Refreshing overwrites the cached quantity. */
  lemma RefreshForgets(b: Book, side: Side, qty: uint32)
    requires |b.Lv(side)| <= NULL_IDX
    ensures Refresh(b.WithBest(side, b.Best(side), qty), side) == Refresh(b, side)
  {
  }

  lemma ReduceThenReduce(b: Book, p: Place, a: nat, c: nat)
    requires p.At? && ValidPlace(b, p) && |b.Lv(p.side)| <= NULL_IDX && a + c < OrderAt(b, p).qty
    ensures var b1 := ReduceAt(b, p, a);
            && ValidPlace(b1, p) && OrderAt(b1, p).qty == OrderAt(b, p).qty - a
            && ReduceAt(b1, p, c) == ReduceAt(b, p, a + c)
  {
    var q := b.Lv(p.side)[p.level];
    var b1 := ReduceAt(b, p, a);
    assert b1.Lv(p.side) == b.Lv(p.side)[p.level := Lower(q, p.pos, a)];
    assert Lower(Lower(q, p.pos, a), p.pos, c) == Lower(q, p.pos, a + c);
    var d, d1 := Lowered(b, p.side, p.level, p.pos, a + c), Lowered(b1, p.side, p.level, p.pos, c);
    assert d1.Lv(p.side) == d.Lv(p.side);
    if b.Best(p.side) == p.level {
      assert d1 == d.WithBest(p.side, p.level, d1.BestQty(p.side));
      RefreshForgets(d, p.side, d1.BestQty(p.side));
    } else {
      SameBook(d1, d, p.side);
    }
  }

  lemma LowerLeaves(b: Book, p: Place, a: nat)
    requires p.At? && ValidPlace(b, p) && |b.Lv(p.side)| <= NULL_IDX && a <= OrderAt(b, p).qty
    ensures ValidPlace(ReduceAt(b, p, a), p)
    ensures OrderAt(ReduceAt(b, p, a), p) == Resting(OrderAt(b, p).id, OrderAt(b, p).qty - a)
  {
    assert ReduceAt(b, p, a).Lv(p.side) == b.Lv(p.side)[p.level := Lower(b.Lv(p.side)[p.level], p.pos, a)];
  }

  /** The first of two reductions, when it leaves something. */
  lemma ReducePart(b: Book, id: uint64, p: Place, a: uint32) returns (b1: Book)
    requires UniqueIds(b) && |b.bids| == |b.asks| <= NULL_IDX
    requires p == Locate(b, id) && p.At? && OrderAt(b, p).id == id && a < OrderAt(b, p).qty
    ensures b1 == ReduceAt(b, p, a) && Reduce(b, id, a) == (b1, false)
    ensures |b1.bids| == |b1.asks| == |b.bids| && UniqueIds(b1)
    ensures Locate(b1, id) == p && ValidPlace(b1, p) && OrderAt(b1, p) == Resting(id, OrderAt(b, p).qty - a)
  {
    b1 := ReduceAt(b, p, a);
    ReduceKeepsLine(b, p, a);
    SameLineLocates(b, b1, p);
    LowerLeaves(b, p, a);
  }

  lemma ReduceAll(b: Book, id: uint64, p: Place, a: uint32) returns (b1: Book)
    requires |b.bids| == |b.asks| <= NULL_IDX && p == Locate(b, id) && p.At? && a >= OrderAt(b, p).qty
    ensures b1 == RemoveAt(b, p) && Reduce(b, id, a) == (b1, true) && |b1.bids| == |b1.asks| == |b.bids|
  {
    b1 := RemoveAt(b, p);
  }

  lemma ReduceNowhere(b: Book, id: uint64, a: uint32)
    requires |b.bids| == |b.asks| <= NULL_IDX && Locate(b, id) == Nowhere
    ensures Reduce(b, id, a) == (b, false)
  {
  }

  /** Reducing by a and then by c is reducing by a + c. */
  lemma ReduceComposes(b: Book, id: uint64, a: uint32, c: uint32)
    requires UniqueIds(b) && |b.bids| == |b.asks| <= NULL_IDX && a + c < TWO_32
    ensures var (b1, gone) := Reduce(b, id, a);
            && |b1.bids| == |b1.asks| == |b.bids|
            && Reduce(b1, id, c).0 == Reduce(b, id, a + c).0
            && (gone || Reduce(b1, id, c).1) == Reduce(b, id, a + c).1
  {
    hide RemoveAt, ReduceAt, Reduce, Locate, UniqueIds;
    var p := Locate(b, id);
    LocateSound(b, id);
    if p.Nowhere? {
      ReduceNowhere(b, id, a);
      ReduceNowhere(b, id, c);
      ReduceNowhere(b, id, a + c);
    } else if a >= OrderAt(b, p).qty {
      var b1 := ReduceAll(b, id, p, a);
      var b2 := ReduceAll(b, id, p, a + c);
      RemovedIsAbsent(b, p);
      ReduceNowhere(b1, id, c);
    } else {
      var b1 := ReducePart(b, id, p, a);
      if a + c >= OrderAt(b, p).qty {
        var x1 := ReduceAll(b1, id, p, c);
        var x2 := ReduceAll(b, id, p, a + c);
        ReduceThenRemove(b, p, a);
      } else {
        var x1 := ReducePart(b1, id, p, c);
        var x2 := ReducePart(b, id, p, a + c);
        ReduceThenReduce(b, p, a, c);
      }
    }
  }

  function Unlogged(b: Book): Book {
    b.(log := [])
  }

  lemma UnloggedRemove(b: Book, p: Place, t: Trade)
    requires p.At? && ValidPlace(b, p) && |b.Lv(p.side)| <= NULL_IDX
    ensures ValidPlace(b.Logged(t), p) && RemoveAt(b.Logged(t), p) == RemoveAt(b, p).Logged(t)
  {
  }

  lemma UnloggedReduce(b: Book, p: Place, t: Trade, m: nat)
    requires p.At? && ValidPlace(b, p) && |b.Lv(p.side)| <= NULL_IDX && m <= OrderAt(b, p).qty
    ensures ValidPlace(b.Logged(t), p) && ReduceAt(b.Logged(t), p, m) == ReduceAt(b, p, m).Logged(t)
  {
  }

  lemma LocateUnlogged(b: Book, t: Trade, live: uint32, id: uint64)
    ensures Locate(Accounted(b, t, live), id) == Locate(b, id)
  {
  }

  /** A partial execution reports, lowers the order, and leaves it where it was. */
  lemma ExecutePart(b: Book, id: uint64, p: Place, a: uint32) returns (r: Book, b1: Book)
    requires UniqueIds(b) && |b.bids| == |b.asks| <= NULL_IDX
    requires p == Locate(b, id) && p.At? && OrderAt(b, p).id == id && a < OrderAt(b, p).qty
    ensures r == ReduceAt(b, p, a) && b1 == r.Logged(Trade(id, 0, b.base + p.level, a))
            && Execute(b, id, a) == (b1, false)
    ensures |b1.bids| == |b1.asks| == |b.bids| && b1.base == b.base && b1.live == b.live && r.log == b.log
    ensures ValidPlace(r, p) && Locate(b1, id) == p && OrderAt(b1, p) == Resting(id, OrderAt(b, p).qty - a)
  {
    hide Execute, ReduceAt, Locate, Refresh, SameLine;
    LocateSound(b, id);
    r := ReduceAt(b, p, a);
    ReduceAtFrame(b, p, a);
    var t := Trade(id, 0, b.base + p.level, a);
    b1 := r.Logged(t);
    ExecuteSteps(b, id, a);
    ReduceKeepsLine(b, p, a);
    SameLineLocates(b, r, p);
    LocateUnlogged(r, t, r.live, id);
    LowerLeaves(b, p, a);
  }

  /** A full execution is a report, a count and a removal. */
  lemma ExecuteAll(b: Book, id: uint64, p: Place, fill: uint32) returns (y: Book, x: Book)
    requires |b.bids| == |b.asks| <= NULL_IDX && p == Locate(b, id) && p.At? && fill >= OrderAt(b, p).qty
    ensures ValidPlace(b, p) && y == RemoveAt(b, p) && y.log == b.log
    ensures x == Accounted(y, Trade(id, 0, b.base + p.level, OrderAt(b, p).qty), SatSub(b.live, 1))
    ensures Execute(b, id, fill) == (x, true) && |x.bids| == |x.asks| == |b.bids|
  {
    hide RemoveAt, Execute, Locate;
    LocateSound(b, id);
    RemoveAtFrame(b, p);
    ExecuteSteps(b, id, fill);
    y := RemoveAt(b, p);
    x := Accounted(y, Trade(id, 0, b.base + p.level, OrderAt(b, p).qty), SatSub(b.live, 1));
  }

  /** Two reports or one, of the same quantity in all: the rest of the book does not tell. */
  lemma OneReportOrTwo(y: Book, t: Trade, t': Trade, both: Trade, live: uint32)
    requires t.qty + t'.qty == both.qty
    ensures var two, one := Accounted(y.Logged(t), t', live), Accounted(y, both, live);
            Unlogged(two) == Unlogged(one) && Traded(two.log) == Traded(one.log)
  {
    TradedLast(y.log, t);
    TradedLast(y.log + [t], t');
    TradedLast(y.log, both);
  }

  /** x1 comes from executing a and then c, x2 from executing both at once. */
  ghost predicate Composed(b: Book, id: uint64, a: uint32, c: uint32, b1: Book, x1: Book, x2: Book, gone: bool)
    requires |b.bids| == |b.asks| == |b1.bids| == |b1.asks| <= NULL_IDX && a + c < TWO_32
  {
    && Execute(b1, id, c) == (x1, gone) && Execute(b, id, a + c) == (x2, gone)
    && Unlogged(x1) == Unlogged(x2) && Traded(x1.log) == Traded(x2.log)
  }

  lemma ExecuteRest(b: Book, id: uint64, p: Place, a: uint32, c: uint32) returns (b1: Book, x1: Book, x2: Book)
    requires UniqueIds(b) && |b.bids| == |b.asks| <= NULL_IDX && a + c < TWO_32
    requires p == Locate(b, id) && p.At? && OrderAt(b, p).id == id && a < OrderAt(b, p).qty <= a + c
    ensures Execute(b, id, a) == (b1, false) && |b1.bids| == |b1.asks| == |b.bids|
    ensures Composed(b, id, a, c, b1, x1, x2, true)
  {
    hide Execute, RemoveAt, ReduceAt, Locate, UniqueIds, Unlogged, Traded;
    LocateSound(b, id);
    var price, qty := b.base + p.level, OrderAt(b, p).qty;
    var t := Trade(id, 0, price, a);
    var r, y, y1: Book;
    r, b1 := ExecutePart(b, id, p, a);
    y1, x1 := ExecuteAll(b1, id, p, c);
    y, x2 := ExecuteAll(b, id, p, a + c);
    ReduceThenRemove(b, p, a);
    UnloggedRemove(r, p, t);
    assert y1 == y.Logged(t);
    OneReportOrTwo(y, t, Trade(id, 0, price, qty - a), Trade(id, 0, price, qty), SatSub(b.live, 1));
  }

  lemma ExecuteMore(b: Book, id: uint64, p: Place, a: uint32, c: uint32) returns (b1: Book, x1: Book, x2: Book)
    requires UniqueIds(b) && |b.bids| == |b.asks| <= NULL_IDX && a + c < TWO_32
    requires p == Locate(b, id) && p.At? && OrderAt(b, p).id == id && a + c < OrderAt(b, p).qty
    ensures Execute(b, id, a) == (b1, false) && |b1.bids| == |b1.asks| == |b.bids|
    ensures Composed(b, id, a, c, b1, x1, x2, false)
  {
    hide Execute, RemoveAt, ReduceAt, Locate, UniqueIds, Unlogged, Traded;
    var price := b.base + p.level;
    var t := Trade(id, 0, price, a);
    var r, y, y1: Book;
    r, b1 := ExecutePart(b, id, p, a);
    y1, x1 := ExecuteMid(b1, id, p, c);
    y, x2 := ExecuteMid(b, id, p, a + c);
    ReduceThenReduce(b, p, a, c);
    UnloggedReduce(r, p, t, c);
    assert y1 == y.Logged(t);
    OneReportOrTwo(y, t, Trade(id, 0, price, c), Trade(id, 0, price, a + c), b.live);
  }

  lemma ExecuteMid(b: Book, id: uint64, p: Place, fill: uint32) returns (y: Book, x: Book)
    requires |b.bids| == |b.asks| <= NULL_IDX && p == Locate(b, id) && p.At? && fill < OrderAt(b, p).qty
    ensures ValidPlace(b, p) && y == ReduceAt(b, p, fill)
            && x == Accounted(y, Trade(id, 0, b.base + p.level, fill), b.live)
    ensures Execute(b, id, fill) == (x, false)
  {
    ExecuteSteps(b, id, fill);
    y := ReduceAt(b, p, fill);
    x := Accounted(y, Trade(id, 0, b.base + p.level, fill), b.live);
  }

  /** Executing a and then c leaves the book that executing a + c leaves, with the same quantity reported. */
  lemma ExecuteComposes(b: Book, id: uint64, a: uint32, c: uint32)
    requires UniqueIds(b) && |b.bids| == |b.asks| <= NULL_IDX && a + c < TWO_32
    ensures var (b1, gone) := Execute(b, id, a);
            && |b1.bids| == |b1.asks| == |b.bids|
            && Unlogged(Execute(b1, id, c).0) == Unlogged(Execute(b, id, a + c).0)
            && Traded(Execute(b1, id, c).0.log) == Traded(Execute(b, id, a + c).0.log)
            && (gone || Execute(b1, id, c).1) == Execute(b, id, a + c).1
  {
    hide Execute, RemoveAt, Locate, UniqueIds, Unlogged, Traded;
    var p := Locate(b, id);
    LocateSound(b, id);
    if p.Nowhere? {
      ExecuteNowhere(b, id, a);
      ExecuteNowhere(b, id, c);
      ExecuteNowhere(b, id, a + c);
    } else if a >= OrderAt(b, p).qty {
      var y, x := ExecuteAll(b, id, p, a);
      var y', x' := ExecuteAll(b, id, p, a + c);
      RemovedIsAbsent(b, p);
      LocateUnlogged(y, Trade(id, 0, b.base + p.level, OrderAt(b, p).qty), SatSub(b.live, 1), id);
      ExecuteNowhere(x, id, c);
    } else if a + c >= OrderAt(b, p).qty {
      var b1, x1, x2 := ExecuteRest(b, id, p, a, c);
    } else {
      var b1, x1, x2 := ExecuteMore(b, id, p, a, c);
    }
  }
}
