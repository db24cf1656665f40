/** The engine: a fold of input records over one book. */
module Engines {
  import opened Types
  import opened BookSpec
  import opened BookIds
  import opened BookRuns
  import opened Ledgers
  import opened OrderBooks

  /** `kind` is the record's type byte, `side` its side byte. */
  datatype Record = Record(kind: char, id: uint64, side: nat, price: uint32, qty: uint32)

  function SideOf(rec: Record): Side {
    if rec.side == 0 then Buy else Sell
  }

  predicate Known(rec: Record) {
    rec.kind in {'L', 'M', 'C'}
  }

  function OpOf(rec: Record): Op
    requires Known(rec)
  {
    match rec.kind
    case 'L' => Limit(rec.id, SideOf(rec), rec.price, rec.qty)
    case 'M' => MarketOrder(SideOf(rec), rec.qty)
    case _ => CancelId(rec.id)
  }

  /** The operations a file of records stands for: unknown types are skipped. */
  function OpsOf(records: seq<Record>): seq<Op> {
    if records == [] then []
    else if Known(records[0]) then [OpOf(records[0])] + OpsOf(records[1..])
    else OpsOf(records[1..])
  }

  lemma OpsOfNext(records: seq<Record>, i: nat)
    requires i < |records|
    ensures OpsOf(records[i..])
         == if Known(records[i]) then [OpOf(records[i])] + OpsOf(records[i + 1..]) else OpsOf(records[i + 1..])
  {
    assert records[i..][0] == records[i] && records[i..][1..] == records[i + 1..];
  }

  /** The rest of a run after its first operation. */
  lemma RunNext(b: Book, op: Op, ops: seq<Op>)
    requires Shape(b)
    ensures Run(b, [op] + ops) == Run(Step(b, op), ops)
    ensures FreshIds(b, [op] + ops) <==> FreshIds(Step(b, op), ops) && (op.Limit? ==> Absent(b, op.id))
  {
    assert ([op] + ops)[0] == op && ([op] + ops)[1..] == ops;
  }

  /** What one record makes of the book: limit orders, market orders and cancellations; side byte 0 is a buy. */
  lemma RecordMeans(b: Book, rec: Record, rest: seq<Record>)
    requires Shape(b)
    ensures var side := if rec.side == 0 then Buy else Sell;
            var b' := if rec.kind == 'L' then Insert(b, rec.id, side, rec.price, rec.qty).0
                      else if rec.kind == 'M' then Market(b, side, rec.qty)
                      else if rec.kind == 'C' then Cancel(b, rec.id)
                      else b;
            && Shape(b')
            && Run(b, OpsOf([rec] + rest)) == Run(b', OpsOf(rest))
            && |OpsOf([rec] + rest)| == |OpsOf(rest)| + (if rec.kind in {'L', 'M', 'C'} then 1 else 0)
            && (FreshIds(b, OpsOf([rec] + rest))
                <==> (rec.kind == 'L' ==> Absent(b, rec.id)) && FreshIds(b', OpsOf(rest)))
  {
    hide Insert, Market, Cancel, Absent;
    var all := [rec] + rest;
    assert all[0] == rec && all[1..] == rest;
    if Known(rec) {
      RunNext(b, OpOf(rec), OpsOf(rest));
    }
  }

  /** A file without records leaves the book alone. */
  lemma NoRecords(b: Book)
    requires Shape(b)
    ensures OpsOf([]) == [] && Run(b, OpsOf([])) == b && FreshIds(b, OpsOf([]))
  {
  }

  class Engine {
    const book: OrderBook

    constructor (book: OrderBook)
      ensures this.book == book
    {
      this.book := book;
    }

    /** One record of a known type. */
    method Dispatch(rec: Record)
      requires Known(rec) && book.Valid() && (rec.kind == 'L' ==> Absent(book.View(), rec.id))
      modifies book, book.pool, book.pool.slots, book.idMap
      ensures book.Valid() && Shape(old(book.View())) && book.View() == Step(old(book.View()), OpOf(rec))
      ensures var side := if rec.side == 0 then Buy else Sell;
              && (rec.kind == 'L' ==> book.View() == Insert(old(book.View()), rec.id, side, rec.price, rec.qty).0)
              && (rec.kind == 'M' ==> book.View() == Market(old(book.View()), side, rec.qty))
              && (rec.kind == 'C' ==> book.View() == Cancel(old(book.View()), rec.id))
    {
      var side := if rec.side == 0 then Buy else Sell;
      match rec.kind {
        case 'L' =>
          var rests := book.InsertLimitOrder(rec.id, side, rec.price, rec.qty);
        case 'M' =>
          book.ProcessMarketOrder(side, rec.qty);
        case _ =>
          book.CancelOrder(rec.id);
      }
    }

    /** Process all records in order; the result counts those of a known type. */
    method RunRecords(records: seq<Record>) returns (processed: nat)
      requires book.Valid() && Shape(book.View()) && FreshIds(book.View(), OpsOf(records))
      modifies book, book.pool, book.pool.slots, book.idMap
      ensures book.Valid() && book.View() == Run(old(book.View()), OpsOf(records))
      ensures processed == |OpsOf(records)|
    {
      processed := 0;
      ghost var goal := Run(book.View(), OpsOf(records));
      assert records[0..] == records;
      for i := 0 to |records|
        invariant book.Valid() && Shape(book.View()) && FreshIds(book.View(), OpsOf(records[i..]))
        invariant Run(book.View(), OpsOf(records[i..])) == goal
        invariant processed + |OpsOf(records[i..])| == |OpsOf(records)|
      {
        OpsOfNext(records, i);
        if Known(records[i]) {
          RunNext(book.View(), OpOf(records[i]), OpsOf(records[i + 1..]));
          Dispatch(records[i]);
          processed := processed + 1;
        }
      }
    }
  }
}
