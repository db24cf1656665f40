/** Ids stay unique: every order of the book after a step stood somewhere in the book before it, or is the new one. */
module Uniques {
  import opened Types
  import opened BookSpec
  import opened BookIds
  import opened Ledgers
  import opened BookRuns
  import PartialFills

  /** Every order of b' stood in b, at a place of its own. */
  ghost predicate ComesFrom(b: Book, b': Book, was: Place -> Place) {
    && (forall p: Place :: p.At? && ValidPlace(b', p) ==> StoodAt(b, b', p, was(p)))
    && (forall p: Place, o: Place :: 
          p.At? && o.At? && ValidPlace(b', p) && ValidPlace(b', o) && was(p) == was(o) ==> p == o)
  }

  ghost predicate StoodAt(b: Book, b': Book, p: Place, o: Place)
    requires p.At? && ValidPlace(b', p)
  {
    o.At? && ValidPlace(b, o) && OrderAt(b', p).id == OrderAt(b, o).id
  }

  lemma KeepsIds(b: Book, b': Book, was: Place -> Place, id: uint64)
    requires ComesFrom(b, b', was)
    ensures UniqueIds(b) ==> UniqueIds(b')
    ensures Absent(b, id) ==> Absent(b', id)
  {
    if UniqueIds(b) {
      forall p: Place, o: Place | p.At? && o.At? && ValidPlace(b', p) && ValidPlace(b', o)
          && OrderAt(b', p).id == OrderAt(b', o).id
        ensures p == o
      {
        assert StoodAt(b, b', p, was(p)) && StoodAt(b, b', o, was(o));
      }
    }
    if Absent(b, id) {
      forall p: Place | p.At? && ValidPlace(b', p)
        ensures OrderAt(b', p).id != id
      {
        assert StoodAt(b, b', p, was(p));
        assert AbsentQueue(b.Lv(was(p).side)[was(p).level], id);
      }
      AbsentFromPlaces(b', id);
    }
  }

  lemma AbsentFromPlaces(b: Book, id: uint64)
    requires forall p: Place :: p.At? && ValidPlace(b, p) ==> OrderAt(b, p).id != id
    ensures Absent(b, id)
  {
    LocateSound(b, id);
    AbsentIsNowhere(b, id);
  }

  /** One level's queue replaced by a part of it that starts `skip` orders further on from position `from`. */
  ghost predicate Spliced(b: Book, b': Book, side: Side, l: nat, from: nat, skip: nat) {
    && l < |b.Lv(side)| && |b'.Lv(side)| == |b.Lv(side)| && b'.Lv(side.Opposite()) == b.Lv(side.Opposite())
    && (forall j :: 0 <= j < |b.Lv(side)| && j != l ==> b'.Lv(side)[j] == b.Lv(side)[j])
    && (forall k :: 0 <= k < |b'.Lv(side)[l]| ==> SplicedAt(b.Lv(side)[l], b'.Lv(side)[l], from, skip, k))
  }

  ghost predicate SplicedAt(q: Queue, q': Queue, from: nat, skip: nat, k: nat)
    requires k < |q'|
  {
    var i := if k >= from then k + skip else k;
    i < |q| && q'[k].id == q[i].id
  }

  function OldPlace(side: Side, l: nat, from: nat, skip: nat, p: Place): Place {
    if p.At? && p.side == side && p.level == l && p.pos >= from then At(side, l, p.pos + skip) else p
  }

  lemma SplicedKeepsIds(b: Book, b': Book, side: Side, l: nat, from: nat, skip: nat, id: uint64)
    requires Spliced(b, b', side, l, from, skip)
    ensures UniqueIds(b) ==> UniqueIds(b')
    ensures Absent(b, id) ==> Absent(b', id)
  {
    var was := (p: Place) => OldPlace(side, l, from, skip, p);
    forall p: Place | p.At? && ValidPlace(b', p)
      ensures StoodAt(b, b', p, was(p))
    {
      assert p.side == side || p.side == side.Opposite();
      assert p.side == side && p.level == l ==> SplicedAt(b.Lv(side)[l], b'.Lv(side)[l], from, skip, p.pos);
    }
    KeepsIds(b, b', was, id);
  }

  lemma FillSpliced(b: Book, side: Side, taker: uint64, rem: uint32)
    requires b.Best(side) < |b.Lv(side)| <= NULL_IDX && b.Lv(side)[b.Best(side)] != []
    ensures Spliced(b, FillStep(b, side, taker, rem), side, b.Best(side), 0,
                    if FillQty(b, side, rem) == b.Lv(side)[b.Best(side)][0].qty then 1 else 0)
  {
  }

  lemma {:induction false} SweepKeepsUnique(b: Book, side: Side, taker: uint64, limit: nat, rem: uint32)
    requires |b.Lv(side)| <= NULL_IDX && UniqueIds(b)
    ensures UniqueIds(Sweep(b, side, taker, limit, rem).0)
    decreases Count(b.Lv(side)), rem
  {
    hide FillStep, UniqueIds, AbsentLevels, Spliced;
    if rem > 0 && Marketable(b, side, limit) {
      var f := FillStep(b, side, taker, rem);
      FillSpliced(b, side, taker, rem);
      SplicedKeepsIds(b, f, side, b.Best(side), 0,
                      if FillQty(b, side, rem) == b.Lv(side)[b.Best(side)][0].qty then 1 else 0, 0);
      FillStepShrinks(b, side, taker, rem);
      SweepKeepsUnique(f, side, taker, limit, rem - FillQty(b, side, rem));
    }
  }

  lemma RemoveSpliced(b: Book, p: Place)
    requires p.At? && ValidPlace(b, p) && |b.Lv(p.side)| <= NULL_IDX
    ensures Spliced(b, RemoveAt(b, p), p.side, p.level, p.pos, 1)
  {
  }

  lemma ReduceSpliced(b: Book, p: Place, m: nat)
    requires p.At? && ValidPlace(b, p) && |b.Lv(p.side)| <= NULL_IDX && m <= OrderAt(b, p).qty
    ensures Spliced(b, ReduceAt(b, p, m), p.side, p.level, 0, 0)
  {
  }

  lemma AccountedKeepsIds(b: Book, t: Trade, live: uint32, id: uint64)
    ensures UniqueIds(b) ==> UniqueIds(Accounted(b, t, live))
    ensures Absent(b, id) ==> Absent(Accounted(b, t, live), id)
  {
    KeepsIds(b, Accounted(b, t, live), (p: Place) => p, id);
  }

  lemma RemoveKeepsIds(b: Book, p: Place, id: uint64)
    requires p.At? && ValidPlace(b, p) && |b.Lv(p.side)| <= NULL_IDX
    ensures UniqueIds(b) ==> UniqueIds(RemoveAt(b, p))
    ensures Absent(b, id) ==> Absent(RemoveAt(b, p), id)
  {
    hide RemoveAt;
    RemoveSpliced(b, p);
    SplicedKeepsIds(b, RemoveAt(b, p), p.side, p.level, p.pos, 1, id);
  }

  lemma ReduceKeepsIds(b: Book, p: Place, m: nat, id: uint64)
    requires p.At? && ValidPlace(b, p) && |b.Lv(p.side)| <= NULL_IDX && m <= OrderAt(b, p).qty
    ensures UniqueIds(b) ==> UniqueIds(ReduceAt(b, p, m))
    ensures Absent(b, id) ==> Absent(ReduceAt(b, p, m), id)
  {
    hide ReduceAt;
    ReduceSpliced(b, p, m);
    SplicedKeepsIds(b, ReduceAt(b, p, m), p.side, p.level, 0, 0, id);
  }

  // ---- sliding ----

  lemma SlideKeepsUnique(b: Book, newBase: uint32, b': Book)
    requires b'.bids == Moved(b.bids, b.base, newBase) && b'.asks == Moved(b.asks, b.base, newBase) && UniqueIds(b)
    ensures UniqueIds(b')
  {
    var d: int := newBase - b.base;
    var was := (p: Place) => if p.At? && p.level + d >= 0 then At(p.side, p.level + d, p.pos) else Nowhere;
    forall p: Place | p.At? && ValidPlace(b', p)
      ensures StoodAt(b, b', p, was(p))
    {
    }
    KeepsIds(b, b', was, 0);
  }

  lemma SameLevelsKeepUnique(b: Book, b': Book)
    requires b'.bids == b.bids && b'.asks == b.asks && UniqueIds(b)
    ensures UniqueIds(b')
  {
    KeepsIds(b, b', (p: Place) => p, 0);
  }

  lemma WindowedLevels(b: Book, price: uint32) returns (w: Book, b1: Book, newBase: uint32)
    requires Shape(b)
    ensures w == Windowed(b, price) && b1.bids == b.bids && b1.asks == b.asks
    ensures (w.bids == b1.bids && w.asks == b1.asks)
         || (w.bids == Moved(b1.bids, b1.base, newBase) && w.asks == Moved(b1.asks, b1.base, newBase))
  {
    w, b1, newBase := Windowed(b, price), Anchored(b, price), CentredBase(|b.bids|, price);
  }

  lemma WindowedKeepsUnique(b: Book, price: uint32)
    requires Shape(b) && UniqueIds(b)
    ensures UniqueIds(Windowed(b, price))
  {
    hide Windowed, UniqueIds, Moved;
    var w, b1, newBase := WindowedLevels(b, price);
    SameLevelsKeepUnique(b, b1);
    if w.bids == b1.bids && w.asks == b1.asks {
      SameLevelsKeepUnique(b1, w);
    } else {
      SlideKeepsUnique(b1, newBase, w);
    }
  }

  // ---- the public operations ----

  lemma RestKeepsUnique(b: Book, side: Side, l: nat, id: uint64, qty: uint32)
    requires UniqueIds(b) && Absent(b, id) && l < |b.Lv(side)| <= NULL_IDX && b.free > 0
    ensures UniqueIds(Rest(b, side, l, id, qty))
  {
    var b' := Rest(b, side, l, id, qty);
    var last := At(side, l, |b.Lv(side)[l]|);
    RestLevels(b, side, l, id, qty);
    forall p: Place | p.At? && ValidPlace(b', p)
      ensures if p == last then OrderAt(b', p).id == id
              else ValidPlace(b, p) && OrderAt(b', p) == OrderAt(b, p) && OrderAt(b', p).id != id
    {
      if p != last {
        assert AbsentQueue(b.Lv(p.side)[p.level], id);
      }
    }
  }

  lemma InsertKeepsUnique(b: Book, id: uint64, side: Side, price: uint32, qty: uint32)
    requires Shape(b) && UniqueIds(b) && Absent(b, id)
    ensures UniqueIds(Insert(b, id, side, price, qty).0)
  {
    hide Insert, InsertAt, Windowed, Sweep, Rest, UniqueIds, AbsentLevels;
    InsertIs(b, id, side, price, qty);
    WindowedKeepsUnique(b, price);
    AbsentWindowed(b, price, id);
    var w := Windowed(b, price);
    if InBand(w, price) {
      var l := price - w.base;
      SweepKeepsUnique(w, side.Opposite(), id, l, qty);
      AbsentSweep(w, side.Opposite(), id, l, qty, id);
      var (b1, rem) := Sweep(w, side.Opposite(), id, l, qty);
      InsertAtIs(w, id, side, l, qty, b1, rem);
      if rem > 0 && b1.free > 0 {
        RestKeepsUnique(b1, side, l, id, rem);
      }
    }
  }

  /** A cancelled id is gone, every other absence stays. */
  lemma CancelKeepsIds(b: Book, id: uint64, other: uint64)
    requires Shape(b) && UniqueIds(b)
    ensures UniqueIds(Cancel(b, id)) && Absent(Cancel(b, id), id)
    ensures Absent(b, other) ==> Absent(Cancel(b, id), other)
  {
    hide RemoveAt, Locate, UniqueIds, AbsentLevels;
    var p := Locate(b, id);
    LocateSound(b, id);
    AbsentIsNowhere(b, id);
    if p.At? {
      RemoveKeepsIds(b, p, other);
      PartialFills.RemovedIsAbsent(b, p);
      AbsentIsNowhere(RemoveAt(b, p), id);
    }
  }

  /** An executed id is gone exactly when the flag says so or it was not there. */
  lemma ExecuteKeepsIds(b: Book, id: uint64, fill: uint32, other: uint64)
    requires Shape(b) && UniqueIds(b)
    ensures UniqueIds(Execute(b, id, fill).0)
    ensures Execute(b, id, fill).1 ==> Absent(Execute(b, id, fill).0, id)
    ensures Absent(b, other) ==> Absent(Execute(b, id, fill).0, other)
  {
    hide Execute, RemoveAt, ReduceAt, Locate, UniqueIds, AbsentLevels, Accounted;
    var p := Locate(b, id);
    LocateSound(b, id);
    if p.Nowhere? {
      ExecuteNowhere(b, id, fill);
    } else {
      ExecuteSteps(b, id, fill);
      var t := Trade(id, 0, b.base + p.level, if fill >= OrderAt(b, p).qty then OrderAt(b, p).qty else fill);
      if fill >= OrderAt(b, p).qty {
        var y := RemoveAt(b, p);
        RemoveKeepsIds(b, p, other);
        PartialFills.RemovedIsAbsent(b, p);
        AbsentIsNowhere(y, id);
        AccountedKeepsIds(y, t, SatSub(b.live, 1), other);
        AccountedKeepsIds(y, t, SatSub(b.live, 1), id);
      } else {
        ReduceKeepsIds(b, p, fill, other);
        AccountedKeepsIds(ReduceAt(b, p, fill), t, b.live, other);
      }
    }
  }

  lemma ReduceQtyKeepsIds(b: Book, id: uint64, amount: uint32, other: uint64)
    requires Shape(b) && UniqueIds(b)
    ensures UniqueIds(Reduce(b, id, amount).0)
    ensures Reduce(b, id, amount).1 ==> Absent(Reduce(b, id, amount).0, id)
    ensures Absent(b, other) ==> Absent(Reduce(b, id, amount).0, other)
  {
    hide Cancel, ReduceAt, Locate, UniqueIds, AbsentLevels;
    var p := Locate(b, id);
    LocateSound(b, id);
    if p.At? {
      if amount >= OrderAt(b, p).qty {
        CancelKeepsIds(b, id, other);
      } else {
        ReduceKeepsIds(b, p, amount, other);
      }
    }
  }

  lemma StepKeepsUnique(b: Book, op: Op)
    requires Shape(b) && UniqueIds(b) && (op.Limit? ==> Absent(b, op.id))
    ensures UniqueIds(Step(b, op))
  {
    hide Insert, Cancel, Execute, Reduce, Sweep, UniqueIds, AbsentLevels;
    match op
    case Limit(id, side, price, qty) => InsertKeepsUnique(b, id, side, price, qty);
    case MarketOrder(side, qty) =>
      SweepKeepsUnique(b, side.Opposite(), 0, if side.Buy? then |b.asks| - 1 else 0, qty);
    case CancelId(id) => CancelKeepsIds(b, id, 0);
    case ExecuteId(id, fill) => ExecuteKeepsIds(b, id, fill, 0);
    case ReduceId(id, amount) => ReduceQtyKeepsIds(b, id, amount, 0);
  }

  /** In every run with fresh ids no id ever rests twice. */
  lemma {:induction false} RunKeepsUnique(b: Book, ops: seq<Op>)
    requires Shape(b) && UniqueIds(b) && FreshIds(b, ops)
    ensures UniqueIds(Run(b, ops))
    decreases |ops|
  {
    hide Step, UniqueIds, Absent;
    if ops != [] {
      StepKeepsUnique(b, ops[0]);
      RunKeepsUnique(Step(b, ops[0]), ops[1..]);
    }
  }
}
