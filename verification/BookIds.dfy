/** Which order ids a book holds, and how to find one. */
module BookIds {
  import opened Types
  import opened BookSpec

  /** Ids are unique among the resting orders. */
  ghost predicate UniqueIds(b: Book) {
    forall p: Place, p': Place ::
      p.At? && p'.At? && ValidPlace(b, p) && ValidPlace(b, p') && OrderAt(b, p).id == OrderAt(b, p').id ==> p == p'
  }

  // ---- locating an id in a book ----

  lemma {:induction false} IndexOfFinds(q: Queue, id: uint64, k: nat)
    requires k < |q| && q[k].id == id
    ensures IndexOf(q, id) <= k
  {
    if q[0].id != id {
      IndexOfFinds(q[1..], id, k - 1);
    }
  }

  lemma {:induction false} LevelOfFinds(ls: Levels, id: uint64, l: nat, m: nat, k: nat)
    requires l <= m < |ls| && k < |ls[m]| && ls[m][k].id == id
    ensures LevelOf(ls, id, l) <= m
    decreases |ls| - l
  {
    IndexOfFinds(ls[m], id, k);
    if l < m && IndexOf(ls[l], id) == |ls[l]| {
      LevelOfFinds(ls, id, l + 1, m, k);
    }
  }

  /** Locate finds an order with the id whenever there is one. */
  lemma LocateFinds(b: Book, p: Place)
    requires p.At? && ValidPlace(b, p)
    ensures var f := Locate(b, OrderAt(b, p).id);
            f.At? && ValidPlace(b, f) && OrderAt(b, f).id == OrderAt(b, p).id
  {
    LevelOfFinds(b.Lv(p.side), OrderAt(b, p).id, 0, p.level, p.pos);
  }

  lemma LocateSound(b: Book, id: uint64)
    ensures var f := Locate(b, id);
            f.At? ==> ValidPlace(b, f) && OrderAt(b, f).id == id && f.pos == IndexOf(b.Lv(f.side)[f.level], id)
  {
  }

  lemma LocateUnique(b: Book, p: Place)
    requires UniqueIds(b) && p.At? && ValidPlace(b, p)
    ensures Locate(b, OrderAt(b, p).id) == p
  {
    LocateFinds(b, p);
  }

  // ---- ids the book does not hold ----

  ghost predicate AbsentQueue(q: Queue, id: uint64) {
    forall k :: 0 <= k < |q| ==> q[k].id != id
  }

  ghost predicate AbsentLevels(ls: Levels, id: uint64) {
    forall l :: 0 <= l < |ls| ==> AbsentQueue(ls[l], id)
  }

  /** No resting order has this id. */
  ghost predicate Absent(b: Book, id: uint64) {
    AbsentLevels(b.bids, id) && AbsentLevels(b.asks, id)
  }

  lemma AbsentIsNowhere(b: Book, id: uint64)
    ensures Absent(b, id) <==> Locate(b, id) == Nowhere
  {
    LocateSound(b, id);
    if Locate(b, id).At? {
      var p := Locate(b, id);
      assert OrderAt(b, p).id == id && !AbsentQueue(b.Lv(p.side)[p.level], id);
    } else {
      forall side: Side, l, k | 0 <= l < |b.Lv(side)| && 0 <= k < |b.Lv(side)[l]|
        ensures b.Lv(side)[l][k].id != id
      {
        var p := At(side, l, k);
        if OrderAt(b, p).id == id {
          LocateFinds(b, p);
        }
      }
      assert AbsentLevels(b.Lv(Buy), id) && AbsentLevels(b.Lv(Sell), id);
    }
  }

  lemma AbsentUpdate(b: Book, side: Side, l: nat, q: Queue, id: uint64)
    requires Absent(b, id) && l < |b.Lv(side)| && AbsentQueue(q, id)
    ensures Absent(b.WithQueue(side, l, q), id)
  {
  }

  lemma AbsentFill(b: Book, side: Side, taker: uint64, rem: uint32, id: uint64)
    requires Absent(b, id) && b.Best(side) < |b.Lv(side)| <= NULL_IDX && b.Lv(side)[b.Best(side)] != []
    ensures Absent(FillStep(b, side, taker, rem), id)
  {
    var l := b.Best(side);
    var q := b.Lv(side)[l];
    assert AbsentQueue(q, id);
    AbsentUpdate(b, side, l, Consume(q, FillQty(b, side, rem)), id);
  }

  /** Matching brings no id into the book. */
  lemma {:induction false} AbsentSweep(b: Book, side: Side, taker: uint64, limit: nat, rem: uint32, id: uint64)
    requires Absent(b, id) && |b.Lv(side)| <= NULL_IDX
    ensures Absent(Sweep(b, side, taker, limit, rem).0, id)
    decreases Count(b.Lv(side)), rem
  {
    if rem > 0 && Marketable(b, side, limit) {
      AbsentFill(b, side, taker, rem, id);
      FillStepShrinks(b, side, taker, rem);
      AbsentSweep(FillStep(b, side, taker, rem), side, taker, limit, rem - FillQty(b, side, rem), id);
    }
  }

  /** Nor does sliding the window. */
  lemma AbsentWindowed(b: Book, price: uint32, id: uint64)
    requires Absent(b, id) && |b.bids| <= NULL_IDX && |b.asks| <= NULL_IDX
    ensures Absent(Windowed(b, price), id)
  {
    var b1 := Anchored(b, price);
    var newBase := CentredBase(|b1.bids|, price);
    assert AbsentLevels(Moved(b1.bids, b1.base, newBase), id);
    assert AbsentLevels(Moved(b1.asks, b1.base, newBase), id);
  }

  /** An insertion brings in no id but its own. */
  lemma AbsentInsert(b: Book, id: uint64, side: Side, price: uint32, qty: uint32, other: uint64)
    requires Absent(b, other) && |b.bids| == |b.asks| <= NULL_IDX && other != id
    ensures Absent(Insert(b, id, side, price, qty).0, other)
  {
    var w := Windowed(b, price);
    WindowedSize(b, price);
    AbsentWindowed(b, price, other);
    if InBand(w, price) {
      var l := price - w.base;
      AbsentSweep(w, side.Opposite(), id, l, qty, other);
      var (b1, rem) := Sweep(w, side.Opposite(), id, l, qty);
      if rem > 0 && b1.free > 0 {
        assert AbsentQueue(b1.Lv(side)[l], other);
        AbsentUpdate(b1, side, l, b1.Lv(side)[l] + [Resting(id, rem)], other);
      }
    }
  }

  lemma RestIsPresent(b: Book, side: Side, l: nat, id: uint64, qty: uint32)
    requires l < |b.Lv(side)| <= NULL_IDX && b.free > 0
    ensures !Absent(Rest(b, side, l, id, qty), id)
  {
    var b' := Rest(b, side, l, id, qty);
    var q := b'.Lv(side)[l];
    assert q[|q| - 1].id == id;
    assert !AbsentQueue(b'.Lv(side)[l], id);
  }

  /** The flag of an insertion tells whether its id is in the book afterwards. */
  lemma InsertedIsPresent(b: Book, id: uint64, side: Side, price: uint32, qty: uint32)
    requires Absent(b, id) && |b.bids| == |b.asks| <= NULL_IDX
    ensures var (b', rests) := Insert(b, id, side, price, qty); rests <==> !Absent(b', id)
  {
    hide Insert, InsertAt, Windowed, Sweep, Rest, AbsentLevels;
    var w := Windowed(b, price);
    InsertIs(b, id, side, price, qty);
    AbsentWindowed(b, price, id);
    if InBand(w, price) {
      var l := price - w.base;
      AbsentSweep(w, side.Opposite(), id, l, qty, id);
      var (b1, rem) := Sweep(w, side.Opposite(), id, l, qty);
      InsertAtIs(w, id, side, l, qty, b1, rem);
      if rem > 0 && b1.free > 0 {
        RestIsPresent(b1, side, l, id, rem);
      }
    }
  }
}
