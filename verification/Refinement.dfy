/** The fast book refines the textbook book: same resting orders, same order of service, same answers. */
module Refinement {
  import opened Types
  import opened BookSpec
  import opened BookIds
  import opened BookWf
  import opened Quotes
  import opened Forecasts
  import opened BookRuns
  import Ledgers
  import S = StlBooks

  // ---- the abstraction ----

  /** A side of the fast book as an ordered map: the occupied levels by absolute price. */
  function AbsLevels(ls: Levels, base: nat): S.PriceMap {
    map p: nat | p < base + |ls| && Occupies(ls, base, p) :: ls[p - base]
  }

  predicate Occupies(ls: Levels, base: nat, p: nat) {
    base <= p < base + |ls| && ls[p - base] != []
  }

  function AbsSide(b: Book, side: Side): S.PriceMap {
    AbsLevels(b.Lv(side), b.base)
  }

  /** The index knows exactly the resting ids, and the price each rests at. */
  ghost predicate IndexAgrees(b: Book, index: map<uint64, S.IndexEntry>) {
    && (forall p: Place :: p.At? && ValidPlace(b, p) ==> PlaceIndexed(b, index, p))
    && (forall id :: id in index ==> !Absent(b, id))
  }

  ghost predicate PlaceIndexed(b: Book, index: map<uint64, S.IndexEntry>, p: Place)
    requires p.At? && ValidPlace(b, p)
  {
    var id := OrderAt(b, p).id;
    id in index && index[id] == S.IndexEntry(p.side, b.base + p.level)
  }

  /** s is the textbook book that b stands for. */
  ghost predicate Refines(b: Book, s: S.Stl) {
    && s.bids == AbsSide(b, Buy) && s.asks == AbsSide(b, Sell)
    && IndexAgrees(b, s.index)
    && UniqueIds(b)
  }

  lemma AbsOccupied(b: Book, side: Side)
    requires WfSide(b, side)
    ensures S.Occupied(AbsSide(b, side))
  {
    forall p | p in AbsSide(b, side)
      ensures S.OccupiedList(AbsSide(b, side)[p])
    {
      assert WfQueue(b.base, p - b.base, b.Lv(side)[p - b.base]);
    }
  }

  lemma AbsUpdate(ls: Levels, base: nat, l: nat, q: Queue)
    requires l < |ls|
    ensures AbsLevels(ls[l := q], base) == S.SetLevel(AbsLevels(ls, base), base + l, q)
  {
  }

  /** The cached best is the end of the ordered map. */
  lemma BestIsTop(b: Book, side: Side)
    requires Exact(b, side) && |b.Lv(side)| <= NULL_IDX
    ensures b.Best(side) == NULL_IDX <==> AbsSide(b, side) == map[]
    ensures b.Best(side) != NULL_IDX ==> S.Top(AbsSide(b, side), side) == b.base + b.Best(side)
  {
    var m := AbsSide(b, side);
    if b.Best(side) == NULL_IDX {
      forall j: nat | j < |b.Lv(side)|
        ensures b.Lv(side)[j] == []
      {
        assert b.Lv(side)[j] != [] ==> NotBetter(side, b.Best(side), j);
      }
      assert m == map[];
    } else {
      var t := b.base + b.Best(side);
      assert t in m;
      forall k | k in m
        ensures if side.Buy? then k <= t else t <= k
      {
        assert NotBetter(side, b.Best(side), k - b.base);
      }
      S.TopIs(m, side, t);
    }
  }

  // ---- one fill ----

  lemma ConsumeIds(b: Book, side: Side, m: nat, b': Book)
    requires var l := b.Best(side); l < |b.Lv(side)| && b.Lv(side)[l] != [] && m <= b.Lv(side)[l][0].qty
    requires b'.Lv(side) == b.Lv(side)[b.Best(side) := Consume(b.Lv(side)[b.Best(side)], m)]
    requires b'.Lv(side.Opposite()) == b.Lv(side.Opposite())
    ensures forall p: Place :: p.At? && ValidPlace(b', p) ==>
              ValidPlace(b, Before(b, side, m, p)) && OrderAt(b', p).id == OrderAt(b, Before(b, side, m, p)).id
  {
  }

  /** Where an order stood before the head of the best level gave m units. */
  function Before(b: Book, side: Side, m: nat, p: Place): Place
    requires p.At? && b.Best(side) < |b.Lv(side)| && b.Lv(side)[b.Best(side)] != []
  {
    var l := b.Best(side);
    if p.side == side && p.level == l && m == b.Lv(side)[l][0].qty then At(p.side, p.level, p.pos + 1) else p
  }

  /** Removing ids that are at no place any more, and none else, keeps the index in agreement. */
  lemma FillAgrees(b: Book, side: Side, m: nat, b': Book, index: map<uint64, S.IndexEntry>)
    requires UniqueIds(b) && IndexAgrees(b, index) && b'.base == b.base
    requires var l := b.Best(side); l < |b.Lv(side)| && b.Lv(side)[l] != [] && m <= b.Lv(side)[l][0].qty
    requires b'.Lv(side) == b.Lv(side)[b.Best(side) := Consume(b.Lv(side)[b.Best(side)], m)]
    requires b'.Lv(side.Opposite()) == b.Lv(side.Opposite())
    ensures UniqueIds(b')
    ensures var head := b.Lv(side)[b.Best(side)][0];
            IndexAgrees(b', if m == head.qty then index - {head.id} else index)
  {
    var l := b.Best(side);
    var head := b.Lv(side)[l][0];
    var index' := if m == head.qty then index - {head.id} else index;
    ConsumeIds(b, side, m, b');
    forall p: Place, o: Place | p.At? && o.At? && ValidPlace(b', p) && ValidPlace(b', o)
        && OrderAt(b', p).id == OrderAt(b', o).id
      ensures p == o
    {
      assert Before(b, side, m, p) == Before(b, side, m, o);
    }
    forall p: Place | p.At? && ValidPlace(b', p)
      ensures PlaceIndexed(b', index', p)
    {
      var o := Before(b, side, m, p);
      assert PlaceIndexed(b, index, o);
      assert OrderAt(b, At(side, l, 0)) == head;
      assert m == head.qty ==> o != At(side, l, 0);
    }
    forall id | id in index'
      ensures !Absent(b', id)
    {
      StillThere(b, side, m, b', id);
    }
  }

  /** An id other than that of a used-up head stays in the book. */
  lemma StillThere(b: Book, side: Side, m: nat, b': Book, id: uint64)
    requires !Absent(b, id)
    requires var l := b.Best(side); l < |b.Lv(side)| && b.Lv(side)[l] != [] && m <= b.Lv(side)[l][0].qty
    requires b'.Lv(side) == b.Lv(side)[b.Best(side) := Consume(b.Lv(side)[b.Best(side)], m)]
    requires b'.Lv(side.Opposite()) == b.Lv(side.Opposite())
    requires m == b.Lv(side)[b.Best(side)][0].qty ==> id != b.Lv(side)[b.Best(side)][0].id
    ensures !Absent(b', id)
  {
    AbsentIsNowhere(b, id);
    var p := Locate(b, id);
    LocateSound(b, id);
    var l := b.Best(side);
    var k := if p.side == side && p.level == l && m == b.Lv(side)[l][0].qty then p.pos - 1 else p.pos;
    assert p.side == side && p.level == l && m == b.Lv(side)[l][0].qty ==> p.pos > 0;
    assert b'.Lv(p.side)[p.level][k].id == id;
    assert !AbsentQueue(b'.Lv(p.side)[p.level], id);
  }

  /** One fill of the fast book is one turn of the textbook loop. */
  lemma FillRefines(b: Book, s: S.Stl, side: Side, taker: uint64, rem: uint32)
    requires Sharp(b) && Refines(b, s) && b.Best(side) != NULL_IDX && rem > 0
    ensures b.Best(side) < |b.Lv(side)| && b.Lv(side)[b.Best(side)] != []
    ensures S.Occupied(s.Lv(side)) && s.Lv(side) != map[] && S.FrontFill(s.Lv(side), side, rem) == FillQty(b, side, rem)
    ensures Refines(FillStep(b, side, taker, rem), S.Take(s, side, FillQty(b, side, rem)))
  {
    hide FillStep, Exact, Uncrossed, WfSide, UniqueIds, IndexAgrees, Absent;
    BestOccupied(b, side);
    ExactOf(b, side);
    AbsOccupied(b, side);
    BestIsTop(b, side);
    var l, m := b.Best(side), FillQty(b, side, rem);
    var q, b' := b.Lv(side)[l], FillStep(b, side, taker, rem);
    FillStepFrame(b, side, taker, rem);
    FillStepParts(b, side, taker, rem);
    assert s.Lv(side)[b.base + l] == q;
    AbsUpdate(b.Lv(side), b.base, l, Consume(q, m));
    FillAgrees(b, side, m, b', s.index);
  }

  // ---- matching ----

  /** The two books agree on whether the best resting order may trade. */
  lemma CrossesIff(b: Book, s: S.Stl, side: Side, limited: bool, limit: nat)
    requires Sharp(b) && Refines(b, s)
    requires !limited ==> forall j: nat :: j < |b.Lv(side)| ==> WithinLimit(side, j, limit)
    ensures S.Crosses(s.Lv(side), side, limited, b.base + limit) <==> Marketable(b, side, limit)
  {
    ExactOf(b, side);
    BestIsTop(b, side);
  }

  lemma {:induction false} SweepRefines(b: Book, s: S.Stl, side: Side, taker: uint64, limited: bool, limit: nat,
                                abs: nat, rem: uint32)
    returns (b': Book, s': S.Stl, left: uint32)
    requires Sharp(b) && Refines(b, s) && abs == b.base + limit
    requires !limited ==> forall j: nat :: j < |b.Lv(side)| ==> WithinLimit(side, j, limit)
    ensures S.Occupied(s.Lv(side))
    ensures Sweep(b, side, taker, limit, rem) == (b', left) && S.Match(s, side, limited, abs, rem) == (s', left)
    ensures Refines(b', s')
    decreases Count(b.Lv(side)), rem
  {
    hide Sweep, S.Match, IndexAgrees, UniqueIds, Exact, Uncrossed, WfSide, S.OccupiedList;
    ExactOf(b, side);
    AbsOccupied(b, side);
    CrossesIff(b, s, side, limited, limit);
    if rem > 0 && Marketable(b, side, limit) {
      var f, t, rest := FillTurn(b, s, side, taker, rem, limit);
      FillTurnRuns(b, s, side, taker, rem, limited, limit, abs, f, t, rest);
      b', s', left := SweepRefines(f, t, side, taker, limited, limit, abs, rest);
    } else {
      b', s', left := b, s, rem;
      SweepStops(b, side, taker, limit, rem);
      S.MatchStops(s, side, limited, abs, rem);
    }
  }

  /** One turn of both loops. */
  lemma FillTurn(b: Book, s: S.Stl, side: Side, taker: uint64, rem: uint32, limit: nat)
    returns (f: Book, t: S.Stl, rest: uint32)
    requires Sharp(b) && Refines(b, s) && rem > 0 && Marketable(b, side, limit)
    ensures S.Occupied(s.Lv(side)) && s.Lv(side) != map[]
    ensures f == FillStep(b, side, taker, rem) && rest == rem - FillQty(b, side, rem)
    ensures FillQty(b, side, rem) == S.FrontFill(s.Lv(side), side, rem) && t == S.Take(s, side, FillQty(b, side, rem))
    ensures rest < rem && Count(f.Lv(side)) <= Count(b.Lv(side)) && f.base == b.base && |f.Lv(side)| == |b.Lv(side)|
    ensures Sharp(f) && Refines(f, t)
  {
    hide FillStep, Refines, Exact, Uncrossed, S.Take, S.FrontFill;
    FillRefines(b, s, side, taker, rem);
    FillStepSharp(b, side, taker, rem);
    FillStepFrame(b, side, taker, rem);
    FillStepShrinks(b, side, taker, rem);
    f, t := FillStep(b, side, taker, rem), S.Take(s, side, FillQty(b, side, rem));
    rest := rem - FillQty(b, side, rem);
  }

  /** A turn leads from one run of the loops to the rest of it. */
  lemma FillTurnRuns(b: Book, s: S.Stl, side: Side, taker: uint64, rem: uint32, limited: bool, limit: nat, abs: nat,
                     f: Book, t: S.Stl, rest: uint32)
    requires |b.Lv(side)| <= NULL_IDX && rem > 0 && Marketable(b, side, limit)
    requires S.Occupied(s.Lv(side)) && S.Crosses(s.Lv(side), side, limited, abs)
    requires f == FillStep(b, side, taker, rem) && rest == rem - FillQty(b, side, rem) && |f.Lv(side)| <= NULL_IDX
    requires FillQty(b, side, rem) == S.FrontFill(s.Lv(side), side, rem) && t == S.Take(s, side, FillQty(b, side, rem))
    ensures S.Occupied(t.Lv(side))
    ensures Sweep(b, side, taker, limit, rem) == Sweep(f, side, taker, limit, rest)
    ensures S.Match(s, side, limited, abs, rem) == S.Match(t, side, limited, abs, rest)
  {
    SweepUnfold(b, side, taker, limit, rem);
    S.MatchTurn(s, side, limited, abs, rem);
  }

  // ---- resting ----

  lemma RestPlaces(b: Book, side: Side, l: nat, id: uint64, qty: uint32, p: Place)
    requires l < |b.Lv(side)| <= NULL_IDX && b.free > 0 && p.At? && ValidPlace(Rest(b, side, l, id, qty), p)
    ensures var b' := Rest(b, side, l, id, qty);
            if p == At(side, l, |b.Lv(side)[l]|) then OrderAt(b', p) == Resting(id, qty)
            else ValidPlace(b, p) && OrderAt(b', p) == OrderAt(b, p)
  {
    RestLevels(b, side, l, id, qty);
  }

  lemma AbsentAt(b: Book, id: uint64, p: Place)
    requires Absent(b, id) && p.At? && ValidPlace(b, p)
    ensures OrderAt(b, p).id != id
  {
    assert AbsentQueue(b.Lv(p.side)[p.level], id);
  }

  lemma RestRefines(b: Book, s: S.Stl, side: Side, l: nat, id: uint64, qty: uint32)
    requires Refines(b, s) && Absent(b, id) && l < |b.Lv(side)| <= NULL_IDX && b.free > 0
    ensures Refines(Rest(b, side, l, id, qty), S.Enter(s, id, side, b.base + l, qty))
  {
    hide Rest, Absent, IndexAgrees, UniqueIds;
    RestLevels(b, side, l, id, qty);
    AbsUpdate(b.Lv(side), b.base, l, b.Lv(side)[l] + [Resting(id, qty)]);
    RestAgrees(b, s.index, side, l, id, qty);
  }

  lemma RestAgrees(b: Book, index: map<uint64, S.IndexEntry>, side: Side, l: nat, id: uint64, qty: uint32)
    requires UniqueIds(b) && IndexAgrees(b, index) && Absent(b, id) && l < |b.Lv(side)| <= NULL_IDX && b.free > 0
    ensures var b' := Rest(b, side, l, id, qty);
            UniqueIds(b') && IndexAgrees(b', index[id := S.IndexEntry(side, b.base + l)])
  {
    hide Rest, Absent;
    var b', index' := Rest(b, side, l, id, qty), index[id := S.IndexEntry(side, b.base + l)];
    var last := At(side, l, |b.Lv(side)[l]|);
    RestLevels(b, side, l, id, qty);
    forall p: Place | p.At? && ValidPlace(b', p)
      ensures PlaceIndexed(b', index', p) && (OrderAt(b', p).id == id <==> p == last)
      ensures p != last ==> ValidPlace(b, p) && OrderAt(b', p) == OrderAt(b, p)
    {
      RestPlaces(b, side, l, id, qty, p);
      if p != last {
        AbsentAt(b, id, p);
        assert PlaceIndexed(b, index, p);
      }
    }
    forall i | i in index'
      ensures !Absent(b', i)
    {
      if i == id {
        RestIsPresent(b, side, l, id, qty);
      } else {
        StaysInRest(b, side, l, id, qty, i);
      }
    }
  }

  lemma StaysInRest(b: Book, side: Side, l: nat, id: uint64, qty: uint32, i: uint64)
    requires !Absent(b, i) && l < |b.Lv(side)| <= NULL_IDX && b.free > 0
    ensures !Absent(Rest(b, side, l, id, qty), i)
  {
    AbsentIsNowhere(b, i);
    var p := Locate(b, i);
    LocateSound(b, i);
    RestLevels(b, side, l, id, qty);
    var b' := Rest(b, side, l, id, qty);
    assert b'.Lv(p.side)[p.level][p.pos].id == i;
    assert !AbsentQueue(b'.Lv(p.side)[p.level], i);
  }

  lemma InsertOrderIs(s: S.Stl, id: uint64, side: Side, price: uint32, qty: uint32, s1: S.Stl, left: uint32)
    requires S.Occupied(s.Lv(side.Opposite())) && S.Match(s, side.Opposite(), true, price, qty) == (s1, left)
    ensures S.InsertOrder(s, id, side, price, qty)
            == if left > 0 then (S.Enter(s1, id, side, price, left), true) else (s1, false)
  {
  }

  lemma SweepKeeps(w: Book, side: Side, taker: uint64, l: nat, qty: uint32, b1: Book, rem: uint32)
    requires Wf(w) && Absent(w, taker) && Sweep(w, side, taker, l, qty) == (b1, rem)
    ensures Wf(b1) && b1.base == w.base && Absent(b1, taker)
  {
    AbsentSweep(w, side, taker, l, qty, taker);
    SweepWf(w, side, taker, l, qty);
  }

  lemma InsertAtRefines(w: Book, s: S.Stl, id: uint64, side: Side, l: nat, price: uint32, qty: uint32)
    returns (b': Book, s': S.Stl, rests: bool)
    requires Sharp(w) && Refines(w, s) && Absent(w, id) && l < |w.bids| && w.base + l == price
             && RoomFor(w, side.Opposite(), l, qty)
    ensures S.Occupied(s.Lv(side.Opposite()))
    ensures InsertAt(w, id, side, l, qty) == (b', rests) && S.InsertOrder(s, id, side, price, qty) == (s', rests)
    ensures Refines(b', s')
  {
    hide Sweep, InsertAt, Rest, RoomFor, S.Match, S.InsertOrder, S.Enter, Refines, Absent, Exact, Uncrossed, WfSide,
         S.Occupied;
    RoomIff(w, side.Opposite(), id, l, qty);
    var b1, s1, rem := SweepRefines(w, s, side.Opposite(), id, true, l, price, qty);
    SweepKeeps(w, side.Opposite(), id, l, qty, b1, rem);
    InsertAtIs(w, id, side, l, qty, b1, rem);
    InsertOrderIs(s, id, side, price, qty, s1, rem);
    if rem > 0 {
      b', s', rests := Rest(b1, side, l, id, rem), S.Enter(s1, id, side, price, rem), true;
      RestRefines(b1, s1, side, l, id, rem);
    } else {
      b', s', rests := b1, s1, false;
    }
  }

  lemma InsertInBand(b: Book, id: uint64, side: Side, price: uint32, qty: uint32) returns (w: Book, l: nat)
    requires Ledgers.Shape(b) && InBand(Anchored(b, price), price)
    ensures w == Anchored(b, price) && l < |w.bids| == |w.asks| <= NULL_IDX && w.base + l == price
    ensures Insert(b, id, side, price, qty) == InsertAt(w, id, side, l, qty)
  {
    w := Anchored(b, price);
    l := price - w.base;
    InsertIs(b, id, side, price, qty);
  }

  /** The price lies in the window, which this order may be the first to anchor, and there is a slot or a trade. */
  predicate Insertable(b: Book, side: Side, price: uint32, qty: uint32) {
    var w := Anchored(b, price);
    InBand(w, price) && RoomFor(w, side.Opposite(), price - w.base, qty)
  }

  /** An in-band insertion with a fresh id, and a slot should something of it rest: same book, same flag. */
  lemma InsertRefines(b: Book, s: S.Stl, id: uint64, side: Side, price: uint32, qty: uint32)
    returns (b': Book, s': S.Stl, rests: bool)
    requires Sharp(b) && Sane(b) && Refines(b, s) && Absent(b, id)
    requires Insertable(b, side, price, qty)
    ensures S.Occupied(s.Lv(side.Opposite()))
    ensures Insert(b, id, side, price, qty) == (b', rests) && S.InsertOrder(s, id, side, price, qty) == (s', rests)
    ensures Refines(b', s')
  {
    hide Insert, InsertAt, RoomFor, S.InsertOrder, Refines, AbsentLevels, Exact, Uncrossed, WfSide, EmptyBook,
         S.Occupied;
    var w, l := InsertInBand(b, id, side, price, qty);
    AnchoredRefines(b, s, price);
    b', s', rests := InsertAtRefines(w, s, id, side, l, price, qty);
  }

  lemma AnchoredRefines(b: Book, s: S.Stl, price: uint32)
    requires Sharp(b) && Sane(b) && Refines(b, s)
    ensures Sharp(Anchored(b, price)) && Refines(Anchored(b, price), s)
  {
    AnchoredWf(b, price);
    var w := Anchored(b, price);
    if !b.baseSet {
      assert AbsSide(b, Buy) == map[] == AbsSide(w, Buy);
      assert AbsSide(b, Sell) == map[] == AbsSide(w, Sell);
      assert forall p: Place :: p.At? ==> !ValidPlace(w, p);
    }
  }

  lemma MarketRefines(b: Book, s: S.Stl, side: Side, qty: uint32)
    requires Sharp(b) && Refines(b, s)
    ensures S.Occupied(s.Lv(side.Opposite()))
    ensures Refines(Market(b, side, qty), S.MarketOrder(s, side, qty))
  {
    hide Sweep, S.Match, Exact, Uncrossed, WfSide, Refines, S.Occupied;
    var limit: nat := if side.Buy? then |b.asks| - 1 else 0;
    var b', s', left := SweepRefines(b, s, side.Opposite(), 0, false, limit, b.base + limit, qty);
    UnlimitedMatch(s, side.Opposite(), b.base + limit, 0, qty);
  }

  /** A loop without a limit does not look at one. */
  lemma {:induction false} UnlimitedMatch(s: S.Stl, side: Side, limit: nat, limit': nat, qty: nat)
    requires S.Occupied(s.Lv(side))
    ensures S.Match(s, side, false, limit, qty) == S.Match(s, side, false, limit', qty)
    decreases qty
  {
    if qty > 0 && s.Lv(side) != map[] {
      var fill := S.FrontFill(s.Lv(side), side, qty);
      S.TakeOccupied(s, side, fill);
      UnlimitedMatch(S.Take(s, side, fill), side, limit, limit', qty - fill);
    }
  }

  /**
   The two books give the same answer to an in-band insertion exactly when the pool is not full or it trades at once.
   */
  lemma InsertAnswersIff(b: Book, s: S.Stl, id: uint64, side: Side, price: uint32, qty: uint32)
    requires Sharp(b) && Sane(b) && Refines(b, s) && Absent(b, id) && InBand(Anchored(b, price), price)
    ensures S.Occupied(s.Lv(side.Opposite()))
    ensures Insert(b, id, side, price, qty).1 == S.InsertOrder(s, id, side, price, qty).1
            <==> Insertable(b, side, price, qty)
  {
    hide Insert, InsertAt, Sweep, RoomFor, S.Match, S.InsertOrder, Refines, AbsentLevels, Exact, Uncrossed, WfSide,
         EmptyBook, S.Occupied;
    var w, l := InsertInBand(b, id, side, price, qty);
    RoomIff(w, side.Opposite(), id, l, qty);
    AnchoredRefines(b, s, price);
    var b1, s1, rem := SweepRefines(w, s, side.Opposite(), id, true, l, price, qty);
    InsertAtIs(w, id, side, l, qty, b1, rem);
    InsertOrderIs(s, id, side, price, qty, s1, rem);
  }

  // ---- cancelling ----

  /** Where an order stood before place p was emptied. */
  function BeforeRemoval(p: Place, o: Place): Place
    requires p.At? && o.At?
  {
    if o.side == p.side && o.level == p.level && o.pos >= p.pos then At(o.side, o.level, o.pos + 1) else o
  }

  lemma RemovalPlaces(b: Book, p: Place, b': Book, o: Place)
    requires p.At? && ValidPlace(b, p) && o.At? && ValidPlace(b', o)
    requires b'.Lv(p.side) == b.Lv(p.side)[p.level := Without(b.Lv(p.side)[p.level], p.pos)]
    requires b'.Lv(p.side.Opposite()) == b.Lv(p.side.Opposite())
    ensures var was := BeforeRemoval(p, o); was != p && ValidPlace(b, was) && OrderAt(b', o) == OrderAt(b, was)
  {
  }

  lemma RemoveAgrees(b: Book, p: Place, b': Book, index: map<uint64, S.IndexEntry>)
    requires UniqueIds(b) && IndexAgrees(b, index) && p.At? && ValidPlace(b, p) && b'.base == b.base
    requires b'.Lv(p.side) == b.Lv(p.side)[p.level := Without(b.Lv(p.side)[p.level], p.pos)]
    requires b'.Lv(p.side.Opposite()) == b.Lv(p.side.Opposite())
    ensures UniqueIds(b') && IndexAgrees(b', index - {OrderAt(b, p).id})
  {
    hide Without, Absent;
    var id := OrderAt(b, p).id;
    forall o: Place | o.At? && ValidPlace(b', o)
      ensures PlaceIndexed(b', index - {id}, o)
    {
      RemovalPlaces(b, p, b', o);
      assert PlaceIndexed(b, index, BeforeRemoval(p, o));
    }
    forall o: Place, o': Place | o.At? && o'.At? && ValidPlace(b', o) && ValidPlace(b', o')
        && OrderAt(b', o).id == OrderAt(b', o').id
      ensures o == o'
    {
      RemovalPlaces(b, p, b', o);
      RemovalPlaces(b, p, b', o');
      assert BeforeRemoval(p, o) == BeforeRemoval(p, o');
    }
    forall i | i in index - {id}
      ensures !Absent(b', i)
    {
      OthersStay(b, p, b', i);
    }
  }

  lemma OthersStay(b: Book, p: Place, b': Book, i: uint64)
    requires !Absent(b, i) && p.At? && ValidPlace(b, p) && i != OrderAt(b, p).id
    requires b'.Lv(p.side) == b.Lv(p.side)[p.level := Without(b.Lv(p.side)[p.level], p.pos)]
    requires b'.Lv(p.side.Opposite()) == b.Lv(p.side.Opposite())
    ensures !Absent(b', i)
  {
    AbsentIsNowhere(b, i);
    var o := Locate(b, i);
    LocateSound(b, i);
    assert o != p;
    var k := if o.side == p.side && o.level == p.level && o.pos > p.pos then o.pos - 1 else o.pos;
    assert b'.Lv(o.side)[o.level][k].id == i;
    assert !AbsentQueue(b'.Lv(o.side)[o.level], i);
  }

  lemma RemoveAtLevels(b: Book, p: Place) returns (b': Book)
    requires p.At? && ValidPlace(b, p) && |b.Lv(p.side)| <= NULL_IDX
    ensures b' == RemoveAt(b, p) && b'.base == b.base
    ensures b'.Lv(p.side) == b.Lv(p.side)[p.level := Without(b.Lv(p.side)[p.level], p.pos)]
    ensures b'.Lv(p.side.Opposite()) == b.Lv(p.side.Opposite())
  {
    b' := RemoveAt(b, p);
  }

  lemma CancelOrderIs(s: S.Stl, id: uint64, side: Side, price: nat, q: Queue)
    requires id in s.index && s.index[id] == S.IndexEntry(side, price)
    requires price in s.Lv(side) && s.Lv(side)[price] == q && IndexOf(q, id) < |q|
    ensures S.Indexed(s, id)
    ensures var s' := S.CancelOrder(s, id).0;
            && S.CancelOrder(s, id).1 && s'.index == s.index - {id}
            && s'.Lv(side) == S.SetLevel(s.Lv(side), price, Without(q, IndexOf(q, id)))
            && s'.Lv(side.Opposite()) == s.Lv(side.Opposite())
  {
  }

  lemma NotCancelled(s: S.Stl, id: uint64)
    requires id !in s.index
    ensures S.CancelOrder(s, id) == (s, false)
  {
  }

  /** The two books know the same ids, and cancel the same order. */
  lemma CancelRefines(b: Book, s: S.Stl, id: uint64) returns (b': Book, s': S.Stl, found: bool)
    requires Refines(b, s) && Ledgers.Shape(b)
    ensures id in s.index ==> S.Indexed(s, id)
    ensures Cancel(b, id) == b' && S.CancelOrder(s, id) == (s', found)
    ensures found == Locate(b, id).At? && Refines(b', s')
  {
    hide RemoveAt, UniqueIds, Absent, Locate, IndexOf, Without, S.CancelOrder, S.SetLevel;
    var p := Locate(b, id);
    LocateSound(b, id);
    AbsentIsNowhere(b, id);
    if p.Nowhere? {
      b', s', found := b, s, false;
      NotCancelled(s, id);
    } else {
      assert PlaceIndexed(b, s.index, p);
      var q := b.Lv(p.side)[p.level];
      CancelOrderIs(s, id, p.side, b.base + p.level, q);
      b' := RemoveAtLevels(b, p);
      AbsUpdate(b.Lv(p.side), b.base, p.level, Without(q, p.pos));
      RemoveAgrees(b, p, b', s.index);
      found := true;
      s' := S.CancelOrder(s, id).0;
    }
  }

  /** The abstraction meets the invariant of the textbook class, so its methods may be called on it. */
  lemma RefinesTidy(b: Book, s: S.Stl)
    requires Wf(b) && Refines(b, s)
    ensures S.Tidy(s)
  {
    hide Wf, UniqueIds, S.Occupied, AbsSide, Locate, IndexOf, Absent;
    AbsLists(b, s);
    forall side: Side, p: nat, k: nat | k < |S.ListAt(s, side, p)|
      ensures S.Entered(s, side, p, k)
    {
      assert PlaceIndexed(b, s.index, At(side, p - b.base, k));
    }
    forall side: Side, p: nat
      ensures S.DistinctIds(S.ListAt(s, side, p))
    {
      DistinctAt(b, s, side, p);
    }
    forall id | id in s.index
      ensures S.Indexed(s, id)
    {
      AbsentIsNowhere(b, id);
      LocateSound(b, id);
      var p := Locate(b, id);
      assert PlaceIndexed(b, s.index, p);
      assert S.ListAt(s, p.side, b.base + p.level) == b.Lv(p.side)[p.level];
    }
  }

  /** The lists of the abstraction are the queues. */
  lemma AbsLists(b: Book, s: S.Stl)
    requires Wf(b) && Refines(b, s)
    ensures S.Occupied(s.bids) && S.Occupied(s.asks)
    ensures forall side: Side, p: nat ::
              S.ListAt(s, side, p) == if b.base <= p < b.base + |b.Lv(side)| then b.Lv(side)[p - b.base] else []
  {
    AbsOccupied(b, Buy);
    AbsOccupied(b, Sell);
  }

  lemma DistinctAt(b: Book, s: S.Stl, side: Side, p: nat)
    requires UniqueIds(b)
    requires S.ListAt(s, side, p) == if b.base <= p < b.base + |b.Lv(side)| then b.Lv(side)[p - b.base] else []
    ensures S.DistinctIds(S.ListAt(s, side, p))
  {
    var q := S.ListAt(s, side, p);
    forall k: nat, o: nat | k < o < |q|
      ensures q[k].id != q[o].id
    {
      var l := p - b.base;
      assert OrderAt(b, At(side, l, k)) == q[k] && OrderAt(b, At(side, l, o)) == q[o];
    }
  }

  // ---- runs ----

  /** The messages both books understand. */
  predicate Common(op: Ledgers.Op) {
    op.Limit? || op.MarketOrder? || op.CancelId?
  }

  /** One message to the textbook book: its new state and its answer. */
  ghost predicate StlMoves(s: S.Stl, op: Ledgers.Op, answer: bool, s': S.Stl) {
    && S.Tidy(s)
    && match op
       case Limit(id, side, price, qty) => S.InsertOrder(s, id, side, price, qty) == (s', answer)
       case MarketOrder(side, qty) => S.MarketOrder(s, side, qty) == s' && !answer
       case CancelId(id) => S.CancelOrder(s, id) == (s', answer)
       case _ => false
  }

  /** The fast book's answer: whether an insertion rests, whether a cancellation finds its order. */
  predicate Answer(b: Book, op: Ledgers.Op)
    requires Ledgers.Shape(b)
  {
    match op
    case Limit(id, side, price, qty) => Insert(b, id, side, price, qty).1
    case CancelId(id) => Locate(b, id).At?
    case _ => false
  }

  /** Fresh id, price in the window, and a free slot unless the order trades at once. */
  ghost predicate Eligible(b: Book, op: Ledgers.Op)
    requires Ledgers.Shape(b)
  {
    Common(op) && (op.Limit? ==> Absent(b, op.id) && Insertable(b, op.side, op.price, op.qty))
  }

  ghost predicate EligibleRun(b: Book, ops: seq<Ledgers.Op>)
    requires Ledgers.Shape(b)
    decreases |ops|
  {
    ops != [] ==> Eligible(b, ops[0]) && EligibleRun(Ledgers.Step(b, ops[0]), ops[1..])
  }

  /** One message: the books stay in step and give the same answer. */
  lemma StepRefines(b: Book, s: S.Stl, op: Ledgers.Op) returns (s': S.Stl)
    requires Sharp(b) && Sane(b) && Refines(b, s) && Eligible(b, op)
    ensures StlMoves(s, op, Answer(b, op), s') && Refines(Ledgers.Step(b, op), s')
  {
    hide Insert, Insertable, S.InsertOrder, S.MarketOrder, S.CancelOrder, Market, Cancel, Refines, Exact, Uncrossed,
         WfSide, EmptyBook, Absent;
    RefinesTidy(b, s);
    var b', flag;
    match op
    case Limit(id, side, price, qty) => b', s', flag := InsertRefines(b, s, id, side, price, qty);
    case MarketOrder(side, qty) =>
      MarketRefines(b, s, side, qty);
      s' := S.MarketOrder(s, side, qty);
    case CancelId(id) => b', s', flag := CancelRefines(b, s, id);
  }

  ghost predicate InLockstep(s: S.Stl, b: Book, ops: seq<Ledgers.Op>, states: seq<S.Stl>)
    requires Ledgers.Shape(b)
    decreases |ops|
  {
    && |states| == |ops|
    && (ops != [] ==>
          && StlMoves(s, ops[0], Answer(b, ops[0]), states[0])
          && Refines(Ledgers.Step(b, ops[0]), states[0])
          && InLockstep(states[0], Ledgers.Step(b, ops[0]), ops[1..], states[1..]))
  }

  /**
   For every run of insertions, cancellations and market orders with fresh ids, in-band prices and a free slot for
   every order that does not trade at once, the fast book is the textbook book after every step, and
   every answer is the same.
   */
  lemma {:induction false} RunRefines(b: Book, s: S.Stl, ops: seq<Ledgers.Op>) returns (states: seq<S.Stl>)
    requires Sharp(b) && Sane(b) && Refines(b, s) && EligibleRun(b, ops)
    ensures InLockstep(s, b, ops, states)
    decreases |ops|
  {
    hide Ledgers.Step, Refines, StlMoves, Answer, Absent, Exact, Uncrossed, WfSide, EmptyBook, InSight;
    if ops == [] {
      states := [];
    } else {
      var s' := StepRefines(b, s, ops[0]);
      StepSane(b, ops[0]);
      StepSharp(b, ops[0]);
      var rest := RunRefines(Ledgers.Step(b, ops[0]), s', ops[1..]);
      states := [s'] + rest;
    }
  }

  lemma FreshRefines(band: nat, capacity: nat)
    ensures Refines(Ledgers.FreshBook(band, capacity), S.Stl(map[], map[], map[]))
  {
    var b := Ledgers.FreshBook(band, capacity);
    assert AbsSide(b, Buy) == map[] && AbsSide(b, Sell) == map[];
    assert forall p: Place :: p.At? ==> !ValidPlace(b, p);
  }
}
