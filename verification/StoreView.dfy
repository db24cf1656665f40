/** The book a client sees in a store, and how the composite changes of the store show there. */
module StoreView {
  import opened Types
  import opened Pool
  import opened BookStore
  import opened StoreSteps
  import opened BookSpec
  import opened BookIds
  import BookWf
  import Bitmap
  import Bits

  function ToBook(s: Store, tob: TopOfBook, baseSet: bool, live: uint32, log: seq<Trade>): Book {
    Book(|s.free|, s.base, baseSet, live, LevelsView(s.pool, s.bidQ), LevelsView(s.pool, s.askQ), tob, log)
  }

  /** The store as far as its slots, queues and ids go. */
  ghost predicate Sound(s: Store) {
    Inv(s, {}) && IdsRep(s, {})
  }

  ghost predicate Queued(s: Store, side: Side, l: nat, k: nat) {
    && l < |s.Qs(side)| && k < |s.Qs(side)[l]| && s.Qs(side)[l][k] < |s.pool|
    && l < |s.Lad(side).levels| && l < 64 * |s.Lad(side).bitmap|
  }

  lemma QueuedInSound(s: Store, side: Side, l: nat, k: nat)
    requires Inv(s, {}) && l < |s.Qs(side)| && k < |s.Qs(side)[l]|
    ensures Queued(s, side, l, k)
    ensures var x := s.Qs(side)[l][k];
            && s.pool[x].side == side && s.pool[x].price == l
            && LevelsView(s.pool, s.Qs(side))[l][k] == Resting(s.pool[x].id, s.pool[x].qty)
    ensures s.Lad(side).levels[l].price == s.base + l
    ensures var q := LevelsView(s.pool, s.Qs(side))[l];
            s.Lad(side).levels[l].totalVolume == Wrap32(Volume(q))
    ensures s.pool[s.Qs(side)[l][k]].next == LinkAt(s.Qs(side)[l], k + 1)
  {
    var q := s.Qs(side)[l];
    UseLevel(s, side, l);
    assert NodeOk(s.pool, q, k, side, l);
    BitmapCovers(s, side, l);
  }

  /** The slot's links lead into the pool, and it names its level. */
  ghost predicate Addressed(pool: seq<Order>, x: nat, side: Side, l: nat) {
    && x < |pool| <= NULL_IDX
    && (pool[x].prev == NULL_IDX || pool[x].prev < |pool|)
    && (pool[x].next == NULL_IDX || pool[x].next < |pool|)
    && pool[x].price == l && pool[x].side == side
  }

  lemma NeighbourBounds(s: Store, side: Side, l: nat, k: nat)
    requires Inv(s, {}) && Queued(s, side, l, k)
    ensures Addressed(s.pool, s.Qs(side)[l][k], side, l)
  {
    var q := s.Qs(side)[l];
    UseLevel(s, side, l);
    assert NodeOk(s.pool, q, k, side, l);
    assert k > 0 ==> NodeOk(s.pool, q, k - 1, side, l);
    assert k + 1 < |q| ==> NodeOk(s.pool, q, k + 1, side, l);
  }

  // ---- removing one order ----

  /** level_remove, id_map_.erase and pool_.deallocate together. */
  function Removed(s: Store, side: Side, l: nat, k: nat): Store
    requires Queued(s, side, l, k) && |s.pool| <= NULL_IDX
  {
    var x := s.Qs(side)[l][k];
    var u := Unlinked(s, side, l, k);
    Freed(u.(ids := u.ids - {s.pool[x].id}), x)
  }

  lemma UnlinkedFields(s: Store, side: Side, l: nat, k: nat)
    requires Sound(s) && Queued(s, side, l, k)
    ensures var u := Unlinked(s, side, l, k);
            u.ids == s.ids && u.base == s.base && u.free == s.free && u.freeHead == s.freeHead && |u.pool| == |s.pool|
            && u.pool[s.Qs(side)[l][k]].id == s.pool[s.Qs(side)[l][k]].id
  {
    UseLevel(s, side, l);
    UnlinkNodes(s.pool, s.Qs(side)[l], k, side, l);
  }

  lemma RemovedOk(s: Store, side: Side, l: nat, k: nat)
    requires Sound(s) && Queued(s, side, l, k)
    ensures Sound(Removed(s, side, l, k))
  {
    var x := s.Qs(side)[l][k];
    var u := Unlinked(s, side, l, k);
    var e := u.(ids := u.ids - {s.pool[x].id});
    UnlinkedFields(s, side, l, k);
    UnlinkedOk(s, side, l, k);
    UnlinkedIds(s, side, l, k);
    UnlinkedLive(s, side, l, k);
    SameQueues(u, e);
    ErasedIds(u.pool, u.ids, LiveSet(u), x);
    InvFromParts(e, {x}, LiveSet(u));
    FreedOk(e, x);
  }

  lemma RemovedView(s: Store, side: Side, l: nat, k: nat)
    requires Sound(s) && Queued(s, side, l, k)
    ensures var s', q := Removed(s, side, l, k), LevelsView(s.pool, s.Qs(side))[l];
            && LevelsView(s'.pool, s'.Qs(side)) == LevelsView(s.pool, s.Qs(side))[l := Without(q, k)]
            && LevelsView(s'.pool, s'.Qs(side.Opposite())) == LevelsView(s.pool, s.Qs(side.Opposite()))
            && |s'.free| == |s.free| + 1 && s'.base == s.base
            && s'.Qs(side) == s.Qs(side)[l := WithoutSlot(s.Qs(side)[l], k)]
            && s'.Qs(side.Opposite()) == s.Qs(side.Opposite())
  {
    hide LevelOk;
    var x := s.Qs(side)[l][k];
    var u := Unlinked(s, side, l, k);
    var e := u.(ids := u.ids - {s.pool[x].id});
    UnlinkedFields(s, side, l, k);
    UnlinkedOneLevel(s, side, l, k);
    UseLevel(s, side, l);
    UnlinkedVolume(s.pool, s.Qs(side)[l], s.Lad(side).levels[l], side, l, s.base, k);
    FrameView(s, u, side, l);
    UnlinkedOk(s, side, l, k);
    SameQueues(u, e);
    InvFromParts(e, {x}, LiveSet(u));
    FreedOk(e, x);
  }

  lemma RemovedBook(s: Store, tob: TopOfBook, baseSet: bool, live: uint32, log: seq<Trade>, side: Side, l: nat, k: nat)
    requires Sound(s) && Queued(s, side, l, k)
    ensures var b := ToBook(s, tob, baseSet, live, log);
            && l < |b.Lv(side)| && k < |b.Lv(side)[l]|
            && ToBook(Removed(s, side, l, k), tob, baseSet, live, log) == DropAt(b, side, l, k)
  {
    RemovedView(s, side, l, k);
    var b := ToBook(s, tob, baseSet, live, log);
    SameBook(ToBook(Removed(s, side, l, k), tob, baseSet, live, log), DropAt(b, side, l, k), side);
  }

  /** The slot at the head of a level's queue. */
  ghost function HeadOf(s: Store, side: Side, l: nat): nat {
    if l < |s.Qs(side)| then LinkAt(s.Qs(side)[l], 0) else NULL_IDX
  }

  // ---- shrinking one order ----

  lemma ShrunkFields(s: Store, side: Side, l: nat, k: nat, m: nat)
    requires Queued(s, side, l, k) && m <= s.pool[s.Qs(side)[l][k]].qty
    ensures var s' := Shrunk(s, side, l, k, m);
            && s'.free == s.free && s'.base == s.base && s'.bidQ == s.bidQ && s'.askQ == s.askQ && s'.ids == s.ids
            && s'.freeHead == s.freeHead
            && s'.pool == s.pool[s.Qs(side)[l][k] := s.pool[s.Qs(side)[l][k]].(qty := s.pool[s.Qs(side)[l][k]].qty - m)]
  {
  }

  lemma QueueDistinct(s: Store, side: Side, l: nat)
    requires SideOk(s, side) && l < |s.Qs(side)|
    ensures Distinct(s.Qs(side)[l])
  {
    UseLevel(s, side, l);
  }

  lemma QViewShrunk(pool: seq<Order>, q: seq<nat>, k: nat, m: nat)
    requires Distinct(q) && k < |q| && q[k] < |pool| && m <= pool[q[k]].qty
    ensures var v := QView(pool, q);
            QView(pool[q[k] := pool[q[k]].(qty := pool[q[k]].qty - m)], q) == Lower(v, k, m)
  {
    DistinctPairs(q);
  }

  lemma ShrunkView(s: Store, side: Side, l: nat, k: nat, m: nat)
    requires Sound(s) && Queued(s, side, l, k) && m <= s.pool[s.Qs(side)[l][k]].qty
    ensures var s', q := Shrunk(s, side, l, k, m), LevelsView(s.pool, s.Qs(side))[l];
            && LevelsView(s'.pool, s'.Qs(side)) == LevelsView(s.pool, s.Qs(side))[l := Lower(q, k, m)]
            && LevelsView(s'.pool, s'.Qs(side.Opposite())) == LevelsView(s.pool, s.Qs(side.Opposite()))
  {
    var s', x := Shrunk(s, side, l, k, m), s.Qs(side)[l][k];
    var q := s.Qs(side)[l];
    ShrunkFields(s, side, l, k, m);
    QueueDistinct(s, side, l);
    QViewShrunk(s.pool, q, k, m);
    ShrunkOneLevel(s, side, l, k, m);
    FrameView(s, s', side, l);
    assert LevelsView(s.pool, s.Qs(side))[l] == QView(s.pool, q);
  }

  lemma ShrunkBook(s: Store, tob: TopOfBook, baseSet: bool, live: uint32, log: seq<Trade>, side: Side, l: nat, k: nat,
                   m: nat)
    requires Sound(s) && Queued(s, side, l, k) && m <= s.pool[s.Qs(side)[l][k]].qty
    ensures var b := ToBook(s, tob, baseSet, live, log);
            && l < |b.Lv(side)| && k < |b.Lv(side)[l]| && b.Lv(side)[l][k] == SlotView(s.pool, s.Qs(side)[l][k])
            && ToBook(Shrunk(s, side, l, k, m), tob, baseSet, live, log) == Lowered(b, side, l, k, m)
  {
    ShrunkView(s, side, l, k, m);
    ShrunkFields(s, side, l, k, m);
    var b := ToBook(s, tob, baseSet, live, log);
    SameBook(ToBook(Shrunk(s, side, l, k, m), tob, baseSet, live, log), Lowered(b, side, l, k, m), side);
  }

  // ---- resting a new order ----

  /** A slot taken from the free list and filled in. */
  function Taken(s: Store, id: uint64, l: uint32, qty: uint32, side: Side): Store
    requires s.free != [] && s.free[0] < |s.pool|
  {
    var x := s.free[0];
    s.(pool := s.pool[x := Order(id, NULL_IDX, NULL_IDX, l, qty, side)], freeHead := s.pool[x].next,
        free := s.free[1..])
  }

  lemma TakenOk(s: Store, id: uint64, l: uint32, qty: uint32, side: Side)
    requires Sound(s) && s.free != [] && s.free[0] < |s.pool|
    ensures var s' := Taken(s, id, l, qty, side);
            && Inv(s', {s.free[0]}) && IdsRep(s', {})
            && LevelsView(s'.pool, s'.bidQ) == LevelsView(s.pool, s.bidQ)
            && LevelsView(s'.pool, s'.askQ) == LevelsView(s.pool, s.askQ)
  {
    var x := s.free[0];
    var o := Order(id, NULL_IDX, NULL_IDX, l, qty, side);
    var s1, s' := s.(pool := s.pool[x := o]), Taken(s, id, l, qty, side);
    FreeIsIdle(|s.pool|, s.free, LiveSet(s), {}, 0);
    assert !Live(s, x);
    IdleSlot(s, x, o);
    IdleLive(s, x, o);
    SameQueues(s1, s');
    PopChain(s.pool, s.freeHead, s.free, o);
    PartitionTake(|s.pool|, s.free, LiveSet(s));
    InvFromParts(s', {x}, LiveSet(s));
    IdsTake(s.pool, s.ids, LiveSet(s), x, o);
    assert LevelsView(s1.pool, s1.Qs(Buy)) == LevelsView(s.pool, s.Qs(Buy));
    assert LevelsView(s1.pool, s1.Qs(Sell)) == LevelsView(s.pool, s.Qs(Sell));
  }

  lemma IdsTake(pool: seq<Order>, ids: map<uint64, uint32>, live: set<nat>, x: nat, o: Order)
    requires IdsOk(pool, ids, live, {}) && x < |pool| && x !in live
    ensures IdsOk(pool[x := o], ids, live, {})
  {
  }

  lemma PartitionTake(n: nat, free: seq<nat>, live: set<nat>)
    requires Partition(n, free, live, {}) && Distinct(free) && free != [] && free[0] < n
    ensures Partition(n, free[1..], live, {free[0]})
  {
    DistinctPairs(free);
    forall x: nat | x < n && x != free[0]
      ensures x in free[1..] <==> x in free
    {
      if x in free {
        var i :| 0 <= i < |free| && free[i] == x;
        assert free[1..][i - 1] == x;
      }
    }
  }

  /** `if (level.empty()) level.price = price` on a level of the store. */
  function Priced(s: Store, side: Side, l: nat): Store
    requires l < |s.Lad(side).levels| && s.base + l < TWO_32
  {
    var lad := s.Lad(side);
    if lad.levels[l].Empty()
    then s.WithSide(side, lad.(levels := lad.levels[l := lad.levels[l].(price := s.base + l)]), s.Qs(side))
    else s
  }

  lemma PricedOk(s: Store, side: Side, l: nat, held: set<nat>)
    requires Inv(s, held) && l < |s.Qs(side)| && l < |s.Lad(side).levels| && s.base + l < TWO_32
    ensures var s' := Priced(s, side, l);
            && Inv(s', held) && s'.Lad(side).levels[l].price == s.base + l && s'.base == s.base
            && s'.pool == s.pool && s'.bidQ == s.bidQ && s'.askQ == s.askQ && s'.ids == s.ids && s'.free == s.free
            && LiveSet(s') == LiveSet(s)
            && s'.Lad(side).bitmap == s.Lad(side).bitmap && |s'.Lad(side).levels| == |s.Lad(side).levels|
  {
    var s', q := Priced(s, side, l), s.Qs(side)[l];
    UseLevel(s, side, l);
    LinkedBounded(s.pool, q, side, l);
    assert LevelOk(s'.pool, q, s'.Lad(side).levels[l], side, l, s.base);
    assert forall y: nat :: Live(s', y) <==> Live(s, y);
    PricedSides(s, s', side, l);
    InvFromParts(s', held, LiveSet(s));
  }

  lemma PricedSides(s: Store, s': Store, side: Side, l: nat)
    requires SideOk(s, Buy) && SideOk(s, Sell) && l < |s.Qs(side)| && l < |s.Lad(side).levels| && s.base + l < TWO_32
    requires s' == Priced(s, side, l) && LevelOk(s'.pool, s.Qs(side)[l], s'.Lad(side).levels[l], side, l, s.base)
    ensures SideOk(s', Buy) && SideOk(s', Sell)
  {
    forall sd: Side
      ensures SideOk(s', sd)
    {
      assert SideOk(s, sd);
      forall m | 0 <= m < |s.Qs(sd)|
        ensures LevelAt(s'.pool, s'.base, s'.Lad(sd), s'.Qs(sd), sd, m)
      {
        UseLevel(s, sd, m);
      }
    }
  }

  lemma AppendedView(s: Store, side: Side, l: nat, x: uint32)
    requires Inv(s, {x as nat}) && IdsRep(s, {}) && l < |s.Qs(side)| && x < |s.pool|
    requires l < |s.Lad(side).levels| && l < 64 * |s.Lad(side).bitmap|
    requires s.pool[x].side == side && s.pool[x].price == l && s.Lad(side).levels[l].price == s.base + l
    requires s.pool[x].id !in s.ids
    ensures var a := Appended(s, side, l, x);
            var s' := a.(ids := a.ids[s.pool[x].id := x]);
            && Sound(s')
            && LevelsView(s'.pool, s'.Qs(side))
               == LevelsView(s.pool, s.Qs(side))[l := LevelsView(s.pool, s.Qs(side))[l] + [SlotView(s.pool, x)]]
            && LevelsView(s'.pool, s'.Qs(side.Opposite())) == LevelsView(s.pool, s.Qs(side.Opposite()))
            && s'.Lad(side).levels[l].totalVolume == Wrap32(Volume(LevelsView(s'.pool, s'.Qs(side))[l]))
  {
    var q, a := s.Qs(side)[l], Appended(s, side, l, x);
    var s' := a.(ids := a.ids[s.pool[x].id := x]);
    AppendedOneLevel(s, side, l, x);
    UseLevel(s, side, l);
    AppendedLevelOk(s.pool, q, s.Lad(side).levels[l], side, l, s.base, x);
    FrameView(s, a, side, l);
    AppendedOk(s, side, l, x);
    AppendedLive(s, side, l, x);
    AppendedNodes(s.pool, q, s.Lad(side).levels[l], side, l, x);
    AppendedIds(s.pool, a.pool, s.ids, LiveSet(s), x, s.pool[x].id);
    SameQueues(a, s');
    InvFromParts(s', {}, LiveSet(a));
  }

  /** A free slot, filled in, priced, queued last and entered in the id table. */
  function Rested(s: Store, side: Side, l: nat, id: uint64, qty: uint32): Store
    requires s.free != [] && s.free[0] < |s.pool| <= NULL_IDX && s.base + l < TWO_32
    requires l < |s.Qs(side)| && l < |s.Lad(side).levels| && l < 64 * |s.Lad(side).bitmap| && l < NULL_IDX
  {
    var p := Priced(Taken(s, id, l, qty, side), side, l);
    var a := Appended(p, side, l, s.free[0]);
    a.(ids := a.ids[id := s.free[0]])
  }

  lemma RestedBook(s: Store, tob: TopOfBook, baseSet: bool, live: uint32, log: seq<Trade>,
                   side: Side, l: nat, id: uint64, qty: uint32)
    requires Sound(s) && s.free != [] && s.free[0] < |s.pool| && s.base + l < TWO_32
    requires l < |s.Qs(side)| && l < |s.Lad(side).levels| && l < 64 * |s.Lad(side).bitmap| && id !in s.ids
    ensures var s', b := Rested(s, side, l, id, qty), ToBook(s, tob, baseSet, live, log);
            && Sound(s') && l < |b.Lv(side)| && b.free > 0
            && ToBook(s', tob, baseSet, live, log) == Enqueued(b, side, l, id, qty)
  {
    var x: uint32 := s.free[0];
    var t := Taken(s, id, l, qty, side);
    TakenOk(s, id, l, qty, side);
    PricedOk(t, side, l, {x as nat});
    var p := Priced(t, side, l);
    IdsPriced(t, p);
    AppendedView(p, side, l, x);
    var s', b := Rested(s, side, l, id, qty), ToBook(s, tob, baseSet, live, log);
    SameBook(ToBook(s', tob, baseSet, live, log), Enqueued(b, side, l, id, qty), side);
  }

  lemma IdsPriced(t: Store, p: Store)
    requires IdsRep(t, {}) && p.pool == t.pool && p.ids == t.ids && LiveSet(p) == LiveSet(t)
    ensures IdsRep(p, {})
  {
  }

  // ---- ids ----

  /** The id table finds the order where the book has it. */
  lemma IdPlace(s: Store, id: uint64) returns (k: nat)
    requires Sound(s) && id in s.ids
    ensures var x := s.ids[id];
            && x < |s.pool| && s.pool[x].price < |s.Qs(s.pool[x].side)|
            && k < |s.Qs(s.pool[x].side)[s.pool[x].price]|
            && s.Qs(s.pool[x].side)[s.pool[x].price][k] == x && s.pool[x].id == id
  {
    var x := s.ids[id];
    assert (x as nat) in LiveSet(s);
    assert Live(s, x);
    var q := s.Qs(s.pool[x].side)[s.pool[x].price];
    k :| k < |q| && q[k] == x;
  }

  lemma SlotOf(s: Store, tob: TopOfBook, baseSet: bool, live: uint32, log: seq<Trade>, p: Place)
    requires Sound(s) && p.At? && ValidPlace(ToBook(s, tob, baseSet, live, log), p)
    ensures p.level < |s.Qs(p.side)| && p.pos < |s.Qs(p.side)[p.level]|
    ensures var x := s.Qs(p.side)[p.level][p.pos];
            && x < |s.pool| && s.pool[x].side == p.side && s.pool[x].price == p.level
            && OrderAt(ToBook(s, tob, baseSet, live, log), p).id == s.pool[x].id
            && s.pool[x].id in s.ids && s.ids[s.pool[x].id] == x
  {
    QueuedInSound(s, p.side, p.level, p.pos);
    var x := s.Qs(p.side)[p.level][p.pos];
    QueuedIsLive(s, p.side, p.level, x);
    assert x in LiveSet(s);
  }

  lemma SoundIsUnique(s: Store, tob: TopOfBook, baseSet: bool, live: uint32, log: seq<Trade>)
    requires Sound(s)
    ensures UniqueIds(ToBook(s, tob, baseSet, live, log))
  {
    var b := ToBook(s, tob, baseSet, live, log);
    forall p: Place, p': Place | p.At? && p'.At? && ValidPlace(b, p) && ValidPlace(b, p')
        && OrderAt(b, p).id == OrderAt(b, p').id
      ensures p == p'
    {
      SlotOf(s, tob, baseSet, live, log, p);
      SlotOf(s, tob, baseSet, live, log, p');
      QueueDistinct(s, p.side, p.level);
      DistinctPairs(s.Qs(p.side)[p.level]);
    }
  }

  /** An id rests in the book exactly when the id table knows it. */
  lemma AbsentStored(s: Store, tob: TopOfBook, baseSet: bool, live: uint32, log: seq<Trade>, id: uint64)
    requires Sound(s)
    ensures Absent(ToBook(s, tob, baseSet, live, log), id) <==> id !in s.ids
  {
    AbsentIsNowhere(ToBook(s, tob, baseSet, live, log), id);
    var k := LocateStored(s, tob, baseSet, live, log, id);
  }

  /** While a slot is free, the id table holds fewer ids than there are slots. */
  lemma IdRoom(s: Store)
    requires Sound(s) && s.free != []
    ensures |s.ids| < |s.pool|
  {
    assert FreeNode(s.pool, s.free, 0);
    FreeIsIdle(|s.pool|, s.free, LiveSet(s), {}, 0);
    forall k | k in s.ids
      ensures (s.ids[k] as nat) in Below(|s.pool|) - {s.free[0]} && s.pool[s.ids[k]].id == k
    {
      assert IdMapped(s.pool, s.ids, LiveSet(s), {}, k);
    }
    IdsInSet(s.ids, Below(|s.pool|) - {s.free[0]});
  }

  lemma TailInPool(s: Store, side: Side, l: nat, held: set<nat>)
    requires Inv(s, held) && l < |s.Qs(side)|
    ensures l < |s.Lad(side).levels| && l < 64 * |s.Lad(side).bitmap|
    ensures var lv := s.Lad(side).levels[l]; lv.head == NULL_IDX || lv.tail < |s.pool|
  {
    var q := s.Qs(side)[l];
    UseLevel(s, side, l);
    LinkedBounded(s.pool, q, side, l);
    BitmapCovers(s, side, l);
  }

  lemma StoredIsNotNull(s: Store, id: uint64)
    requires Sound(s) && id in s.ids
    ensures s.ids[id] < |s.pool| && s.ids[id] != NULL_IDX
  {
    var k := IdPlace(s, id);
  }

  /** The id table and Locate agree on where an id rests, and whether it does. */
  lemma LocateStored(s: Store, tob: TopOfBook, baseSet: bool, live: uint32, log: seq<Trade>, id: uint64)
    returns (k: nat)
    requires Sound(s)
    ensures id !in s.ids ==> Locate(ToBook(s, tob, baseSet, live, log), id) == Nowhere
    ensures id in s.ids ==>
              var x, b := s.ids[id], ToBook(s, tob, baseSet, live, log);
              && x < |s.pool|
              && Queued(s, s.pool[x].side, s.pool[x].price, k) && s.Qs(s.pool[x].side)[s.pool[x].price][k] == x
              && Locate(b, id) == At(s.pool[x].side, s.pool[x].price, k)
              && ValidPlace(b, Locate(b, id)) && OrderAt(b, Locate(b, id)) == Resting(id, s.pool[x].qty)
              && s.Lad(s.pool[x].side).levels[s.pool[x].price].price == s.base + s.pool[x].price
  {
    var b := ToBook(s, tob, baseSet, live, log);
    k := 0;
    if id in s.ids {
      k := IdPlace(s, id);
      var x := s.ids[id];
      QueuedInSound(s, s.pool[x].side, s.pool[x].price, k);
      SoundIsUnique(s, tob, baseSet, live, log);
      LocateUnique(b, At(s.pool[x].side, s.pool[x].price, k));
    } else {
      LocateSound(b, id);
      if Locate(b, id).At? {
        SlotOf(s, tob, baseSet, live, log, Locate(b, id));
      }
    }
  }

  // ---- the bitmap scan is the linear scan ----

  lemma ScanIs(ls: Levels, side: Side, start: nat, r: uint32)
    requires start < |ls| <= NULL_IDX && BookWf.FirstFrom(ls, side, start, r)
    ensures Scan(ls, side, start) == r
  {
    BookWf.ScanFindsFirst(ls, side, start);
    BookWf.FirstIsUnique(ls, side, start, r, Scan(ls, side, start));
  }

  /** What the bitmap scan reports is the first non-empty level, found by walking the levels one by one. */
  lemma BitmapScanIs(s: Store, side: Side, start: nat, r: uint32)
    requires Inv(s, {}) && start < |s.Qs(side)|
    requires var bm := s.Lad(side).bitmap;
             if r == NULL_IDX
             then (if side.Buy? then Bitmap.NoneIn(bm, 0, start + 1) else Bitmap.NoneIn(bm, start, NULL_IDX))
             else Bitmap.IsSet(bm, r) && Outward(side, start, r)
                  && (if side.Buy? then Bitmap.NoneIn(bm, r + 1, start + 1) else Bitmap.NoneIn(bm, start, r))
    ensures r == Scan(LevelsView(s.pool, s.Qs(side)), side, start)
    ensures r != NULL_IDX ==> r < |s.Qs(side)|
  {
    var ls, bm := LevelsView(s.pool, s.Qs(side)), s.Lad(side).bitmap;
    forall j: nat | j < |ls|
      ensures ls[j] != [] <==> Bitmap.IsSet(bm, j)
    {
      assert BitOk(bm, s.Qs(side), j);
      assert ls[j] == QView(s.pool, s.Qs(side)[j]);
    }
    assert r != NULL_IDX ==> BitOk(bm, s.Qs(side), r);
    assert BookWf.FirstFrom(ls, side, start, r);
    ScanIs(ls, side, start, r);
  }

  lemma LevelVolume(s: Store, side: Side, l: nat)
    requires Inv(s, {}) && l < |s.Qs(side)|
    ensures l < |s.Lad(side).levels| && l < 64 * |s.Lad(side).bitmap|
    ensures var lv, q := s.Lad(side).levels[l], LevelsView(s.pool, s.Qs(side))[l];
            && lv.totalVolume == Wrap32(Volume(q))
            && (lv.Empty() <==> q == [])
            && lv.head == LinkAt(s.Qs(side)[l], 0)
            && (q != [] ==> lv.price == s.base + l)
  {
    var q := s.Qs(side)[l];
    UseLevel(s, side, l);
    LinkedBounded(s.pool, q, side, l);
    BitmapCovers(s, side, l);
  }

  // ---- the empty store ----

  lemma FreshSide(s: Store, side: Side)
    requires Sized(s) && s.Qs(side) == seq(|s.bidQ|, _ => [])
    requires s.Lad(side).levels == seq(|s.bidQ|, _ => EMPTY_LEVEL)
    requires s.Lad(side).bitmap == seq((|s.bidQ| + 63) / 64, _ => 0)
    ensures SideOk(s, side)
  {
    forall l: nat
      ensures !Bitmap.IsSet(s.Lad(side).bitmap, l)
    {
      Bits.BitOfZero(l % 64);
    }
  }

  lemma FreshStore(s: Store)
    requires Sized(s) && s.ids == map[] && FreeChain(s.pool, s.freeHead, s.free)
    requires |s.free| == |s.pool| && forall i :: 0 <= i < |s.free| ==> s.free[i] == i
    requires SideOk(s, Buy) && SideOk(s, Sell)
    requires forall l :: 0 <= l < |s.bidQ| ==> s.bidQ[l] == [] && s.askQ[l] == []
    ensures Sound(s)
  {
    assert forall x: nat :: !Live(s, x);
    forall x: nat | x < |s.pool|
      ensures x in s.free
    {
      assert s.free[x] == x;
    }
    InvFromParts(s, {}, {});
  }

  /** With nothing queued, the base may be moved freely. */
  lemma AnchorEmpty(s: Store, tob: TopOfBook, baseSet: bool, live: uint32, log: seq<Trade>, base: uint32)
    requires Sound(s) && BookWf.EmptyBook(ToBook(s, tob, baseSet, live, log))
    ensures Sound(s.(base := base))
  {
    var s', b := s.(base := base), ToBook(s, tob, baseSet, live, log);
    forall sd: Side
      ensures SideOk(s', sd)
    {
      assert SideOk(s, sd);
      forall l | 0 <= l < |s.Qs(sd)|
        ensures LevelAt(s'.pool, s'.base, s'.Lad(sd), s'.Qs(sd), sd, l)
      {
        UseLevel(s, sd, l);
        assert b.Lv(sd)[l] == QView(s.pool, s.Qs(sd)[l]);
      }
    }
    assert forall x: nat :: Live(s', x) <==> Live(s, x);
    InvFromParts(s', {}, LiveSet(s));
  }
}
