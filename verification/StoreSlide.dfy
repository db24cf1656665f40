/** Sliding the window: the store while its levels are moved or dropped one after the other. */
module StoreSlide {
  import opened Types
  import opened Pool
  import opened BookStore
  import opened StoreSteps
  import opened StoreView
  import opened BookSpec
  import Bitmap
  import Bits

  function Repriced(o: Order, base: uint32, newBase: uint32): Order {
    var v: int := base + o.price - newBase;
    Order(o.id, o.next, o.prev, if 0 <= v < TWO_32 then v else 0, o.qty, o.side)
  }

  /** What has become of slot x: gone slots are free, moved ones have a new relative price, the rest wait. */
  ghost predicate SlotFate(s: Store, pool: seq<Order>, gone: set<nat>, moved: set<nat>, newBase: uint32, x: nat)
    requires x < |s.pool| == |pool|
  {
    && pool[x].id == s.pool[x].id && pool[x].qty == s.pool[x].qty
    && (x !in s.free && x !in gone ==>
          pool[x] == if x in moved then Repriced(s.pool[x], s.base, newBase) else s.pool[x])
  }

  /** r is the store s part-way through a slide. */
  ghost predicate Sliding(s: Store, r: Store, gone: set<nat>, moved: set<nat>, newBase: uint32) {
    && Sound(s) && gone <= LiveSet(s) && moved <= LiveSet(s)
    && |r.pool| == |s.pool| && r.bids == s.bids && r.asks == s.asks && r.bidQ == s.bidQ && r.askQ == s.askQ
        && r.base == s.base
    && (forall x: nat :: x < |s.pool| ==> SlotFate(s, r.pool, gone, moved, newBase, x))
    && FreeChain(r.pool, r.freeHead, r.free)
    && (forall x: nat :: x < |s.pool| ==> FreeFate(s, r.free, gone, x))
    && (forall k: uint64 :: IdFate(s, r.ids, gone, k))
  }

  ghost predicate FreeFate(s: Store, free: seq<nat>, gone: set<nat>, x: nat) {
    x in free <==> x in s.free || x in gone
  }

  ghost predicate IdFate(s: Store, ids: map<uint64, uint32>, gone: set<nat>, k: uint64) {
    && (k in ids <==> k in s.ids && (s.ids[k] as nat) !in gone)
    && (k in ids ==> ids[k] == s.ids[k])
  }

  lemma SlideStart(s: Store, newBase: uint32)
    requires Sound(s)
    ensures Sliding(s, s, {}, {}, newBase)
  {
    forall x: nat | x < |s.pool|
      ensures SlotFate(s, s.pool, {}, {}, newBase, x) && FreeFate(s, s.free, {}, x)
    {
    }
    forall k: uint64
      ensures IdFate(s, s.ids, {}, k)
    {
    }
  }

  /** A slot that still waits is as it was, is not free, and its id is known. */
  lemma Waiting(s: Store, r: Store, gone: set<nat>, moved: set<nat>, newBase: uint32, x: nat)
    requires Sliding(s, r, gone, moved, newBase) && x in LiveSet(s) && x !in gone && x !in moved
    ensures x < |r.pool| && r.pool[x] == s.pool[x] && x !in r.free
    ensures SlotMapped(s.pool, s.ids, x)
  {
    assert SlotFate(s, r.pool, gone, moved, newBase, x);
    assert FreeFate(s, r.free, gone, x);
  }

  // ---- dropping an order ----

  lemma DropStep(s: Store, r: Store, gone: set<nat>, moved: set<nat>, newBase: uint32, x: uint32)
    requires Sliding(s, r, gone, moved, newBase) && (x as nat) in LiveSet(s) && (x as nat) !in gone
             && (x as nat) !in moved
    requires x < |r.pool|
    ensures Sliding(s, Freed(r.(ids := r.ids - {r.pool[x].id}), x), gone + {x as nat}, moved, newBase)
  {
    Waiting(s, r, gone, moved, newBase, x);
    var r' := Freed(r.(ids := r.ids - {r.pool[x].id}), x);
    var gone' := gone + {x as nat};
    PushChain(r.pool, r.freeHead, r.free, x);
    forall y: nat | y < |s.pool|
      ensures SlotFate(s, r'.pool, gone', moved, newBase, y) && FreeFate(s, r'.free, gone', y)
    {
      assert SlotFate(s, r.pool, gone, moved, newBase, y) && FreeFate(s, r.free, gone, y);
    }
    forall k: uint64
      ensures IdFate(s, r'.ids, gone', k)
    {
      assert IdFate(s, r.ids, gone, k);
      assert k in s.ids ==> IdMapped(s.pool, s.ids, LiveSet(s), {}, k);
    }
  }

  /** No queue reaches NULL_IDX, so a link that reads NULL_IDX is the end of the list. */
  lemma QueuedBounded(s: Store, side: Side, l: nat, k: nat)
    requires Sound(s) && l < |s.Qs(side)| && k <= |s.Qs(side)[l]| && LinkAt(s.Qs(side)[l], k) == NULL_IDX
    ensures k == |s.Qs(side)[l]|
  {
    if k < |s.Qs(side)[l]| {
      QueuedInSound(s, side, l, k);
    }
  }

  // ---- moving an order ----

  /** The pool with the link after the k-th node cut, as the moving loop leaves it between two nodes. */
  function Cut(g: seq<Order>, q: seq<nat>, k: nat): seq<Order> {
    if 0 < k <= |q| then SetNext(g, q[k - 1], NULL_IDX) else g
  }

  /** The writes of one turn of the moving loop: re-price node j and append it behind dst. */
  function MoveNodePool(pool: seq<Order>, j: uint32, nr: uint32, dst: PriceLevel): seq<Order>
    requires j < |pool| && (dst.head == NULL_IDX || dst.tail < |pool|)
  {
    var p0 := pool[j := Order(pool[j].id, pool[j].next, pool[j].prev, nr, pool[j].qty, pool[j].side)];
    var p1 := if dst.head == NULL_IDX then SetPrev(p0, j, NULL_IDX) else SetPrev(SetNext(p0, dst.tail, j), j, dst.tail);
    SetNext(p1, j, NULL_IDX)
  }

  function MoveNodeLevel(dst: PriceLevel, j: uint32, qty: uint32): PriceLevel {
    PriceLevel(dst.price, Wrap32(dst.totalVolume + qty), if dst.head == NULL_IDX then j else dst.head, j,
        Wrap32(dst.count + 1))
  }

  /** The level being built once k nodes of q have been appended. */
  ghost predicate Building(pool: seq<Order>, q: seq<nat>, k: nat, price: uint32, dst: PriceLevel) {
    && k <= |q| && dst.price == price
    && dst.head == (if k == 0 then NULL_IDX else q[0])
    && dst.tail == (if k == 0 then NULL_IDX else q[k - 1])
    && dst.count == k
    && dst.totalVolume == Wrap32(Volume(QView(pool, q[..k])))
  }

  lemma BuildStep(pool: seq<Order>, q: seq<nat>, k: nat, price: uint32, dst: PriceLevel)
    requires Building(pool, q, k, price, dst) && k < |q| <= |pool| <= NULL_IDX
    requires forall i :: 0 <= i < |q| ==> q[i] < |pool|
    ensures Building(pool, q, k + 1, price, MoveNodeLevel(dst, q[k], pool[q[k]].qty))
  {
    assert QView(pool, q[..k + 1]) == QView(pool, q[..k]) + [SlotView(pool, q[k])];
    VolumeAppend(QView(pool, q[..k]), [SlotView(pool, q[k])]);
    WrapSum(Volume(QView(pool, q[..k])), pool[q[k]].qty);
  }

  /** A level rebuilt from its own list is the level it was. */
  lemma BuiltLevel(pool: seq<Order>, q: seq<nat>, lv: PriceLevel, dst: PriceLevel, side: Side, l: nat, base: uint32)
    requires LevelOk(pool, q, lv, side, l, base) && q != [] && base + l < TWO_32
    requires Building(pool, q, |q|, base + l, dst)
    ensures dst == lv
  {
    assert q[..|q|] == q;
  }

  lemma MoveStep(s: Store, r: Store, gone: set<nat>, moved: set<nat>, newBase: uint32, x: nat)
    requires Sliding(s, r, gone, moved, newBase) && x in LiveSet(s) && x !in gone && x !in moved && x < |r.pool|
    ensures Sliding(s, r.(pool := r.pool[x := Repriced(r.pool[x], s.base, newBase)]), gone, moved + {x}, newBase)
  {
    Waiting(s, r, gone, moved, newBase, x);
    var r', moved' := r.(pool := r.pool[x := Repriced(r.pool[x], s.base, newBase)]), moved + {x};
    forall y: nat | y < |s.pool|
      ensures SlotFate(s, r'.pool, gone, moved', newBase, y)
    {
      assert SlotFate(s, r.pool, gone, moved, newBase, y);
    }
    forall i | 0 <= i < |r.free| && r.free[i] < |r.pool|
      ensures r'.pool[r.free[i]].next == r.pool[r.free[i]].next
    {
      assert r.free[i] in r.free;
    }
    FreeChainFrame(r.pool, r'.pool, r.freeHead, r.free);
  }

  /** Re-linking a list in its own order only restores the link that the turn before has cut. */
  lemma RelinkStep(g: seq<Order>, q: seq<nat>, k: nat, nr: uint32, dst: PriceLevel)
    requires k < |q| && Distinct(q) && |g| <= NULL_IDX && (forall i :: 0 <= i < |q| ==> q[i] < |g|)
    requires dst.head == (if k == 0 then NULL_IDX else q[0])
    requires dst.tail == (if k == 0 then NULL_IDX else q[k - 1])
    requires g[q[k]].prev == LinkAt(q, k - 1)
    requires k > 0 ==> g[q[k - 1]].next == q[k]
    ensures q[k] < |Cut(g, q, k)| == |g|
    ensures Cut(g, q, k)[q[k]].next == g[q[k]].next && Cut(g, q, k)[q[k]].qty == g[q[k]].qty
    ensures var o := g[q[k]];
            MoveNodePool(Cut(g, q, k), q[k], nr, dst)
            == Cut(g[q[k] := Order(o.id, o.next, o.prev, nr, o.qty, o.side)], q, k + 1)
  {
    DistinctPairs(q);
    var o := g[q[k]];
    var g' := g[q[k] := Order(o.id, o.next, o.prev, nr, o.qty, o.side)];
    var m := MoveNodePool(Cut(g, q, k), q[k], nr, dst);
    assert |m| == |g|;
    forall y | 0 <= y < |g|
      ensures m[y] == Cut(g', q, k + 1)[y]
    {
    }
  }

  /** The state between two turns of the loop that moves a level: k orders moved, the last link cut. */
  ghost predicate Moving(s: Store, r: Store, gone: set<nat>, moved: set<nat>, newBase: uint32,
                         side: Side, l: nat, k: nat, slots: seq<Order>, dst: PriceLevel)
    requires l < |s.Qs(side)| && s.base + l < TWO_32
  {
    var q := s.Qs(side)[l];
    && Building(s.pool, q, k, s.base + l, dst)
    && Sliding(s, r, gone, moved + Elems(q[..k]), newBase)
    && slots == Cut(r.pool, q, k)
  }

  lemma MovingStart(s: Store, r: Store, gone: set<nat>, moved: set<nat>, newBase: uint32, side: Side, l: nat)
    requires Sliding(s, r, gone, moved, newBase) && l < |s.Qs(side)| && s.base + l < TWO_32
    ensures Moving(s, r, gone, moved, newBase, side, l, 0, r.pool, PriceLevel(s.base + l, 0, NULL_IDX, NULL_IDX, 0))
  {
    assert moved + Elems(s.Qs(side)[l][..0]) == moved;
    assert QView(s.pool, s.Qs(side)[l][..0]) == [];
  }

  lemma MovingEnd(s: Store, r: Store, gone: set<nat>, moved: set<nat>, newBase: uint32,
                  side: Side, l: nat, k: nat, slots: seq<Order>, dst: PriceLevel)
    requires l < |s.Qs(side)| && s.base + l < TWO_32 && s.Qs(side)[l] != []
    requires Moving(s, r, gone, moved, newBase, side, l, k, slots, dst) && LinkAt(s.Qs(side)[l], k) == NULL_IDX
    requires Elems(s.Qs(side)[l]) !! gone
    ensures l < |s.Lad(side).levels| && dst == s.Lad(side).levels[l]
    ensures slots == r.pool && Sliding(s, r, gone, moved + Elems(s.Qs(side)[l]), newBase)
  {
    var q := s.Qs(side)[l];
    QueuedBounded(s, side, l, k);
    assert q[..k] == q;
    UseLevel(s, side, l);
    BuiltLevel(s.pool, q, s.Lad(side).levels[l], dst, side, l, s.base);
    var x := q[|q| - 1];
    assert NodeOk(s.pool, q, |q| - 1, side, l) && x in q;
    QueuedIsLive(s, side, l, x);
    assert x in LiveSet(s) && SlotFate(s, r.pool, gone, moved + Elems(q), newBase, x);
  }

  /** The slots already moved keep the links they had. */
  lemma MovedLink(s: Store, r: Store, gone: set<nat>, moved: set<nat>, newBase: uint32, side: Side, l: nat, k: nat)
    requires Sliding(s, r, gone, moved, newBase) && l < |s.Qs(side)| && k < |s.Qs(side)[l]|
    requires Elems(s.Qs(side)[l]) !! gone
    ensures s.Qs(side)[l][k] < |r.pool|
    ensures r.pool[s.Qs(side)[l][k]].prev == LinkAt(s.Qs(side)[l], k - 1)
    ensures r.pool[s.Qs(side)[l][k]].next == LinkAt(s.Qs(side)[l], k + 1)
    ensures r.pool[s.Qs(side)[l][k]].qty == s.pool[s.Qs(side)[l][k]].qty
  {
    var q := s.Qs(side)[l];
    UseLevel(s, side, l);
    assert NodeOk(s.pool, q, k, side, l) && q[k] in q;
    QueuedIsLive(s, side, l, q[k]);
    assert q[k] in LiveSet(s) && SlotFate(s, r.pool, gone, moved, newBase, q[k]);
  }

  lemma QueueFits(s: Store, side: Side, l: nat)
    requires Sound(s) && l < |s.Qs(side)|
    ensures |s.Qs(side)[l]| <= |s.pool| && forall i :: 0 <= i < |s.Qs(side)[l]| ==> s.Qs(side)[l][i] < |s.pool|
    ensures Distinct(s.Qs(side)[l])
  {
    UseLevel(s, side, l);
    LinkedBounded(s.pool, s.Qs(side)[l], side, l);
  }

  /** The slot writes of one turn. */
  lemma MovingSlots(s: Store, r: Store, gone: set<nat>, moved: set<nat>, newBase: uint32,
                    side: Side, l: nat, k: nat, slots: seq<Order>, dst: PriceLevel, nr: uint32)
    requires l < |s.Qs(side)| && s.base + l < TWO_32 && k < |s.Qs(side)[l]|
    requires Moving(s, r, gone, moved, newBase, side, l, k, slots, dst) && Elems(s.Qs(side)[l]) !! gone
    ensures var q := s.Qs(side)[l];
            && q[k] < |slots| == |r.pool| <= NULL_IDX && (dst.head == NULL_IDX || dst.tail < |slots|)
            && slots[q[k]].next == LinkAt(q, k + 1) && slots[q[k]].qty == s.pool[q[k]].qty
            && var o := r.pool[q[k]];
               MoveNodePool(slots, q[k], nr, dst)
               == Cut(r.pool[q[k] := Order(o.id, o.next, o.prev, nr, o.qty, o.side)], q, k + 1)
  {
    var q := s.Qs(side)[l];
    QueueFits(s, side, l);
    MovedLink(s, r, gone, moved + Elems(q[..k]), newBase, side, l, k);
    if k > 0 {
      MovedLink(s, r, gone, moved + Elems(q[..k]), newBase, side, l, k - 1);
    }
    RelinkStep(r.pool, q, k, nr, dst);
  }

  lemma MovingSlide(s: Store, r: Store, gone: set<nat>, moved: set<nat>, newBase: uint32, side: Side, l: nat, k: nat,
                    nr: uint32)
    returns (r': Store)
    requires l < |s.Qs(side)| && k < |s.Qs(side)[l]| && nr == s.base + l - newBase
    requires Sliding(s, r, gone, moved + Elems(s.Qs(side)[l][..k]), newBase)
    requires Elems(s.Qs(side)[l]) !! gone && Elems(s.Qs(side)[l]) !! moved
    ensures Sliding(s, r', gone, moved + Elems(s.Qs(side)[l][..k + 1]), newBase)
    ensures var x := s.Qs(side)[l][k];
            && x < |r.pool|
            && var o := r.pool[x]; r' == r.(pool := r.pool[x := Order(o.id, o.next, o.prev, nr, o.qty, o.side)])
  {
    hide Linked;
    var q := s.Qs(side)[l];
    QueueFits(s, side, l);
    DistinctPairs(q);
    QueuedIsLive(s, side, l, q[k]);
    assert q[k] in q && q[k] !in Elems(q[..k]);
    Waiting(s, r, gone, moved + Elems(q[..k]), newBase, q[k]);
    MoveStep(s, r, gone, moved + Elems(q[..k]), newBase, q[k]);
    assert moved + Elems(q[..k]) + {q[k]} == moved + Elems(q[..k + 1]);
    r' := r.(pool := r.pool[q[k] := Repriced(r.pool[q[k]], s.base, newBase)]);
  }

  lemma MovingStep(s: Store, r: Store, gone: set<nat>, moved: set<nat>, newBase: uint32,
                   side: Side, l: nat, k: nat, slots: seq<Order>, dst: PriceLevel, nr: uint32) returns (r': Store)
    requires l < |s.Qs(side)| && s.base + l < TWO_32 && k < |s.Qs(side)[l]|
    requires Moving(s, r, gone, moved, newBase, side, l, k, slots, dst)
    requires Elems(s.Qs(side)[l]) !! gone && Elems(s.Qs(side)[l]) !! moved && nr == s.base + l - newBase
    ensures var x := s.Qs(side)[l][k];
            && x < |slots| <= NULL_IDX && (dst.head == NULL_IDX || dst.tail < |slots|)
            && Moving(s, r', gone, moved, newBase, side, l, k + 1, MoveNodePool(slots, x, nr, dst),
                      MoveNodeLevel(dst, x, slots[x].qty))
            && slots[x].next == LinkAt(s.Qs(side)[l], k + 1)
    ensures r' == r.(pool := r'.pool)
  {
    QueueFits(s, side, l);
    MovingSlots(s, r, gone, moved, newBase, side, l, k, slots, dst, nr);
    BuildStep(s.pool, s.Qs(side)[l], k, s.base + l, dst);
    r' := MovingSlide(s, r, gone, moved, newBase, side, l, k, nr);
  }

  // ---- one side, level by level ----

  /** The new level array once the levels below `done` have been moved. */
  function MovedLevels(levels: seq<PriceLevel>, base: uint32, newBase: uint32, done: nat): seq<PriceLevel> {
    seq(|levels|, r requires 0 <= r < |levels| =>
      var i: int := newBase + r - base;
      if 0 <= i < |levels| && i < done && !levels[i].Empty() then levels[i] else EMPTY_LEVEL)
  }

  function MovedQueues(qs: seq<seq<nat>>, base: uint32, newBase: uint32, done: nat): seq<seq<nat>> {
    seq(|qs|, r requires 0 <= r < |qs| =>
      var i: int := newBase + r - base;
      if 0 <= i < |qs| && i < done then qs[i] else [])
  }

  /** The slots of a side's levels below `done` that stay in the window, or that leave it. */
  ghost function SideSlots(s: Store, side: Side, newBase: uint32, done: nat, kept: bool): set<nat> {
    set x: nat | x in LiveSet(s) && s.pool[x].side == side && s.pool[x].price < done
                 && Kept(|s.Qs(side)|, s.base, newBase, s.pool[x].price) == kept
  }

  lemma SideStart(s: Store, side: Side, newBase: uint32, kept: bool)
    ensures SideSlots(s, side, newBase, 0, kept) == {}
  {
  }

  lemma SideStep(s: Store, side: Side, newBase: uint32, i: nat, kept: bool)
    requires SideOk(s, side) && i < |s.Qs(side)|
    ensures SideSlots(s, side, newBase, i + 1, kept)
         == SideSlots(s, side, newBase, i, kept)
            + (if Kept(|s.Qs(side)|, s.base, newBase, i) == kept then Elems(s.Qs(side)[i]) else {})
    ensures Elems(s.Qs(side)[i]) !! SideSlots(s, side, newBase, i, kept)
  {
    forall x: nat
      ensures x in s.Qs(side)[i] <==> x in LiveSet(s) && s.pool[x].side == side && s.pool[x].price == i
    {
      if x in s.Qs(side)[i] {
        QueuedIsLive(s, side, i, x);
      }
    }
  }

  lemma MovedLevelsStep(levels: seq<PriceLevel>, base: uint32, newBase: uint32, i: nat)
    requires i < |levels|
    ensures var m := MovedLevels(levels, base, newBase, i);
            MovedLevels(levels, base, newBase, i + 1)
            == if levels[i].Empty() || !Kept(|levels|, base, newBase, i) then m
               else m[base + i - newBase := levels[i]]
    ensures Kept(|levels|, base, newBase, i) ==>
              MovedLevels(levels, base, newBase, i)[base + i - newBase] == EMPTY_LEVEL
  {
  }

  lemma MovedQueuesStep(qs: seq<seq<nat>>, base: uint32, newBase: uint32, i: nat)
    requires i < |qs|
    ensures var m := MovedQueues(qs, base, newBase, i);
            MovedQueues(qs, base, newBase, i + 1)
            == if Kept(|qs|, base, newBase, i) then m[base + i - newBase := qs[i]] else m
    ensures qs[i] == [] ==> MovedQueues(qs, base, newBase, i + 1) == MovedQueues(qs, base, newBase, i)
  {
  }

  lemma MovedStart(levels: seq<PriceLevel>, qs: seq<seq<nat>>, base: uint32, newBase: uint32)
    ensures MovedLevels(levels, base, newBase, 0) == seq(|levels|, _ => EMPTY_LEVEL)
    ensures MovedQueues(qs, base, newBase, 0) == seq(|qs|, _ => [])
  {
  }

  lemma EmptyIff(s: Store, side: Side, i: nat)
    requires Inv(s, {}) && i < |s.Qs(side)|
    ensures i < |s.Lad(side).levels| && (s.Lad(side).levels[i].Empty() <==> s.Qs(side)[i] == [])
  {
    LevelVolume(s, side, i);
  }

  ghost predicate OtherSide(s: Store, side: Side, xs: set<nat>) {
    forall x :: x in xs && x < |s.pool| ==> s.pool[x].side != side
  }

  /** The levels below `done` of one side have been dealt with. */
  ghost predicate SideMoved(s: Store, r: Store, side: Side, newBase: uint32, gone: set<nat>, moved: set<nat>,
                            done: nat, lad: Ladder) {
    && OtherSide(s, side, gone) && OtherSide(s, side, moved)
    && Sliding(s, r, gone + SideSlots(s, side, newBase, done, false), moved + SideSlots(s, side, newBase, done, true),
        newBase)
    && lad.levels == MovedLevels(s.Lad(side).levels, s.base, newBase, done)
    && BitmapOk(lad.bitmap, MovedQueues(s.Qs(side), s.base, newBase, done))
  }

  lemma SideMovedStart(s: Store, r: Store, side: Side, newBase: uint32, gone: set<nat>, moved: set<nat>, lad: Ladder)
    requires Sliding(s, r, gone, moved, newBase) && OtherSide(s, side, gone) && OtherSide(s, side, moved)
    requires lad.levels == seq(|s.Qs(side)|, _ => EMPTY_LEVEL) && lad.bitmap == seq((|s.Qs(side)| + 63) / 64, _ => 0)
    ensures SideMoved(s, r, side, newBase, gone, moved, 0, lad)
  {
    SideStart(s, side, newBase, false);
    SideStart(s, side, newBase, true);
    assert SideOk(s, side);
    MovedStart(s.Lad(side).levels, s.Qs(side), s.base, newBase);
    assert gone + {} == gone && moved + {} == moved;
    EmptyBitmap(lad.bitmap, MovedQueues(s.Qs(side), s.base, newBase, 0));
  }

  lemma EmptyBitmap(bm: Bitmap.Words, qs: seq<seq<nat>>)
    requires bm == seq((|qs| + 63) / 64, _ => 0) && qs == seq(|qs|, _ => [])
    ensures BitmapOk(bm, qs)
  {
    forall l: nat
      ensures BitOk(bm, qs, l)
    {
      Bits.BitOfZero(l % 64);
    }
  }

  /** The slots of the next level are still waiting. */
  lemma NextLevelWaits(s: Store, r: Store, side: Side, newBase: uint32, gone: set<nat>, moved: set<nat>, i: nat,
                       lad: Ladder)
    requires SideMoved(s, r, side, newBase, gone, moved, i, lad) && i < |s.Qs(side)|
    ensures Elems(s.Qs(side)[i]) !! gone + SideSlots(s, side, newBase, i, false)
    ensures Elems(s.Qs(side)[i]) !! moved + SideSlots(s, side, newBase, i, true)
  {
    SideStep(s, side, newBase, i, false);
    SideStep(s, side, newBase, i, true);
    forall x | x in s.Qs(side)[i]
      ensures x !in gone && x !in moved
    {
      QueuedIsLive(s, side, i, x);
    }
  }

  /** An empty level, or one outside the new window: the new side stays as it is. */
  lemma SideMovedSkip(s: Store, r: Store, r': Store, side: Side, newBase: uint32, gone: set<nat>, moved: set<nat>,
                      i: nat, lad: Ladder)
    requires SideMoved(s, r, side, newBase, gone, moved, i, lad) && i < |s.Qs(side)|
    requires s.Qs(side)[i] == [] || !Kept(|s.Qs(side)|, s.base, newBase, i)
    requires Sliding(s, r', gone + SideSlots(s, side, newBase, i, false) + Elems(s.Qs(side)[i]),
                     moved + SideSlots(s, side, newBase, i, true), newBase)
    ensures SideMoved(s, r', side, newBase, gone, moved, i + 1, lad)
  {
    SideStep(s, side, newBase, i, false);
    SideStep(s, side, newBase, i, true);
    EmptyIff(s, side, i);
    MovedLevelsStep(s.Lad(side).levels, s.base, newBase, i);
    MovedQueuesStep(s.Qs(side), s.base, newBase, i);
    assert gone + SideSlots(s, side, newBase, i + 1, false)
        == gone + SideSlots(s, side, newBase, i, false) + Elems(s.Qs(side)[i]);
    assert moved + SideSlots(s, side, newBase, i + 1, true) == moved + SideSlots(s, side, newBase, i, true);
  }

  /** Entering a level at its new place. */
  lemma EnterLevel(levels: seq<PriceLevel>, qs: seq<seq<nat>>, base: uint32, newBase: uint32, i: nat, lad: Ladder,
                   nr: uint32)
    requires i < |qs| == |levels| && !levels[i].Empty() && qs[i] != []
    requires Kept(|qs|, base, newBase, i) && nr == base + i - newBase
    requires lad.levels == MovedLevels(levels, base, newBase, i)
             && BitmapOk(lad.bitmap, MovedQueues(qs, base, newBase, i))
    ensures nr < |lad.levels| && nr < 64 * |lad.bitmap|
    ensures lad.levels[nr := levels[i]] == MovedLevels(levels, base, newBase, i + 1)
    ensures BitmapOk(Bitmap.SetBit(lad.bitmap, nr), MovedQueues(qs, base, newBase, i + 1))
  {
    MovedLevelsStep(levels, base, newBase, i);
    MovedQueuesStep(qs, base, newBase, i);
    BitmapUpdate(lad.bitmap, Bitmap.SetBit(lad.bitmap, nr), MovedQueues(qs, base, newBase, i), nr, qs[i]);
  }

  /** A level that stays in the window has been moved to its new place. */
  lemma SideMovedKeep(s: Store, r: Store, r': Store, side: Side, newBase: uint32, gone: set<nat>, moved: set<nat>,
                      i: nat,
                      lad: Ladder, nr: uint32)
    requires SideMoved(s, r, side, newBase, gone, moved, i, lad) && i < |s.Qs(side)|
    requires s.Qs(side)[i] != [] && Kept(|s.Qs(side)|, s.base, newBase, i) && nr == s.base + i - newBase
    requires Sliding(s, r', gone + SideSlots(s, side, newBase, i, false),
                     moved + SideSlots(s, side, newBase, i, true) + Elems(s.Qs(side)[i]), newBase)
    ensures i < |s.Lad(side).levels| && nr < |lad.levels| && nr < 64 * |lad.bitmap|
    ensures SideMoved(s, r', side, newBase, gone, moved, i + 1,
                      Ladder(lad.levels[nr := s.Lad(side).levels[i]], Bitmap.SetBit(lad.bitmap, nr)))
  {
    SideStep(s, side, newBase, i, false);
    SideStep(s, side, newBase, i, true);
    EmptyIff(s, side, i);
    assert SideOk(s, side);
    EnterLevel(s.Lad(side).levels, s.Qs(side), s.base, newBase, i, lad, nr);
    assert moved + SideSlots(s, side, newBase, i + 1, true)
        == moved + SideSlots(s, side, newBase, i, true) + Elems(s.Qs(side)[i]);
    assert gone + SideSlots(s, side, newBase, i + 1, false) == gone + SideSlots(s, side, newBase, i, false);
  }

  lemma SideSlotsSide(s: Store, side: Side, newBase: uint32, done: nat, kept: bool)
    ensures OtherSide(s, side.Opposite(), SideSlots(s, side, newBase, done, kept))
  {
  }

  // ---- after the last level ----

  /** Everything has been moved or dropped. */
  ghost predicate Slid(s: Store, r: Store, newBase: uint32) {
    Sliding(s, r,
            SideSlots(s, Buy, newBase, |s.bidQ|, false) + SideSlots(s, Sell, newBase, |s.askQ|, false),
            SideSlots(s, Buy, newBase, |s.bidQ|, true) + SideSlots(s, Sell, newBase, |s.askQ|, true),
            newBase)
  }

  lemma SidesSized(s: Store)
    requires Sound(s)
    ensures |s.bids.levels| == |s.asks.levels| == |s.bidQ| == |s.askQ|
  {
    assert SideOk(s, Buy) && SideOk(s, Sell);
  }

  lemma SlidFrom(s: Store, r: Store, newBase: uint32, gone: set<nat>, moved: set<nat>)
    requires gone == SideSlots(s, Buy, newBase, |s.bidQ|, false) && moved == SideSlots(s, Buy, newBase, |s.bidQ|, true)
    requires Sliding(s, r, gone + SideSlots(s, Sell, newBase, |s.askQ|, false),
                     moved + SideSlots(s, Sell, newBase, |s.askQ|, true), newBase)
    ensures Slid(s, r, newBase)
  {
  }

  function Swapped(s: Store, r: Store, newBase: uint32, bids: Ladder, asks: Ladder): Store {
    Store(r.pool, r.freeHead, r.free, bids, asks,
          MovedQueues(s.bidQ, s.base, newBase, |s.bidQ|), MovedQueues(s.askQ, s.base, newBase, |s.askQ|),
          r.ids, newBase)
  }

  /** One new side's ladder is the old one seen from the new base. */
  ghost predicate LadderSlid(s: Store, side: Side, newBase: uint32, lad: Ladder) {
    && lad.levels == MovedLevels(s.Lad(side).levels, s.base, newBase, |s.Qs(side)|)
    && BitmapOk(lad.bitmap, MovedQueues(s.Qs(side), s.base, newBase, |s.Qs(side)|))
  }

  /** Where a slot of the old store ends up. */
  lemma SlidSlot(s: Store, r: Store, newBase: uint32, side: Side, i: nat, x: nat)
    requires Slid(s, r, newBase) && i < |s.Qs(side)| && x in s.Qs(side)[i] && Kept(|s.Qs(side)|, s.base, newBase, i)
    ensures x < |s.pool| && s.pool[x].side == side && s.pool[x].price == i
    ensures r.pool[x] == Order(s.pool[x].id, s.pool[x].next, s.pool[x].prev, s.base + i - newBase, s.pool[x].qty, side)
  {
    QueuedIsLive(s, side, i, x);
    assert x in LiveSet(s);
    var gone := SideSlots(s, Buy, newBase, |s.bidQ|, false) + SideSlots(s, Sell, newBase, |s.askQ|, false);
    var moved := SideSlots(s, Buy, newBase, |s.bidQ|, true) + SideSlots(s, Sell, newBase, |s.askQ|, true);
    assert x in moved && x !in gone;
    assert SlotFate(s, r.pool, gone, moved, newBase, x);
  }

  lemma SlidLevel(s: Store, r: Store, newBase: uint32, side: Side, i: nat)
    requires Slid(s, r, newBase) && i < |s.Qs(side)| && Kept(|s.Qs(side)|, s.base, newBase, i)
    requires |s.Lad(side).levels| == |s.Qs(side)|
    ensures s.Qs(side)[i] != [] ==>
              LevelOk(r.pool, s.Qs(side)[i], s.Lad(side).levels[i], side, s.base + i - newBase, newBase)
    ensures QView(r.pool, s.Qs(side)[i]) == QView(s.pool, s.Qs(side)[i])
  {
    var q, l: nat := s.Qs(side)[i], s.base + i - newBase;
    UseLevel(s, side, i);
    forall j | 0 <= j < |q|
      ensures NodeOk(r.pool, q, j, side, l)
    {
      assert NodeOk(s.pool, q, j, side, i) && q[j] in q;
      SlidSlot(s, r, newBase, side, i, q[j]);
    }
    SlidQueueView(s, r, newBase, q);
  }

  lemma SlidQueueView(s: Store, r: Store, newBase: uint32, q: seq<nat>)
    requires Slid(s, r, newBase)
    ensures QView(r.pool, q) == QView(s.pool, q)
  {
    var gone := SideSlots(s, Buy, newBase, |s.bidQ|, false) + SideSlots(s, Sell, newBase, |s.askQ|, false);
    var moved := SideSlots(s, Buy, newBase, |s.bidQ|, true) + SideSlots(s, Sell, newBase, |s.askQ|, true);
    forall j | 0 <= j < |q|
      ensures QView(r.pool, q)[j] == QView(s.pool, q)[j]
    {
      assert q[j] < |s.pool| ==> SlotFate(s, r.pool, gone, moved, newBase, q[j]);
    }
  }

  lemma SlidSide(s: Store, r: Store, newBase: uint32, side: Side, lad: Ladder)
    requires Slid(s, r, newBase) && LadderSlid(s, side, newBase, lad)
    ensures var qs := MovedQueues(s.Qs(side), s.base, newBase, |s.Qs(side)|);
            && SideRep(r.pool, newBase, lad, qs, side)
            && LevelsView(r.pool, qs) == Moved(LevelsView(s.pool, s.Qs(side)), s.base, newBase)
  {
    hide FreeChain, Partition, IdsOk;
    var n := |s.Qs(side)|;
    var qs := MovedQueues(s.Qs(side), s.base, newBase, n);
    assert SideOk(s, side);
    forall l | 0 <= l < n
      ensures LevelAt(r.pool, newBase, lad, qs, side, l)
      ensures QView(r.pool, qs[l]) == Moved(LevelsView(s.pool, s.Qs(side)), s.base, newBase)[l]
    {
      var i: int := newBase + l - s.base;
      if 0 <= i < n {
        SlidLevel(s, r, newBase, side, i);
        EmptyIff(s, side, i);
      }
    }
  }

  lemma SlidLive(s: Store, r: Store, newBase: uint32, bids: Ladder, asks: Ladder, x: nat)
    requires Slid(s, r, newBase) && x < |s.pool|
    requires LadderSlid(s, Buy, newBase, bids) && LadderSlid(s, Sell, newBase, asks)
    ensures var gone := SideSlots(s, Buy, newBase, |s.bidQ|, false) + SideSlots(s, Sell, newBase, |s.askQ|, false);
            Live(Swapped(s, r, newBase, bids, asks), x) <==> Live(s, x) && x !in gone
  {
    var s' := Swapped(s, r, newBase, bids, asks);
    if Live(s', x) {
      var side, l: nat := r.pool[x].side, r.pool[x].price;
      var i: int := newBase + l - s.base;
      assert x in s.Qs(side)[i];
      SlidSlot(s, r, newBase, side, i, x);
      QueuedIsLive(s, side, i, x);
    } else if Live(s, x) && Kept(|s.Qs(s.pool[x].side)|, s.base, newBase, s.pool[x].price) {
      SlidSlot(s, r, newBase, s.pool[x].side, s.pool[x].price, x);
    }
  }

  lemma SlidIds(s: Store, r: Store, gone: set<nat>, moved: set<nat>, newBase: uint32)
    requires Sliding(s, r, gone, moved, newBase)
    ensures IdsOk(r.pool, r.ids, LiveSet(s) - gone, {})
  {
    forall x: nat | x in LiveSet(s) - gone
      ensures SlotMapped(r.pool, r.ids, x)
    {
      assert SlotMapped(s.pool, s.ids, x);
      assert SlotFate(s, r.pool, gone, moved, newBase, x) && IdFate(s, r.ids, gone, s.pool[x].id);
    }
    forall k | k in r.ids
      ensures IdMapped(r.pool, r.ids, LiveSet(s) - gone, {}, k)
    {
      assert IdFate(s, r.ids, gone, k);
      assert IdMapped(s.pool, s.ids, LiveSet(s), {}, k);
      assert SlotFate(s, r.pool, gone, moved, newBase, s.ids[k]);
    }
  }

  lemma SlidPartition(s: Store, r: Store, gone: set<nat>, moved: set<nat>, newBase: uint32)
    requires Sliding(s, r, gone, moved, newBase)
    ensures Partition(|r.pool|, r.free, LiveSet(s) - gone, {})
  {
    forall x: nat | x < |r.pool|
      ensures x in r.free <==> x !in LiveSet(s) - gone
    {
      assert FreeFate(s, r.free, gone, x);
    }
  }

  /** The slid store is in order again, and shows the old levels from the new base. */
  lemma SlidSound(s: Store, r: Store, newBase: uint32, bids: Ladder, asks: Ladder)
    requires Slid(s, r, newBase)
    requires LadderSlid(s, Buy, newBase, bids) && LadderSlid(s, Sell, newBase, asks)
    ensures var s' := Swapped(s, r, newBase, bids, asks);
            && Sound(s')
            && LevelsView(s'.pool, s'.bidQ) == Moved(LevelsView(s.pool, s.bidQ), s.base, newBase)
            && LevelsView(s'.pool, s'.askQ) == Moved(LevelsView(s.pool, s.askQ), s.base, newBase)
  {
    var s' := Swapped(s, r, newBase, bids, asks);
    var gone := SideSlots(s, Buy, newBase, |s.bidQ|, false) + SideSlots(s, Sell, newBase, |s.askQ|, false);
    var moved := SideSlots(s, Buy, newBase, |s.bidQ|, true) + SideSlots(s, Sell, newBase, |s.askQ|, true);
    SlidSide(s, r, newBase, Buy, bids);
    SlidSide(s, r, newBase, Sell, asks);
    forall x: nat
      ensures x in LiveSet(s') <==> x in LiveSet(s) - gone
    {
      if x < |s.pool| {
        SlidLive(s, r, newBase, bids, asks, x);
      }
    }
    SlidIds(s, r, gone, moved, newBase);
    SlidPartition(s, r, gone, moved, newBase);
    InvFromParts(s', {}, LiveSet(s) - gone);
  }

  /** The orders both sides lose when the base moves. */
  ghost function LostIn(s: Store, side: Side, newBase: uint32): nat {
    Lost(LevelsView(s.pool, s.Qs(side)), s.base, newBase, 0)
  }

  /** The orders of one level that a move to the new base loses. */
  ghost function LostAt(s: Store, side: Side, newBase: uint32, i: nat): nat
    requires i < |s.Qs(side)|
  {
    if Kept(|s.Qs(side)|, s.base, newBase, i) then 0 else |s.Qs(side)[i]|
  }

  /** After the levels below i, `lost` orders have gone: that many slots are free again and counted off. */
  ghost predicate Tally(s: Store, side: Side, newBase: uint32, i: nat, lost: nat) {
    lost + Lost(LevelsView(s.pool, s.Qs(side)), s.base, newBase, i) == LostIn(s, side, newBase)
  }

  lemma TallyStep(s: Store, side: Side, newBase: uint32, i: nat, lost: nat)
    requires Tally(s, side, newBase, i, lost) && i < |s.Qs(side)|
    ensures Tally(s, side, newBase, i + 1, lost + LostAt(s, side, newBase, i))
  {
  }

  lemma SlidBook(s: Store, r: Store, newBase: uint32, bids: Ladder, asks: Ladder,
                 tob: TopOfBook, baseSet: bool, live: uint32, live': uint32, log: seq<Trade>)
    requires Slid(s, r, newBase)
    requires LadderSlid(s, Buy, newBase, bids) && LadderSlid(s, Sell, newBase, asks)
    requires |r.free| == |s.free| + LostIn(s, Buy, newBase) + LostIn(s, Sell, newBase)
    requires live' == SatSub(SatSub(live, LostIn(s, Buy, newBase)), LostIn(s, Sell, newBase))
    ensures var s' := Swapped(s, r, newBase, bids, asks);
            Sound(s') && ToBook(s', tob, baseSet, live', log) == Slide(ToBook(s, tob, baseSet, live, log), newBase)
  {
    SlidSound(s, r, newBase, bids, asks);
    var b := ToBook(Swapped(s, r, newBase, bids, asks), tob, baseSet, live', log);
    SameBook(b, Slide(ToBook(s, tob, baseSet, live, log), newBase), Buy);
  }
}
