/**
 The concrete state of the order book as one value, the joint invariant of its redundant structures, and
 what each elementary change of the source does to them.
 */
module BookStore {
  import opened Types
  import opened Pool
  import Bitmap
  import BookSpec

  /** One side: the level array and its bitmap. */
  datatype Ladder = Ladder(levels: seq<PriceLevel>, bitmap: Bitmap.Words)

  /** `bidQ` and `askQ` list, for every level, the pool slots queued there, oldest first. */
  datatype Store = Store(pool: seq<Order>, freeHead: uint32, free: seq<nat>,
                         bids: Ladder, asks: Ladder, bidQ: seq<seq<nat>>, askQ: seq<seq<nat>>,
                         ids: map<uint64, uint32>, base: uint32)
  {
    function Lad(side: Side): Ladder {
      if side.Buy? then bids else asks
    }

    function Qs(side: Side): seq<seq<nat>> {
      if side.Buy? then bidQ else askQ
    }

    function WithSide(side: Side, lad: Ladder, qs: seq<seq<nat>>): Store {
      if side.Buy? then this.(bids := lad, bidQ := qs) else this.(asks := lad, askQ := qs)
    }
  }

  // ---- what a client sees ----

  function SlotView(pool: seq<Order>, x: nat): Resting {
    if x < |pool| then Resting(pool[x].id, pool[x].qty) else Resting(0, 0)
  }

  function QView(pool: seq<Order>, q: seq<nat>): BookSpec.Queue {
    seq(|q|, i requires 0 <= i < |q| => SlotView(pool, q[i]))
  }

  function LevelsView(pool: seq<Order>, qs: seq<seq<nat>>): BookSpec.Levels {
    seq(|qs|, l requires 0 <= l < |qs| => QView(pool, qs[l]))
  }

  // ---- the joint invariant ----

  ghost predicate Linked(pool: seq<Order>, q: seq<nat>, side: Side, l: nat) {
    && (forall i :: 0 <= i < |q| ==> NodeOk(pool, q, i, side, l))
    && Distinct(q)
  }

  ghost predicate NodeOk(pool: seq<Order>, q: seq<nat>, i: nat, side: Side, l: nat)
    requires i < |q|
  {
    && q[i] < |pool|
    && pool[q[i]].prev == LinkAt(q, i - 1)
    && pool[q[i]].next == LinkAt(q, i + 1)
    && pool[q[i]].side == side
    && pool[q[i]].price == l
  }

  ghost predicate LevelOk(pool: seq<Order>, q: seq<nat>, lv: PriceLevel, side: Side, l: nat, base: uint32) {
    && Linked(pool, q, side, l)
    && lv.head == LinkAt(q, 0)
    && lv.tail == LinkAt(q, |q| - 1)
    && lv.count == |q|
    && lv.totalVolume == Wrap32(BookSpec.Volume(QView(pool, q)))
    && (q != [] ==> lv.price == base + l)
  }

  ghost predicate BitmapOk(bm: Bitmap.Words, qs: seq<seq<nat>>) {
    && |bm| == (|qs| + 63) / 64
    && (forall l: nat :: BitOk(bm, qs, l))
  }

  ghost predicate BitOk(bm: Bitmap.Words, qs: seq<seq<nat>>, l: nat) {
    Bitmap.IsSet(bm, l) <==> l < |qs| && qs[l] != []
  }

  ghost predicate SideOk(s: Store, side: Side) {
    SideRep(s.pool, s.base, s.Lad(side), s.Qs(side), side)
  }

  ghost predicate SideRep(pool: seq<Order>, base: uint32, lad: Ladder, qs: seq<seq<nat>>, side: Side) {
    && |lad.levels| == |qs|
    && BitmapOk(lad.bitmap, qs)
    && (forall l :: 0 <= l < |qs| ==> LevelAt(pool, base, lad, qs, side, l))
  }

  ghost predicate LevelAt(pool: seq<Order>, base: uint32, lad: Ladder, qs: seq<seq<nat>>, side: Side, l: nat)
    requires l < |qs| == |lad.levels|
  {
    LevelOk(pool, qs[l], lad.levels[l], side, l, base)
  }

  /** The bitmap after one level was emptied or filled. */
  lemma BitmapUpdate(bm: Bitmap.Words, bm': Bitmap.Words, qs: seq<seq<nat>>, l: nat, q: seq<nat>)
    requires BitmapOk(bm, qs) && l < |qs| && |bm'| == |bm|
    requires forall j: nat :: Bitmap.IsSet(bm', j) <==> (j == l && q != []) || (j != l && Bitmap.IsSet(bm, j))
    ensures BitmapOk(bm', qs[l := q])
  {
    var qs' := qs[l := q];
    forall j: nat
      ensures BitOk(bm', qs', j)
    {
      assert BitOk(bm, qs, j);
    }
  }

  lemma UseLevel(s: Store, side: Side, l: nat)
    requires SideOk(s, side) && l < |s.Qs(side)|
    ensures LevelOk(s.pool, s.Qs(side)[l], s.Lad(side).levels[l], side, l, s.base)
  {
    assert LevelAt(s.pool, s.base, s.Lad(side), s.Qs(side), side, l);
  }

  /** The slot is queued where its own side and price fields say. */
  ghost predicate Live(s: Store, x: nat) {
    && x < |s.pool|
    && s.pool[x].price < |s.Qs(s.pool[x].side)|
    && x in s.Qs(s.pool[x].side)[s.pool[x].price]
  }

  ghost predicate Sized(s: Store) {
    && 1 <= |s.pool| <= NULL_IDX
    && 1 <= |s.bidQ| == |s.askQ| <= NULL_IDX
  }

  ghost function LiveSet(s: Store): set<nat> {
    set x: nat | x < |s.pool| && Live(s, x)
  }

  /** Every slot of n is either free, or queued, or one of those the operation has in hand. */
  ghost predicate Partition(n: nat, free: seq<nat>, live: set<nat>, held: set<nat>) {
    forall x: nat :: x < n ==>
      if x in held then x !in free && x !in live else (x in free <==> x !in live)
  }

  ghost predicate Inv(s: Store, held: set<nat>) {
    && Sized(s)
    && FreeChain(s.pool, s.freeHead, s.free)
    && SideOk(s, Buy) && SideOk(s, Sell)
    && Partition(|s.pool|, s.free, LiveSet(s), held)
  }

  lemma InvFromParts(s: Store, held: set<nat>, live: set<nat>)
    requires Sized(s) && FreeChain(s.pool, s.freeHead, s.free)
    requires SideOk(s, Buy) && SideOk(s, Sell)
    requires live == LiveSet(s) && Partition(|s.pool|, s.free, live, held)
    ensures Inv(s, held)
  {
  }

  /** The id table maps exactly the live ids to their slots, apart from slots in `pending`. */
  ghost predicate IdsOk(pool: seq<Order>, ids: map<uint64, uint32>, live: set<nat>, pending: set<nat>) {
    && (forall x: nat :: x in live && x !in pending ==> SlotMapped(pool, ids, x))
    && (forall k :: k in ids ==> IdMapped(pool, ids, live, pending, k))
  }

  ghost predicate SlotMapped(pool: seq<Order>, ids: map<uint64, uint32>, x: nat) {
    x < |pool| && pool[x].id in ids && ids[pool[x].id] == x
  }

  ghost predicate IdMapped(pool: seq<Order>, ids: map<uint64, uint32>, live: set<nat>, pending: set<nat>, k: uint64)
    requires k in ids
  {
    && ids[k] < |pool| && pool[ids[k]].id == k
    && ((ids[k] as nat) in live || (ids[k] as nat) in pending)
  }

  ghost predicate IdsRep(s: Store, pending: set<nat>) {
    IdsOk(s.pool, s.ids, LiveSet(s), pending)
  }

  // ---- sums ----

  lemma {:induction false} VolumeAppend(a: BookSpec.Queue, b: BookSpec.Queue)
    ensures BookSpec.Volume(a + b) == BookSpec.Volume(a) + BookSpec.Volume(b)
    decreases |a|
  {
    if a == [] {
      assert a + b == b;
    } else {
      assert (a + b)[1..] == a[1..] + b;
      VolumeAppend(a[1..], b);
    }
  }

  lemma VolumeSplit(q: BookSpec.Queue, k: nat)
    requires k < |q|
    ensures BookSpec.Volume(q) == BookSpec.Volume(q[..k]) + q[k].qty + BookSpec.Volume(q[k + 1..])
  {
    hide BookSpec.Volume;
    var rest := [q[k]] + q[k + 1..];
    assert q == q[..k] + rest;
    VolumeAppend(q[..k], rest);
    VolumeCons(q[k], q[k + 1..]);
  }

  lemma VolumeCons(r: Resting, q: BookSpec.Queue)
    ensures BookSpec.Volume([r] + q) == r.qty + BookSpec.Volume(q)
  {
    assert ([r] + q)[1..] == q;
  }

  function Below(n: nat): (s: set<nat>)
    ensures |s| == n
    ensures forall x: nat :: x in s <==> x < n
  {
    if n == 0 then {} else Below(n - 1) + {n - 1}
  }

  /** A queue cannot be longer than the pool. */
  lemma DistinctBounded(q: seq<nat>, n: nat)
    requires Distinct(q) && forall i :: 0 <= i < |q| ==> q[i] < n
    ensures |q| <= n
  {
    DistinctInSet(q, Below(n));
  }

  lemma {:induction false} DistinctInSet(q: seq<nat>, s: set<nat>)
    requires Distinct(q) && forall i :: 0 <= i < |q| ==> q[i] in s
    ensures |q| <= |s|
    decreases |q|
  {
    DistinctPairs(q);
    if q != [] {
      DistinctInSet(q[1..], s - {q[0]});
    }
  }

  // ---- level_remove ----

  function SetNext(pool: seq<Order>, x: nat, v: uint32): (r: seq<Order>) {
    if x < |pool| then pool[x := pool[x].(next := v)] else pool
  }

  function SetPrev(pool: seq<Order>, x: nat, v: uint32): (r: seq<Order>) {
    if x < |pool| then pool[x := pool[x].(prev := v)] else pool
  }

  /** Unlinking a node from its neighbours, as level_remove writes it; NULL_IDX lies outside every pool. */
  function UnlinkPool(pool: seq<Order>, x: nat): (r: seq<Order>)
    requires x < |pool|
  {
    var p := SetPrev(SetNext(pool, pool[x].prev, pool[x].next), pool[x].next, pool[x].prev);
    p[x := p[x].(next := NULL_IDX, prev := NULL_IDX)]
  }

  function UnlinkLevel(lv: PriceLevel, o: Order): PriceLevel {
    lv.(head := if o.prev == NULL_IDX then o.next else lv.head,
        tail := if o.next == NULL_IDX then o.prev else lv.tail,
        totalVolume := Wrap32(lv.totalVolume - o.qty),
        count := Wrap32(lv.count - 1))
  }

  function WithoutSlot(q: seq<nat>, k: nat): seq<nat>
    requires k < |q|
  {
    q[..k] + q[k + 1..]
  }

  lemma UnlinkNodes(pool: seq<Order>, q: seq<nat>, k: nat, side: Side, l: nat)
    requires |pool| <= NULL_IDX && Linked(pool, q, side, l) && k < |q| && q[k] < |pool|
    ensures Linked(UnlinkPool(pool, q[k]), WithoutSlot(q, k), side, l)
    ensures forall x :: 0 <= x < |pool| && x !in q ==> UnlinkPool(pool, q[k])[x] == pool[x]
    ensures forall x :: 0 <= x < |pool| ==>
              UnlinkPool(pool, q[k])[x].id == pool[x].id && UnlinkPool(pool, q[k])[x].qty == pool[x].qty
  {
    DistinctPairs(q);
    assert NodeOk(pool, q, k, side, l);
    var pool', q' := UnlinkPool(pool, q[k]), WithoutSlot(q, k);
    forall i | 0 <= i < |q'|
      ensures NodeOk(pool', q', i, side, l)
    {
      var j := if i < k then i else i + 1;
      assert q'[i] == q[j] && NodeOk(pool, q, j, side, l);
    }
    forall x | 0 <= x < |pool| && x !in q
      ensures pool'[x] == pool[x]
    {
      assert k > 0 ==> q[k - 1] in q;
      assert k + 1 < |q| ==> q[k + 1] in q;
    }
  }

  // ---- changing one level leaves the rest of the book alone ----

  lemma LevelFrame(pool: seq<Order>, pool': seq<Order>, q: seq<nat>, lv: PriceLevel, side: Side, l: nat, base: uint32)
    requires LevelOk(pool, q, lv, side, l, base) && |pool'| == |pool|
    requires forall i :: 0 <= i < |q| && q[i] < |pool| ==> pool'[q[i]] == pool[q[i]]
    ensures LevelOk(pool', q, lv, side, l, base) && QView(pool', q) == QView(pool, q)
  {
    forall i | 0 <= i < |q|
      ensures NodeOk(pool', q, i, side, l)
    {
      assert NodeOk(pool, q, i, side, l);
    }
    assert QView(pool', q) == QView(pool, q);
  }

  /** s' differs from s at most in level l of one side, in slots queued there and in slots queued nowhere. */
  ghost predicate OneLevelChanged(s: Store, s': Store, side: Side, l: nat) {
    var other := side.Opposite();
    && l < |s.Qs(side)| == |s'.Qs(side)| == |s.Lad(side).levels| == |s'.Lad(side).levels|
    && |s'.pool| == |s.pool| && s'.base == s.base
    && s'.Lad(other) == s.Lad(other) && s'.Qs(other) == s.Qs(other)
    && s'.Qs(side) == s.Qs(side)[l := s'.Qs(side)[l]]
    && s'.Lad(side).levels == s.Lad(side).levels[l := s'.Lad(side).levels[l]]
    && (forall x: nat :: Live(s, x) && x !in s.Qs(side)[l] ==> s'.pool[x] == s.pool[x])
  }

  /** A queued slot belongs to one level only: the one its side and price fields name. */
  lemma QueuedIsLive(s: Store, side: Side, l: nat, x: nat)
    requires SideOk(s, side) && l < |s.Qs(side)| && x in s.Qs(side)[l]
    ensures Live(s, x) && s.pool[x].side == side && s.pool[x].price == l
  {
    var q := s.Qs(side)[l];
    UseLevel(s, side, l);
    var i :| 0 <= i < |q| && q[i] == x;
    assert NodeOk(s.pool, q, i, side, l);
  }

  lemma FrameLevel(s: Store, s': Store, side: Side, l: nat, sd: Side, m: nat)
    requires SideOk(s, Buy) && SideOk(s, Sell) && OneLevelChanged(s, s', side, l)
    requires m < |s.Qs(sd)| && (sd != side || m != l)
    ensures s'.Qs(sd)[m] == s.Qs(sd)[m]
    ensures LevelOk(s'.pool, s.Qs(sd)[m], s.Lad(sd).levels[m], sd, m, s.base)
    ensures QView(s'.pool, s.Qs(sd)[m]) == QView(s.pool, s.Qs(sd)[m])
  {
    var q := s.Qs(sd)[m];
    UseLevel(s, sd, m);
    forall i | 0 <= i < |q| && q[i] < |s.pool|
      ensures s'.pool[q[i]] == s.pool[q[i]]
    {
      QueuedIsLive(s, sd, m, q[i]);
      if q[i] in s.Qs(side)[l] {
        QueuedIsLive(s, side, l, q[i]);
      }
    }
    LevelFrame(s.pool, s'.pool, q, s.Lad(sd).levels[m], sd, m, s.base);
  }

  lemma FrameSides(s: Store, s': Store, side: Side, l: nat)
    requires SideOk(s, Buy) && SideOk(s, Sell) && OneLevelChanged(s, s', side, l)
    requires BitmapOk(s'.Lad(side).bitmap, s'.Qs(side))
    requires LevelOk(s'.pool, s'.Qs(side)[l], s'.Lad(side).levels[l], side, l, s'.base)
    ensures SideOk(s', Buy) && SideOk(s', Sell)
  {
    forall sd: Side
      ensures SideOk(s', sd)
    {
      assert |s'.Lad(sd).levels| == |s'.Qs(sd)| && BitmapOk(s'.Lad(sd).bitmap, s'.Qs(sd));
      forall m | 0 <= m < |s'.Qs(sd)|
        ensures LevelAt(s'.pool, s'.base, s'.Lad(sd), s'.Qs(sd), sd, m)
      {
        if sd != side || m != l {
          FrameLevel(s, s', side, l, sd, m);
        }
      }
    }
  }

  lemma StillLive(s: Store, s': Store, side: Side, l: nat, x: nat)
    requires SideOk(s, Buy) && SideOk(s, Sell) && OneLevelChanged(s, s', side, l)
    requires Live(s, x) && x !in s.Qs(side)[l]
    ensures Live(s', x)
  {
    var sd, m := s.pool[x].side, s.pool[x].price;
    assert sd != side || m != l;
    assert s'.Qs(sd)[m] == s.Qs(sd)[m];
  }

  lemma WasLive(s: Store, s': Store, side: Side, l: nat, x: nat)
    requires SideOk(s, Buy) && SideOk(s, Sell) && OneLevelChanged(s, s', side, l)
    requires Live(s', x) && x !in s'.Qs(side)[l]
    ensures Live(s, x) && x !in s.Qs(side)[l]
  {
    var sd, m := s'.pool[x].side, s'.pool[x].price;
    assert sd != side || m != l;
    assert s'.Qs(sd)[m] == s.Qs(sd)[m];
    QueuedIsLive(s, sd, m, x);
    if x in s.Qs(side)[l] {
      QueuedIsLive(s, side, l, x);
    }
  }

  function Elems(q: seq<nat>): set<nat> {
    set x | x in q
  }

  lemma FrameLive(s: Store, s': Store, side: Side, l: nat)
    requires SideOk(s, Buy) && SideOk(s, Sell) && OneLevelChanged(s, s', side, l)
    requires SideOk(s', Buy) && SideOk(s', Sell)
    ensures LiveSet(s') == LiveSet(s) - Elems(s.Qs(side)[l]) + Elems(s'.Qs(side)[l])
  {
    forall x: nat
      ensures x in LiveSet(s') <==> x in Elems(s'.Qs(side)[l]) || (x in LiveSet(s) && x !in Elems(s.Qs(side)[l]))
    {
      if x in s'.Qs(side)[l] {
        QueuedIsLive(s', side, l, x);
      } else if Live(s', x) {
        WasLive(s, s', side, l, x);
      } else if Live(s, x) && x !in s.Qs(side)[l] {
        StillLive(s, s', side, l, x);
      }
    }
  }

  lemma QueueIsLive(s: Store, side: Side, l: nat)
    requires SideOk(s, side) && l < |s.Qs(side)|
    ensures Elems(s.Qs(side)[l]) <= LiveSet(s)
  {
    forall x | x in s.Qs(side)[l]
      ensures x in LiveSet(s)
    {
      QueuedIsLive(s, side, l, x);
    }
  }

  /** All slots of a list are within the pool, and there are at most as many as the pool has. */
  lemma LinkedBounded(pool: seq<Order>, q: seq<nat>, side: Side, l: nat)
    requires Linked(pool, q, side, l)
    ensures forall i :: 0 <= i < |q| ==> q[i] < |pool|
    ensures |q| <= |pool|
  {
    forall i | 0 <= i < |q|
      ensures q[i] < |pool|
    {
      assert NodeOk(pool, q, i, side, l);
    }
    DistinctBounded(q, |pool|);
  }

  lemma FrameView(s: Store, s': Store, side: Side, l: nat)
    requires SideOk(s, Buy) && SideOk(s, Sell) && OneLevelChanged(s, s', side, l)
    ensures LevelsView(s'.pool, s'.Qs(side)) == LevelsView(s.pool, s.Qs(side))[l := QView(s'.pool, s'.Qs(side)[l])]
    ensures var other := side.Opposite(); LevelsView(s'.pool, s'.Qs(other)) == LevelsView(s.pool, s.Qs(other))
  {
    forall sd: Side, m | 0 <= m < |s.Qs(sd)| && (sd != side || m != l)
      ensures QView(s'.pool, s'.Qs(sd)[m]) == QView(s.pool, s.Qs(sd)[m])
    {
      FrameLevel(s, s', side, l, sd, m);
    }
  }
}
