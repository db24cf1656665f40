/** The textbook book: per side an ordered map from price to a FIFO list, and an index from id to level. */
module StlBooks {
  import opened Types
  import opened BookSpec
  import opened BookIds

  type PriceMap = map<nat, Queue>

  /** An index entry names the list; the iterator into it is the element carrying the id. */
  datatype IndexEntry = IndexEntry(side: Side, price: nat)

  datatype Stl = Stl(bids: PriceMap, asks: PriceMap, index: map<uint64, IndexEntry>)
  {
    function Lv(side: Side): PriceMap {
      if side.Buy? then bids else asks
    }

    function With(side: Side, m: PriceMap): Stl {
      if side.Buy? then Stl(m, asks, index) else Stl(bids, m, index)
    }
  }

  /** No list in a map is empty and nothing rests with quantity zero. */
  ghost predicate Occupied(m: PriceMap) {
    forall p :: p in m ==> OccupiedList(m[p])
  }

  ghost predicate OccupiedList(q: Queue) {
    q != [] && forall k :: 0 <= k < |q| ==> q[k].qty > 0
  }

  /** The list at a price; a price without orders has none in the map. */
  function ListAt(s: Stl, side: Side, p: nat): Queue {
    if p in s.Lv(side) then s.Lv(side)[p] else []
  }

  /** What every state of the book satisfies: the index names exactly the queued ids, each once, where they are. */
  ghost predicate Tidy(s: Stl) {
    && Occupied(s.bids) && Occupied(s.asks)
    && (forall side: Side, p: nat, k: nat :: k < |ListAt(s, side, p)| ==> Entered(s, side, p, k))
    && (forall side: Side, p: nat :: DistinctIds(ListAt(s, side, p)))
    && (forall id :: id in s.index ==> Indexed(s, id))
  }

  ghost predicate Entered(s: Stl, side: Side, p: nat, k: nat)
    requires k < |ListAt(s, side, p)|
  {
    var id := ListAt(s, side, p)[k].id;
    id in s.index && s.index[id] == IndexEntry(side, p)
  }

  ghost predicate DistinctIds(q: Queue) {
    forall k: nat, o: nat :: k < o < |q| ==> q[k].id != q[o].id
  }

  ghost predicate Indexed(s: Stl, id: uint64)
    requires id in s.index
  {
    var e := s.index[id];
    e.price in s.Lv(e.side) && IndexOf(s.Lv(e.side)[e.price], id) < |s.Lv(e.side)[e.price]|
  }

  // ---- the ends of an ordered map ----

  /** p is the key an ordered map ends with: the last for bids, the first for asks. */
  ghost predicate IsTop(m: PriceMap, side: Side, p: nat) {
    p in m && forall k :: k in m ==> if side.Buy? then k <= p else p <= k
  }

  lemma TopExists(m: PriceMap, side: Side)
    requires m != map[]
    ensures exists p :: IsTop(m, side, p)
    decreases m.Keys
  {
    var p :| p in m;
    var rest := m - {p};
    if rest == map[] {
      assert forall k :: k in m && k != p ==> k in rest;
      assert IsTop(m, side, p);
    } else {
      TopExists(rest, side);
      var t :| IsTop(rest, side, t);
      assert forall k :: k in m ==> k == p || k in rest;
      assert IsTop(m, side, if (if side.Buy? then p <= t else t <= p) then t else p);
    }
  }

  /** `rbegin()->first` of the bids, `begin()->first` of the asks. */
  function Top(m: PriceMap, side: Side): (p: nat)
    requires m != map[]
    ensures IsTop(m, side, p)
  {
    TopExists(m, side);
    var p :| p in m && forall k :: k in m ==> if side.Buy? then k <= p else p <= k;
    p
  }

  lemma TopIs(m: PriceMap, side: Side, p: nat)
    requires IsTop(m, side, p)
    ensures m != map[] && Top(m, side) == p
  {
  }

  // ---- the operations as functions ----

  function SetLevel(m: PriceMap, p: nat, q: Queue): PriceMap {
    if q == [] then m - {p} else m[p := q]
  }

  /** One turn of a matching loop: the taker trades with the front of the best list. */
  function Take(s: Stl, side: Side, fill: nat): Stl
    requires s.Lv(side) != map[] && Occupied(s.Lv(side))
    requires fill <= s.Lv(side)[Top(s.Lv(side), side)][0].qty
  {
    var m := s.Lv(side);
    var p := Top(m, side);
    var q := m[p];
    var s' := s.With(side, SetLevel(m, p, Consume(q, fill)));
    if fill == q[0].qty then Stl(s'.bids, s'.asks, s.index - {q[0].id}) else s'
  }

  /** Bids and asks are taken while they are within the limit; a market order has none. */
  predicate Crosses(m: PriceMap, side: Side, limited: bool, limit: nat)
  {
    m != map[] && (limited ==> WithinLimit(side, Top(m, side), limit))
  }

  function FrontFill(m: PriceMap, side: Side, qty: nat): (f: nat)
    requires m != map[] && Occupied(m)
    ensures f <= qty && f <= m[Top(m, side)][0].qty
    ensures qty > 0 ==> f > 0
  {
    assert OccupiedList(m[Top(m, side)]);
    Min(qty, m[Top(m, side)][0].qty)
  }

  lemma TakeOccupied(s: Stl, side: Side, fill: nat)
    requires s.Lv(side) != map[] && Occupied(s.Lv(side))
    requires fill <= s.Lv(side)[Top(s.Lv(side), side)][0].qty
    ensures Occupied(Take(s, side, fill).Lv(side))
    ensures Take(s, side, fill).Lv(side.Opposite()) == s.Lv(side.Opposite())
  {
    var m := s.Lv(side);
    var p := Top(m, side);
    var q := Consume(m[p], fill);
    assert OccupiedList(m[p]);
    assert q != [] ==> OccupiedList(q);
    forall k | k in SetLevel(m, p, q)
      ensures OccupiedList(SetLevel(m, p, q)[k])
    {
      assert k != p ==> k in m && OccupiedList(m[k]);
    }
  }

  /** The matching loops: what is left of the taker, and the book. */
  function Match(s: Stl, side: Side, limited: bool, limit: nat, qty: nat): (r: (Stl, nat))
    requires Occupied(s.Lv(side))
    ensures Occupied(r.0.Lv(side)) && r.0.Lv(side.Opposite()) == s.Lv(side.Opposite()) && r.1 <= qty
    decreases qty
  {
    if qty == 0 || !Crosses(s.Lv(side), side, limited, limit) then (s, qty)
    else
      var fill := FrontFill(s.Lv(side), side, qty);
      TakeOccupied(s, side, fill);
      Match(Take(s, side, fill), side, limited, limit, qty - fill)
  }

  lemma MatchStops(s: Stl, side: Side, limited: bool, limit: nat, qty: nat)
    requires Occupied(s.Lv(side)) && (qty == 0 || !Crosses(s.Lv(side), side, limited, limit))
    ensures Match(s, side, limited, limit, qty) == (s, qty)
  {
  }

  lemma MatchTurn(s: Stl, side: Side, limited: bool, limit: nat, qty: nat)
    requires Occupied(s.Lv(side)) && qty > 0 && Crosses(s.Lv(side), side, limited, limit)
    ensures var fill := FrontFill(s.Lv(side), side, qty);
            && Occupied(Take(s, side, fill).Lv(side))
            && Match(s, side, limited, limit, qty) == Match(Take(s, side, fill), side, limited, limit, qty - fill)
  {
    TakeOccupied(s, side, FrontFill(s.Lv(side), side, qty));
  }

  function Append(m: PriceMap, p: nat, r: Resting): PriceMap {
    m[p := (if p in m then m[p] else []) + [r]]
  }

  function Enter(s: Stl, id: uint64, side: Side, price: nat, qty: uint32): Stl {
    Stl(if side.Buy? then Append(s.bids, price, Resting(id, qty)) else s.bids,
        if side.Buy? then s.asks else Append(s.asks, price, Resting(id, qty)),
        s.index[id := IndexEntry(side, price)])
  }

  function InsertOrder(s: Stl, id: uint64, side: Side, price: uint32, qty: uint32): (Stl, bool)
    requires Occupied(s.Lv(side.Opposite()))
  {
    var (s1, left) := Match(s, side.Opposite(), true, price, qty);
    if left > 0 then (Enter(s1, id, side, price, left), true) else (s1, false)
  }

  function MarketOrder(s: Stl, side: Side, qty: uint32): Stl
    requires Occupied(s.Lv(side.Opposite()))
  {
    Match(s, side.Opposite(), false, 0, qty).0
  }

  function CancelOrder(s: Stl, id: uint64): (Stl, bool)
    requires id in s.index ==> Indexed(s, id)
  {
    if id !in s.index then (s, false)
    else
      var e := s.index[id];
      var m := s.Lv(e.side);
      var s' := s.With(e.side, SetLevel(m, e.price, Without(m[e.price], IndexOf(m[e.price], id))));
      (Stl(s'.bids, s'.asks, s.index - {id}), true)
  }

  // ---- what the operations keep ----

  /** Both books agree on all lists but one. */
  ghost predicate SameBut(s: Stl, s': Stl, side: Side, p: nat) {
    forall sd: Side, r: nat :: sd != side || r != p ==> ListAt(s', sd, r) == ListAt(s, sd, r)
  }

  /** One list gave up the order at position k, if any, or lowered its first; the index followed. */
  lemma ShortenedTidy(s: Stl, s': Stl, side: Side, p: nat, k: nat)
    requires Tidy(s) && Occupied(s'.bids) && Occupied(s'.asks) && SameBut(s, s', side, p)
    requires k < |ListAt(s, side, p)| && ListAt(s', side, p) == Without(ListAt(s, side, p), k)
    requires s'.index == s.index - {ListAt(s, side, p)[k].id}
    ensures Tidy(s')
  {
    var q, q' := ListAt(s, side, p), ListAt(s', side, p);
    forall sd: Side, r: nat, o: nat | o < |ListAt(s', sd, r)|
      ensures Entered(s', sd, r, o)
    {
      if sd == side && r == p {
        assert Entered(s, side, p, if o < k then o else o + 1) && DistinctIds(q);
      } else {
        assert Entered(s, sd, r, o) && Entered(s, side, p, k);
      }
    }
    forall sd: Side, r: nat
      ensures DistinctIds(ListAt(s', sd, r))
    {
      assert DistinctIds(ListAt(s, sd, r));
    }
    forall id | id in s'.index
      ensures Indexed(s', id)
    {
      ShortenedIndexed(s, s', side, p, k, id);
    }
  }

  lemma ShortenedIndexed(s: Stl, s': Stl, side: Side, p: nat, k: nat, id: uint64)
    requires id in s.index && Indexed(s, id) && SameBut(s, s', side, p)
    requires k < |ListAt(s, side, p)| && ListAt(s', side, p) == Without(ListAt(s, side, p), k)
    requires id != ListAt(s, side, p)[k].id && id in s'.index && s'.index[id] == s.index[id]
    ensures Indexed(s', id)
  {
    var e := s.index[id];
    if e == IndexEntry(side, p) {
      var o := IndexOf(ListAt(s, side, p), id);
      IndexOfFinds(ListAt(s', side, p), id, if o < k then o else o - 1);
    } else {
      assert ListAt(s', e.side, e.price) == ListAt(s, e.side, e.price);
    }
  }

  lemma LoweredTidy(s: Stl, s': Stl, side: Side, p: nat, m: nat)
    requires Tidy(s) && Occupied(s'.bids) && Occupied(s'.asks) && SameBut(s, s', side, p) && s'.index == s.index
    requires var q := ListAt(s, side, p); q != [] && m <= q[0].qty && ListAt(s', side, p) == Lower(q, 0, m)
    ensures Tidy(s')
  {
    forall sd: Side, r: nat
      ensures SameIds(ListAt(s, sd, r), ListAt(s', sd, r))
    {
    }
    forall sd: Side, r: nat, o: nat | o < |ListAt(s', sd, r)|
      ensures Entered(s', sd, r, o)
    {
      assert SameIds(ListAt(s, sd, r), ListAt(s', sd, r)) && Entered(s, sd, r, o);
    }
    forall sd: Side, r: nat
      ensures DistinctIds(ListAt(s', sd, r))
    {
      assert SameIds(ListAt(s, sd, r), ListAt(s', sd, r)) && DistinctIds(ListAt(s, sd, r));
    }
    forall id | id in s'.index
      ensures Indexed(s', id)
    {
      var e := s.index[id];
      assert Indexed(s, id) && SameIds(ListAt(s, e.side, e.price), ListAt(s', e.side, e.price));
      IndexOfFinds(ListAt(s', e.side, e.price), id, IndexOf(ListAt(s, e.side, e.price), id));
    }
  }

  ghost predicate SameIds(q: Queue, q': Queue) {
    |q'| == |q| && forall k :: 0 <= k < |q| ==> q'[k].id == q[k].id
  }

  lemma TakeTidy(s: Stl, side: Side, fill: nat)
    requires Tidy(s) && s.Lv(side) != map[] && fill <= s.Lv(side)[Top(s.Lv(side), side)][0].qty
    ensures Tidy(Take(s, side, fill))
  {
    hide Tidy, Occupied;
    TidyOccupied(s);
    TakeOccupied(s, side, fill);
    var s' := Take(s, side, fill);
    var p := Top(s.Lv(side), side);
    TakeLists(s, side, fill);
    var q := s.Lv(side)[p];
    assert s'.Lv(side.Opposite()) == s.Lv(side.Opposite());
    if fill == q[0].qty {
      assert q[1..] == Without(q, 0);
      ShortenedTidy(s, s', side, p, 0);
    } else {
      LoweredTidy(s, s', side, p, fill);
    }
  }

  lemma TidyOccupied(s: Stl)
    requires Tidy(s)
    ensures Occupied(s.bids) && Occupied(s.asks)
    ensures forall id :: id in s.index ==> Indexed(s, id)
  {
  }

  /** A turn touches one list. */
  lemma TakeLists(s: Stl, side: Side, fill: nat)
    requires s.Lv(side) != map[] && Occupied(s.Lv(side)) && fill <= s.Lv(side)[Top(s.Lv(side), side)][0].qty
    ensures var p, s' := Top(s.Lv(side), side), Take(s, side, fill);
            s.Lv(side)[p] != [] && SameBut(s, s', side, p) && ListAt(s', side, p) == Consume(s.Lv(side)[p], fill)
  {
  }

  lemma {:induction false} MatchTidy(s: Stl, side: Side, limited: bool, limit: nat, qty: nat)
    requires Tidy(s) && Occupied(s.Lv(side))
    ensures var s' := Match(s, side, limited, limit, qty).0; Tidy(s') && s'.index.Keys <= s.index.Keys
    decreases qty
  {
    hide Tidy, Occupied, Top;
    if qty > 0 && Crosses(s.Lv(side), side, limited, limit) {
      var fill := FrontFill(s.Lv(side), side, qty);
      TakeOccupied(s, side, fill);
      TakeTidy(s, side, fill);
      MatchTidy(Take(s, side, fill), side, limited, limit, qty - fill);
    }
  }

  /** A new id goes to the end of its list and into the index. */
  lemma AppendedTidy(s: Stl, s': Stl, side: Side, p: nat, r: Resting)
    requires Tidy(s) && Occupied(s'.bids) && Occupied(s'.asks) && SameBut(s, s', side, p) && r.id !in s.index
    requires ListAt(s', side, p) == ListAt(s, side, p) + [r] && s'.index == s.index[r.id := IndexEntry(side, p)]
    ensures Tidy(s')
  {
    var q := ListAt(s, side, p);
    forall sd: Side, o: nat, k: nat | k < |ListAt(s', sd, o)|
      ensures Entered(s', sd, o, k)
    {
      if sd != side || o != p || k < |q| {
        assert Entered(s, sd, o, k);
      }
    }
    forall sd: Side, o: nat
      ensures DistinctIds(ListAt(s', sd, o))
    {
      assert DistinctIds(ListAt(s, sd, o));
      if sd == side && o == p {
        forall k: nat | k < |q|
          ensures q[k].id != r.id
        {
          assert Entered(s, side, p, k);
        }
      }
    }
    forall i | i in s'.index
      ensures Indexed(s', i)
    {
      if i == r.id {
        IndexOfFinds(q + [r], i, |q|);
      } else {
        EnterIndexed(s, s', side, p, q, r, i);
      }
    }
  }

  lemma EnterTidy(s: Stl, id: uint64, side: Side, price: nat, qty: uint32)
    requires Tidy(s) && id !in s.index && qty > 0
    ensures Tidy(Enter(s, id, side, price, qty))
  {
    hide Tidy, Occupied;
    TidyOccupied(s);
    EnterLists(s, id, side, price, qty);
    AppendedTidy(s, Enter(s, id, side, price, qty), side, price, Resting(id, qty));
  }

  lemma EnterIndexed(s: Stl, s': Stl, side: Side, p: nat, q: Queue, r: Resting, i: uint64)
    requires i in s.index && Indexed(s, i) && i in s'.index && s'.index[i] == s.index[i]
    requires SameBut(s, s', side, p) && q == ListAt(s, side, p) && ListAt(s', side, p) == q + [r]
    ensures Indexed(s', i)
  {
    var e := s.index[i];
    var o := IndexOf(ListAt(s, e.side, e.price), i);
    assert ListAt(s', e.side, e.price)[o].id == i;
    IndexOfFinds(ListAt(s', e.side, e.price), i, o);
  }

  lemma EnterLists(s: Stl, id: uint64, side: Side, price: nat, qty: uint32)
    requires Occupied(s.bids) && Occupied(s.asks) && qty > 0
    ensures var s' := Enter(s, id, side, price, qty);
            && Occupied(s'.bids) && Occupied(s'.asks) && SameBut(s, s', side, price)
            && ListAt(s', side, price) == ListAt(s, side, price) + [Resting(id, qty)]
  {
    var m, r := s.Lv(side), Resting(id, qty);
    forall p | p in Append(m, price, r)
      ensures OccupiedList(Append(m, price, r)[p])
    {
      assert p in m ==> OccupiedList(m[p]);
    }
  }

  lemma InsertTidy(s: Stl, id: uint64, side: Side, price: uint32, qty: uint32)
    requires Tidy(s) && id !in s.index
    ensures Occupied(s.Lv(side.Opposite())) && Tidy(InsertOrder(s, id, side, price, qty).0)
  {
    hide Tidy, Match, Enter;
    TidyOccupied(s);
    MatchTidy(s, side.Opposite(), true, price, qty);
    var (s1, left) := Match(s, side.Opposite(), true, price, qty);
    if left > 0 {
      EnterTidy(s1, id, side, price, left);
    }
  }

  /** A list without the orders that carry an id. */
  function WithoutId(q: Queue, id: uint64): Queue {
    if q == [] then [] else (if q[0].id == id then [] else [q[0]]) + WithoutId(q[1..], id)
  }

  lemma {:induction false} WithoutIdSame(q: Queue, id: uint64)
    requires forall k: nat :: k < |q| ==> q[k].id != id
    ensures WithoutId(q, id) == q
  {
    if q != [] {
      WithoutIdSame(q[1..], id);
    }
  }

  lemma {:induction false} WithoutIdOnce(q: Queue, id: uint64)
    requires DistinctIds(q) && IndexOf(q, id) < |q|
    ensures WithoutId(q, id) == Without(q, IndexOf(q, id))
  {
    if q[0].id == id {
      forall k: nat | k < |q[1..]|
        ensures q[1..][k].id != id
      {
        assert q[k + 1].id != q[0].id;
      }
      WithoutIdSame(q[1..], id);
    } else {
      WithoutIdOnce(q[1..], id);
      assert Without(q, IndexOf(q, id)) == [q[0]] + Without(q[1..], IndexOf(q[1..], id));
    }
  }

  /** The id is queued somewhere. */
  ghost predicate Queues(s: Stl, id: uint64) {
    exists side: Side, p: nat :: IndexOf(ListAt(s, side, p), id) < |ListAt(s, side, p)|
  }

  lemma QueuesIndexed(s: Stl, id: uint64)
    requires Tidy(s)
    ensures Queues(s, id) <==> id in s.index
    ensures id in s.index ==> Indexed(s, id)
  {
    if id in s.index {
      var e := s.index[id];
      assert IndexOf(ListAt(s, e.side, e.price), id) < |ListAt(s, e.side, e.price)|;
    }
    if Queues(s, id) {
      var side: Side, p: nat :| IndexOf(ListAt(s, side, p), id) < |ListAt(s, side, p)|;
      assert Entered(s, side, p, IndexOf(ListAt(s, side, p), id));
    }
  }

  /** An id the index places elsewhere is not in a list. */
  lemma NotInOtherList(s: Stl, side: Side, p: nat, id: uint64)
    requires Tidy(s) && (id in s.index ==> s.index[id] != IndexEntry(side, p))
    ensures WithoutId(ListAt(s, side, p), id) == ListAt(s, side, p)
  {
    forall k: nat | k < |ListAt(s, side, p)|
      ensures ListAt(s, side, p)[k].id != id
    {
      assert Entered(s, side, p, k);
    }
    WithoutIdSame(ListAt(s, side, p), id);
  }

  /** Cancelling takes the id out of whatever list it is in, and touches nothing else. */
  lemma CancelTakesOut(s: Stl, id: uint64)
    requires Tidy(s)
    ensures id in s.index ==> Indexed(s, id)
    ensures var (s', found) := CancelOrder(s, id);
            && Tidy(s') && (found <==> Queues(s, id)) && id !in s'.index
            && forall side: Side, p: nat :: ListAt(s', side, p) == WithoutId(ListAt(s, side, p), id)
  {
    hide Tidy, WithoutId, IndexOf;
    QueuesIndexed(s, id);
    var (s', found) := CancelOrder(s, id);
    if id in s.index {
      var e := s.index[id];
      TidyOccupied(s);
      CancelLists(s, id);
      ListDistinct(s, e.side, e.price);
      WithoutIdOnce(ListAt(s, e.side, e.price), id);
      ShortenedTidy(s, s', e.side, e.price, IndexOf(ListAt(s, e.side, e.price), id));
    }
    forall side: Side, p: nat
      ensures ListAt(s', side, p) == WithoutId(ListAt(s, side, p), id)
    {
      if id !in s.index || s.index[id] != IndexEntry(side, p) {
        NotInOtherList(s, side, p, id);
      }
    }
  }

  lemma ListDistinct(s: Stl, side: Side, p: nat)
    requires Tidy(s)
    ensures DistinctIds(ListAt(s, side, p))
  {
  }

  lemma CancelLists(s: Stl, id: uint64)
    requires id in s.index && Indexed(s, id) && Occupied(s.bids) && Occupied(s.asks)
    ensures var s', e := CancelOrder(s, id).0, s.index[id];
            var q := ListAt(s, e.side, e.price);
            && Occupied(s'.bids) && Occupied(s'.asks) && SameBut(s, s', e.side, e.price) && s'.index == s.index - {id}
            && ListAt(s', e.side, e.price) == Without(q, IndexOf(q, id)) && q[IndexOf(q, id)].id == id
  {
    var e := s.index[id];
    var m := s.Lv(e.side);
    var q := Without(m[e.price], IndexOf(m[e.price], id));
    assert OccupiedList(m[e.price]);
    forall p | p in SetLevel(m, e.price, q)
      ensures OccupiedList(SetLevel(m, e.price, q)[p])
    {
      assert p != e.price ==> p in m && OccupiedList(m[p]);
    }
  }

  // ---- the class ----

  class StlOrderBook {
    var bids: PriceMap
    var asks: PriceMap
    var index: map<uint64, IndexEntry>

    ghost function State(): Stl
      reads this
    {
      Stl(bids, asks, index)
    }

    constructor ()
      ensures State() == Stl(map[], map[], map[]) && Tidy(State())
    {
      bids, asks, index := map[], map[], map[];
    }

    /** The body shared by the four matching loops. */
    method TakeFront(side: Side, qty: uint32) returns (left: uint32)
      requires Occupied(State().Lv(side)) && State().Lv(side) != map[] && qty > 0
      modifies this
      ensures var fill := FrontFill(old(State()).Lv(side), side, qty);
              left == qty - fill && State() == Take(old(State()), side, fill)
    {
      var m := if side.Buy? then bids else asks;
      var p := Top(m, side);
      assert OccupiedList(m[p]);
      var level := m[p];
      var fill := Min(qty, level[0].qty);
      left := qty - fill;
      var resting := Resting(level[0].id, level[0].qty - fill);
      level := level[0 := resting];
      m := m[p := level];
      if resting.qty == 0 {
        index := index - {resting.id};
        level := level[1..];
        m := m[p := level];
        if level == [] {
          m := m - {p};
        }
      }
      if side.Buy? {
        bids := m;
      } else {
        asks := m;
      }
      ghost var was := old(State()).Lv(side);
      assert level == Consume(was[p], fill);
      assert m == SetLevel(was, p, level);
    }

    method InsertLimitOrder(id: uint64, side: Side, price: uint32, qty: uint32) returns (rests: bool)
      requires Tidy(State())
      modifies this
      ensures Occupied(old(State()).Lv(side.Opposite()))
      ensures (State(), rests) == InsertOrder(old(State()), id, side, price, qty)
      ensures id !in old(index) ==> Tidy(State())
    {
      hide Tidy, Match, Occupied, Top, Take;
      TidyOccupied(State());
      var left := qty;
      var other := side.Opposite();
      while left > 0 && (other.Buy? ==> bids != map[] && Top(bids, Buy) >= price)
                     && (other.Sell? ==> asks != map[] && Top(asks, Sell) <= price)
        invariant Occupied(State().Lv(other))
        invariant Match(State(), other, true, price, left) == Match(old(State()), other, true, price, qty)
        decreases left
      {
        MatchTurn(State(), other, true, price, left);
        left := TakeFront(other, left);
      }
      MatchStops(State(), other, true, price, left);
      rests := left > 0;
      if rests {
        if side.Buy? {
          bids := Append(bids, price, Resting(id, left));
        } else {
          asks := Append(asks, price, Resting(id, left));
        }
        index := index[id := IndexEntry(side, price)];
      }
      if id !in old(index) {
        InsertTidy(old(State()), id, side, price, qty);
      }
    }

    method ProcessMarketOrder(side: Side, qty: uint32)
      requires Tidy(State())
      modifies this
      ensures Occupied(old(State()).Lv(side.Opposite())) && State() == MarketOrder(old(State()), side, qty)
      ensures Tidy(State())
    {
      hide Tidy, Match, Occupied, Top, Take;
      TidyOccupied(State());
      MatchTidy(State(), side.Opposite(), false, 0, qty);
      var left := qty;
      var other := side.Opposite();
      while left > 0 && (other.Buy? ==> bids != map[]) && (other.Sell? ==> asks != map[])
        invariant Occupied(State().Lv(other))
        invariant Match(State(), other, false, 0, left) == Match(old(State()), other, false, 0, qty)
        decreases left
      {
        MatchTurn(State(), other, false, 0, left);
        left := TakeFront(other, left);
      }
      MatchStops(State(), other, false, 0, left);
    }

    method Cancel(id: uint64) returns (found: bool)
      requires Tidy(State())
      modifies this
      ensures id in old(index) ==> Indexed(old(State()), id)
      ensures (State(), found) == CancelOrder(old(State()), id)
      ensures Tidy(State()) && id !in index && (found <==> Queues(old(State()), id))
      ensures forall side: Side, p: nat :: ListAt(State(), side, p) == WithoutId(ListAt(old(State()), side, p), id)
    {
      hide Tidy, WithoutId, IndexOf, Queues;
      CancelTakesOut(State(), id);
      if id !in index {
        return false;
      }
      var e := index[id];
      var m := if e.side.Buy? then bids else asks;
      var level := Without(m[e.price], IndexOf(m[e.price], id));
      m := m[e.price := level];
      if level == [] {
        m := m - {e.price};
      }
      assert m == SetLevel(old(State()).Lv(e.side), e.price, level);
      if e.side.Buy? {
        bids := m;
      } else {
        asks := m;
      }
      index := index - {id};
      found := true;
    }
  }
}
