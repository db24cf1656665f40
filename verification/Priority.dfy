/**
 Price-time priority. The resting orders of a side, best price first and oldest first within a price, form one
 list; matching trades down a prefix of that list and leaves the rest of it.
 */
module Priority {
  import opened Types
  import opened BookSpec
  import opened BookWf
  import opened Quotes
  import opened Totals

  datatype Offer = Offer(level: nat, order: Resting)

  function AtLevel(l: nat, q: Queue): seq<Offer> {
    seq(|q|, i requires 0 <= i < |q| => Offer(l, q[i]))
  }

  function NextOut(side: Side, l: int): int {
    if side.Buy? then l - 1 else l + 1
  }

  /** The orders resting within the limit, from level `from` outward. */
  function Offers(ls: Levels, side: Side, from: int, limit: nat): seq<Offer>
    decreases if side.Buy? then from + 1 else |ls| - from
  {
    if from < 0 || from >= |ls| || !WithinLimit(side, from, limit) then []
    else AtLevel(from, ls[from]) + Offers(ls, side, NextOut(side, from), limit)
  }

  function Innermost(ls: Levels, side: Side): int {
    if side.Buy? then |ls| - 1 else 0
  }

  function InPriority(b: Book, side: Side, limit: nat): seq<Offer> {
    Offers(b.Lv(side), side, Innermost(b.Lv(side), side), limit)
  }

  /** Trading `rem` units down a list of offers. */
  function Fills(os: seq<Offer>, taker: uint64, base: nat, rem: nat): seq<Trade> {
    if os == [] || rem == 0 then []
    else
      var m := Min(rem, os[0].order.qty);
      [Trade(os[0].order.id, taker, base + os[0].level, m)] + Fills(os[1..], taker, base, rem - m)
  }

  function Leftover(os: seq<Offer>, rem: nat): seq<Offer> {
    if os == [] || rem == 0 then os
    else if rem >= os[0].order.qty then Leftover(os[1..], rem - os[0].order.qty)
    else [Offer(os[0].level, Resting(os[0].order.id, os[0].order.qty - rem))] + os[1..]
  }

  function Unfilled(os: seq<Offer>, rem: nat): nat {
    if os == [] then rem else if rem <= os[0].order.qty then 0 else Unfilled(os[1..], rem - os[0].order.qty)
  }

  // ---- the list of offers ----

  lemma {:induction false} OffersFrame(ls: Levels, ls': Levels, side: Side, from: int, limit: nat)
    requires |ls'| == |ls|
    requires forall j: nat :: j < |ls| && (if side.Buy? then j <= from else j >= from) ==> ls'[j] == ls[j]
    ensures Offers(ls', side, from, limit) == Offers(ls, side, from, limit)
    decreases if side.Buy? then from + 1 else |ls| - from
  {
    if 0 <= from < |ls| && WithinLimit(side, from, limit) {
      OffersFrame(ls, ls', side, NextOut(side, from), limit);
    }
  }

  /** Empty levels contribute nothing. */
  lemma {:induction false} OffersSkip(ls: Levels, side: Side, from: int, best: nat, limit: nat)
    requires 0 <= from < |ls| && best < |ls| && Outward(side, from, best) && WithinLimit(side, best, limit)
    requires forall j: nat :: j < |ls| && Outward(side, from, j) && !Outward(side, best, j) ==> ls[j] == []
    ensures Offers(ls, side, from, limit) == Offers(ls, side, best, limit)
    decreases if side.Buy? then from + 1 else |ls| - from
  {
    if from != best {
      assert AtLevel(from, ls[from]) == [];
      OffersSkip(ls, side, NextOut(side, from), best, limit);
    }
  }

  lemma {:induction false} OffersNone(ls: Levels, side: Side, from: int, limit: nat)
    requires forall j: nat :: j < |ls| && WithinLimit(side, j, limit) ==> ls[j] == []
    ensures Offers(ls, side, from, limit) == []
    decreases if side.Buy? then from + 1 else |ls| - from
  {
    if 0 <= from < |ls| && WithinLimit(side, from, limit) {
      assert AtLevel(from, ls[from]) == [];
      OffersNone(ls, side, NextOut(side, from), limit);
    }
  }

  /** With an exact best, the list starts at the best level. */
  lemma OffersFromBest(ls: Levels, side: Side, best: uint32, limit: nat)
    requires BestOf(ls, side, best) && best < |ls| <= NULL_IDX && WithinLimit(side, best, limit)
    ensures Offers(ls, side, Innermost(ls, side), limit)
         == AtLevel(best, ls[best]) + Offers(ls, side, NextOut(side, best), limit)
  {
    forall j: nat | j < |ls| && Outward(side, Innermost(ls, side), j) && !Outward(side, best, j)
      ensures ls[j] == []
    {
      assert ls[j] != [] ==> NotBetter(side, best, j);
    }
    OffersSkip(ls, side, Innermost(ls, side), best, limit);
  }

  /** The offer list of the best level's side once that level's queue has been replaced. */
  lemma OffersAfter(ls: Levels, side: Side, best: uint32, limit: nat, q: Queue)
    requires BestOf(ls, side, best) && best < |ls| <= NULL_IDX && WithinLimit(side, best, limit)
    ensures Offers(ls[best := q], side, Innermost(ls, side), limit)
         == AtLevel(best, q) + Offers(ls, side, NextOut(side, best), limit)
  {
    var ls' := ls[best := q];
    forall j: nat | j < |ls| && Outward(side, Innermost(ls, side), j) && !Outward(side, best, j)
      ensures ls'[j] == []
    {
      assert ls[j] != [] ==> NotBetter(side, best, j);
    }
    OffersSkip(ls', side, Innermost(ls, side), best, limit);
    OffersFrame(ls, ls', side, NextOut(side, best), limit);
  }

  /** What is left of a list of offers when its first gives m units. */
  function HeadGives(os: seq<Offer>, m: nat): seq<Offer>
    requires os != [] && m <= os[0].order.qty
  {
    if m == os[0].order.qty then os[1..]
    else [Offer(os[0].level, Resting(os[0].order.id, os[0].order.qty - m))] + os[1..]
  }

  lemma HeadGivesLevel(l: nat, q: Queue, m: nat, tail: seq<Offer>)
    requires q != [] && m <= q[0].qty
    ensures AtLevel(l, q) != [] && AtLevel(l, q)[0] == Offer(l, q[0])
    ensures AtLevel(l, Consume(q, m)) + tail == HeadGives(AtLevel(l, q) + tail, m)
  {
    var rest := AtLevel(l, q[1..]);
    assert AtLevel(l, q) == [Offer(l, q[0])] + rest;
    PrependAssoc(Offer(l, q[0]), rest, tail);
    if m < q[0].qty {
      var x := Offer(l, Resting(q[0].id, q[0].qty - m));
      assert AtLevel(l, Consume(q, m)) == [x] + rest;
      PrependAssoc(x, rest, tail);
    }
  }

  lemma PrependAssoc(x: Offer, rest: seq<Offer>, tail: seq<Offer>)
    ensures ([x] + rest) + tail == [x] + (rest + tail)
    ensures (([x] + rest) + tail)[1..] == rest + tail
  {
  }

  lemma FillStepOffers(b: Book, side: Side, taker: uint64, limit: nat, rem: uint32)
    requires Exact(b, side) && |b.Lv(side)| <= NULL_IDX && rem > 0 && Marketable(b, side, limit)
    ensures var os, m := InPriority(b, side, limit), FillQty(b, side, rem);
            && os != [] && os[0] == Offer(b.Best(side), b.Lv(side)[b.Best(side)][0]) && m == Min(rem, os[0].order.qty)
            && InPriority(FillStep(b, side, taker, rem), side, limit) == HeadGives(os, m)
  {
    var ls, best := b.Lv(side), b.Best(side);
    var q, m := ls[best], FillQty(b, side, rem);
    FillStepParts(b, side, taker, rem);
    OffersFromBest(ls, side, best, limit);
    OffersAfter(ls, side, best, limit, Consume(q, m));
    HeadGivesLevel(best, q, m, Offers(ls, side, NextOut(side, best), limit));
  }

  // ---- matching is trading down the list ----

  /** b' and `left` are what trading `rem` units down b's priority list comes to. */
  ghost predicate TradedDown(b: Book, side: Side, taker: uint64, limit: nat, rem: nat, b': Book, left: nat) {
    var os := InPriority(b, side, limit);
    && b'.log == b.log + Fills(os, taker, b.base, rem)
    && left == Unfilled(os, rem)
    && InPriority(b', side, limit) == Leftover(os, rem)
    && |b'.Lv(side)| == |b.Lv(side)|
    && forall j :: 0 <= j < |b.Lv(side)| && !WithinLimit(side, j, limit) ==> b'.Lv(side)[j] == b.Lv(side)[j]
  }

  /** Matching trades exactly a prefix of the priority list and leaves exactly the rest of it. */
  lemma {:induction false} SweepIsPriority(b: Book, side: Side, taker: uint64, limit: nat, rem: uint32)
    requires Wf(b) && Exact(b, side)
    ensures var (b', left) := Sweep(b, side, taker, limit, rem); TradedDown(b, side, taker, limit, rem, b', left)
    decreases Count(b.Lv(side)), rem
  {
    hide FillStep, WfLevels, BestOf, Wf;
    BestThere(b, side);
    if rem == 0 {
      assert b.log + [] == b.log;
    } else if !Marketable(b, side, limit) {
      NothingMarketable(b, side, limit);
      assert b.log + [] == b.log;
    } else {
      var m := FillQty(b, side, rem);
      FillStepExact(b, side, taker, rem);
      FillStepShrinks(b, side, taker, rem);
      var f := FillStep(b, side, taker, rem);
      SweepIsPriority(f, side, taker, limit, rem - m);
      var (b', left) := Sweep(f, side, taker, limit, rem - m);
      TradedDownStep(b, side, taker, limit, rem, b', left);
    }
  }

  /** A match with this taker is trading down the priority list. */
  ghost predicate SweepsInPriority(b: Book, side: Side, taker: uint64, limit: nat, rem: uint32)
    requires |b.Lv(side)| <= NULL_IDX
  {
    var (b', left) := Sweep(b, side, taker, limit, rem);
    TradedDown(b, side, taker, limit, rem, b', left)
  }

  /**
   Every match against a side follows price-time priority if and only if the cached best of that side is exact,
   whatever the other side is like.
   */
  lemma PriorityIff(b: Book, side: Side)
    requires Wf(b)
    ensures |b.Lv(side)| <= NULL_IDX
    ensures (forall taker: uint64, limit: nat, rem: uint32 :: SweepsInPriority(b, side, taker, limit, rem))
       <==> Exact(b, side)
  {
    hide Wf, Exact, Sweep, TradedDown;
    BestThere(b, side);
    if Exact(b, side) {
      forall taker: uint64, limit: nat, rem: uint32
        ensures SweepsInPriority(b, side, taker, limit, rem)
      {
        SweepIsPriority(b, side, taker, limit, rem);
      }
    } else {
      var j := StaleMatch(b, side);
      assert !SweepsInPriority(b, side, 0, j, 1);
    }
  }

  /** With a stale best, a taker of one unit whose limit is the better level does not trade though it should. */
  lemma StaleMatch(b: Book, side: Side) returns (j: nat)
    requires Wf(b) && !Exact(b, side)
    ensures |b.Lv(side)| <= NULL_IDX && !SweepsInPriority(b, side, 0, j, 1)
  {
    hide Offers, Sweep;
    BestThere(b, side);
    var ls := b.Lv(side);
    j :| j < |ls| && ls[j] != [] && !NotBetter(side, b.Best(side), j);
    SweepStops(b, side, 0, j, 1);
    OffersAt(b, side, j);
  }

  /** The list up to an occupied level starts with an order of at least one unit. */
  lemma OffersAt(b: Book, side: Side, j: nat)
    requires Wf(b) && j < |b.Lv(side)| && b.Lv(side)[j] != []
    ensures var os := InPriority(b, side, j); os != [] && os[0].order.qty > 0
  {
    var ls := b.Lv(side);
    var start := OffersFifo(ls, side, Innermost(ls, side), j, j);
    OffersRest(ls, side, Innermost(ls, side), j, 0);
    assert WfSide(b, side) && WfQueue(b.base, InPriority(b, side, j)[0].level, ls[InPriority(b, side, j)[0].level]);
  }

  lemma NothingMarketable(b: Book, side: Side, limit: nat)
    requires Exact(b, side) && |b.Lv(side)| <= NULL_IDX && !Marketable(b, side, limit)
    ensures InPriority(b, side, limit) == []
  {
    forall j: nat | j < |b.Lv(side)| && WithinLimit(side, j, limit)
      ensures b.Lv(side)[j] == []
    {
      assert b.Lv(side)[j] != [] ==> NotBetter(side, b.Best(side), j);
    }
    OffersNone(b.Lv(side), side, Innermost(b.Lv(side), side), limit);
  }

  lemma TradedDownStep(b: Book, side: Side, taker: uint64, limit: nat, rem: uint32, b': Book, left: nat)
    requires Exact(b, side) && |b.Lv(side)| <= NULL_IDX && rem > 0 && Marketable(b, side, limit)
    requires TradedDown(FillStep(b, side, taker, rem), side, taker, limit, rem - FillQty(b, side, rem), b', left)
    ensures TradedDown(b, side, taker, limit, rem, b', left)
  {
    hide FillStep, Offers, Exact;
    var os, m := InPriority(b, side, limit), FillQty(b, side, rem);
    FillStepOffers(b, side, taker, limit, rem);
    FillStepParts(b, side, taker, rem);
    FillsUnfold(os, taker, b.base, rem);
    var t := Trade(os[0].order.id, taker, b.base + os[0].level, m);
    var rest := Fills(HeadGives(os, m), taker, b.base, rem - m);
    assert (b.log + [t]) + rest == b.log + ([t] + rest);
  }

  /** Peeling one trade off, with what is left of the first offer put back when it was not used up. */
  lemma FillsUnfold(os: seq<Offer>, taker: uint64, base: nat, rem: nat)
    requires os != [] && rem > 0
    ensures var m := Min(rem, os[0].order.qty);
            && Fills(os, taker, base, rem)
               == [Trade(os[0].order.id, taker, base + os[0].level, m)] + Fills(HeadGives(os, m), taker, base, rem - m)
            && Leftover(os, rem) == Leftover(HeadGives(os, m), rem - m)
            && Unfilled(os, rem) == Unfilled(HeadGives(os, m), rem - m)
  {
  }

  // ---- what trading down a list means ----

  function Offered(os: seq<Offer>): nat {
    if os == [] then 0 else os[0].order.qty + Offered(os[1..])
  }

  /** Makers are met in list order at their own price, and every one but the last gives all it has. */
  lemma {:induction false} FillsInOrder(os: seq<Offer>, taker: uint64, base: nat, rem: nat, k: nat)
    requires k < |Fills(os, taker, base, rem)|
    ensures |Fills(os, taker, base, rem)| <= |os|
    ensures var t := Fills(os, taker, base, rem)[k];
            && t.maker == os[k].order.id && t.taker == taker && t.price == base + os[k].level
            && t.qty <= os[k].order.qty
            && (k + 1 < |Fills(os, taker, base, rem)| ==> t.qty == os[k].order.qty)
    decreases |os|
  {
    var m := Min(rem, os[0].order.qty);
    if k > 0 {
      FillsInOrder(os[1..], taker, base, rem - m, k - 1);
    } else if Fills(os[1..], taker, base, rem - m) != [] {
      FillsInOrder(os[1..], taker, base, rem - m, 0);
    }
  }

  /** Quantity is neither made nor lost: the taker's on one hand, the list's on the other. */
  lemma {:induction false} FillsConserve(os: seq<Offer>, taker: uint64, base: nat, rem: nat)
    ensures Traded(Fills(os, taker, base, rem)) + Unfilled(os, rem) == rem
    ensures Traded(Fills(os, taker, base, rem)) + Offered(Leftover(os, rem)) == Offered(os)
    ensures Unfilled(os, rem) > 0 ==> Leftover(os, rem) == []
  {
    if os != [] && rem > 0 {
      FillsConserve(os[1..], taker, base, rem - Min(rem, os[0].order.qty));
    }
  }

  /** Every offer on the list is within the limit and resting where the list says. */
  lemma {:induction false} OffersRest(ls: Levels, side: Side, from: int, limit: nat, k: nat)
    requires k < |Offers(ls, side, from, limit)|
    ensures var o := Offers(ls, side, from, limit)[k];
            && o.level < |ls| && WithinLimit(side, o.level, limit) && o.order in ls[o.level]
            && (if side.Buy? then o.level <= from else o.level >= from)
    decreases if side.Buy? then from + 1 else |ls| - from
  {
    var here := AtLevel(from, ls[from]);
    if k >= |here| {
      OffersRest(ls, side, NextOut(side, from), limit, k - |here|);
      assert Offers(ls, side, from, limit)[k] == Offers(ls, side, NextOut(side, from), limit)[k - |here|];
    } else {
      assert Offers(ls, side, from, limit)[k] == here[k];
    }
  }

  /** A better price comes first: along the list, levels only move outward. */
  lemma {:induction false} OffersSorted(ls: Levels, side: Side, from: int, limit: nat, i: nat, k: nat)
    requires i < k < |Offers(ls, side, from, limit)|
    ensures Outward(side, Offers(ls, side, from, limit)[i].level, Offers(ls, side, from, limit)[k].level)
    decreases if side.Buy? then from + 1 else |ls| - from
  {
    var here, rest := AtLevel(from, ls[from]), Offers(ls, side, NextOut(side, from), limit);
    if i >= |here| {
      OffersSorted(ls, side, NextOut(side, from), limit, i - |here|, k - |here|);
      assert Offers(ls, side, from, limit)[i] == rest[i - |here|]
             && Offers(ls, side, from, limit)[k] == rest[k - |here|];
    } else {
      assert Offers(ls, side, from, limit)[i] == here[i];
      OffersRest(ls, side, from, limit, k);
    }
  }

  /** Arrival order within a price: an older order of a level stands before a younger one. */
  lemma {:induction false} OffersFifo(ls: Levels, side: Side, from: int, limit: nat, l: nat) returns (start: nat)
    requires 0 <= from < |ls| && l < |ls| && Outward(side, from, l) && WithinLimit(side, l, limit)
    ensures start + |ls[l]| <= |Offers(ls, side, from, limit)|
    ensures Offers(ls, side, from, limit)[start..start + |ls[l]|] == AtLevel(l, ls[l])
    decreases if side.Buy? then from + 1 else |ls| - from
  {
    if from == l {
      start := 0;
    } else {
      var here := AtLevel(from, ls[from]);
      var s := OffersFifo(ls, side, NextOut(side, from), limit, l);
      start := |here| + s;
      var rest := Offers(ls, side, NextOut(side, from), limit);
      assert (here + rest)[start..start + |ls[l]|] == rest[s..s + |ls[l]|];
    }
  }

  /** A new last order of a level stands behind all offers at its price or a better one, and before all worse ones. */
  lemma {:induction false} OffersJoin(ls: Levels, side: Side, from: int, limit: nat, l: nat, r: Resting)
    returns (ahead: seq<Offer>, behind: seq<Offer>)
    requires 0 <= from < |ls| && l < |ls| && Outward(side, from, l) && WithinLimit(side, l, limit)
    ensures Offers(ls, side, from, limit) == ahead + behind
    ensures Offers(ls[l := ls[l] + [r]], side, from, limit) == ahead + ([Offer(l, r)] + behind)
    ensures forall o :: o in ahead ==> Outward(side, o.level, l)
    ensures forall o :: o in behind ==> !Outward(side, o.level, l)
    decreases if side.Buy? then from + 1 else |ls| - from
  {
    var ls', here, next := ls[l := ls[l] + [r]], AtLevel(from, ls[from]), NextOut(side, from);
    if from == l {
      ahead, behind := here, Offers(ls, side, next, limit);
      OffersFrame(ls, ls', side, next, limit);
      assert AtLevel(l, ls'[l]) == here + [Offer(l, r)];
      assert (here + [Offer(l, r)]) + behind == here + ([Offer(l, r)] + behind);
      forall o | o in behind
        ensures !Outward(side, o.level, l)
      {
        var k :| 0 <= k < |behind| && behind[k] == o;
        OffersRest(ls, side, next, limit, k);
      }
    } else {
      var a;
      a, behind := OffersJoin(ls, side, next, limit, l, r);
      ahead := here + a;
      assert AtLevel(from, ls'[from]) == here;
      assert here + (a + behind) == (here + a) + behind;
      assert here + (a + ([Offer(l, r)] + behind)) == (here + a) + ([Offer(l, r)] + behind);
    }
  }

  /**
   Time priority of a resting order: it joins the line behind every order at its price or a better one and before
   every worse one, and no one else's place in the line changes.
   */
  lemma RestJoinsLine(b: Book, side: Side, l: nat, id: uint64, qty: uint32, limit: nat)
    returns (ahead: seq<Offer>, behind: seq<Offer>)
    requires l < |b.Lv(side)| <= NULL_IDX && b.free > 0 && WithinLimit(side, l, limit)
    ensures InPriority(b, side, limit) == ahead + behind
    ensures InPriority(Rest(b, side, l, id, qty), side, limit) == ahead + ([Offer(l, Resting(id, qty))] + behind)
    ensures forall o :: o in ahead ==> Outward(side, o.level, l)
    ensures forall o :: o in behind ==> !Outward(side, o.level, l)
  {
    hide Rest, Offers;
    RestLevels(b, side, l, id, qty);
    ahead, behind := OffersJoin(b.Lv(side), side, Innermost(b.Lv(side), side), limit, l, Resting(id, qty));
  }

  /** A trade with this offer, at its price and for no more than it offers. */
  ghost predicate TradeIs(t: Trade, o: Offer, taker: uint64, base: nat) {
    t.maker == o.order.id && t.taker == taker && t.price == base + o.level && t.qty <= o.order.qty
  }

  /** The k-th trade is with the k-th offer, within the limit, and uses the offer up unless it is the last. */
  ghost predicate FairTrade(ts: seq<Trade>, os: seq<Offer>, side: Side, taker: uint64, base: nat, limit: nat, k: nat)
    requires k < |ts| <= |os|
  {
    && TradeIs(ts[k], os[k], taker, base)
    && WithinLimit(side, os[k].level, limit)
    && (k + 1 < |ts| ==> ts[k].qty == os[k].order.qty)
  }

  ghost predicate Fair(ts: seq<Trade>, os: seq<Offer>, side: Side, taker: uint64, base: nat, limit: nat) {
    && |ts| <= |os|
    && (forall k :: 0 <= k < |ts| ==> FairTrade(ts, os, side, taker, base, limit, k))
    && (forall j, k :: 0 <= j < k < |os| ==> Outward(side, os[j].level, os[k].level))
  }

  lemma FillsFair(b: Book, side: Side, taker: uint64, limit: nat, rem: nat)
    ensures var os := InPriority(b, side, limit); Fair(Fills(os, taker, b.base, rem), os, side, taker, b.base, limit)
  {
    var ls := b.Lv(side);
    var os := InPriority(b, side, limit);
    var ts := Fills(os, taker, b.base, rem);
    if ts != [] {
      FillsInOrder(os, taker, b.base, rem, 0);
    }
    forall k | 0 <= k < |ts|
      ensures FairTrade(ts, os, side, taker, b.base, limit, k)
    {
      FillsInOrder(os, taker, b.base, rem, k);
      OffersRest(ls, side, Innermost(ls, side), limit, k);
    }
    forall j, k | 0 <= j < k < |os|
      ensures Outward(side, os[j].level, os[k].level)
    {
      OffersSorted(ls, side, Innermost(ls, side), limit, j, k);
    }
  }

  /**
   Price-time priority of one match on a side whose best is exact: trades run down the list of resting orders,
       best price first; none is worse
   than the limit; only the last maker may keep something; quantity is conserved; and an unfilled remainder
   means that nothing within the limit is left.
   */
  lemma MatchingIsFair(b: Book, side: Side, taker: uint64, limit: nat, rem: uint32)
    requires Wf(b) && Exact(b, side)
    ensures var (b', left) := Sweep(b, side, taker, limit, rem);
            var os := InPriority(b, side, limit);
            && b.log <= b'.log
            && var ts := b'.log[|b.log|..];
               && Fair(ts, os, side, taker, b.base, limit)
               && Traded(ts) + left == rem
               && Traded(ts) + Offered(InPriority(b', side, limit)) == Offered(os)
               && (left > 0 ==> InPriority(b', side, limit) == [])
  {
    SweepIsPriority(b, side, taker, limit, rem);
    var ts := Fills(InPriority(b, side, limit), taker, b.base, rem);
    assert Sweep(b, side, taker, limit, rem).0.log[|b.log|..] == ts;
    FillsConserve(InPriority(b, side, limit), taker, b.base, rem);
    FillsFair(b, side, taker, limit, rem);
  }
}
