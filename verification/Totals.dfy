/** Sums over the levels of a side, and what sliding the window does to them. */
module Totals {
  import opened Types
  import opened BookSpec

  function Total(ls: Levels, f: Queue -> nat): nat {
    if ls == [] then 0 else f(ls[0]) + Total(ls[1..], f)
  }

  function Length(q: Queue): nat {
    |q|
  }

  /** Quantity resting on a side. */
  function SideQty(ls: Levels): nat {
    Total(ls, Volume)
  }

  /** Quantity resting in the book. */
  function RestingQty(b: Book): nat {
    SideQty(b.bids) + SideQty(b.asks)
  }

  /** Number of resting orders. */
  function Orders(b: Book): nat {
    Count(b.bids) + Count(b.asks)
  }

  function Traded(ts: seq<Trade>): nat {
    if ts == [] then 0 else ts[0].qty + Traded(ts[1..])
  }

  lemma {:induction false} TradedLast(ts: seq<Trade>, t: Trade)
    ensures Traded(ts + [t]) == Traded(ts) + t.qty
  {
    if ts == [] {
      assert ts + [t] == [t];
    } else {
      assert (ts + [t])[1..] == ts[1..] + [t];
      TradedLast(ts[1..], t);
    }
  }

  lemma {:induction false} CountIsTotal(ls: Levels)
    ensures Count(ls) == Total(ls, Length)
  {
    if ls != [] {
      CountIsTotal(ls[1..]);
    }
  }

  lemma {:induction false} TotalConcat(a: Levels, b: Levels, f: Queue -> nat)
    ensures Total(a + b, f) == Total(a, f) + Total(b, f)
  {
    if a == [] {
      assert a + b == b;
    } else {
      assert (a + b)[1..] == a[1..] + b;
      TotalConcat(a[1..], b, f);
    }
  }

  lemma TotalUpdate(ls: Levels, l: nat, q: Queue, f: Queue -> nat)
    requires l < |ls|
    ensures Total(ls[l := q], f) == Total(ls, f) - f(ls[l]) + f(q)
  {
    var a, c := ls[..l], ls[l + 1..];
    assert ls == a + ([ls[l]] + c) && ls[l := q] == a + ([q] + c);
    TotalConcat(a, [ls[l]] + c, f);
    TotalConcat(a, [q] + c, f);
    assert ([ls[l]] + c)[1..] == c && ([q] + c)[1..] == c;
  }

  lemma {:induction false} TotalEmpty(ls: Levels, f: Queue -> nat)
    requires f([]) == 0 && forall l :: 0 <= l < |ls| ==> ls[l] == []
    ensures Total(ls, f) == 0
  {
    if ls != [] {
      TotalEmpty(ls[1..], f);
    }
  }

  // ---- what a slide loses ----

  /** The sum over the levels from i on that fall out of the window. */
  function LostTotal(ls: Levels, base: uint32, newBase: uint32, i: nat, f: Queue -> nat): nat
    decreases |ls| - i
  {
    if i >= |ls| then 0
    else (if Kept(|ls|, base, newBase, i) then 0 else f(ls[i])) + LostTotal(ls, base, newBase, i + 1, f)
  }

  lemma {:induction false} LostIsTotal(ls: Levels, base: uint32, newBase: uint32, i: nat)
    ensures Lost(ls, base, newBase, i) == LostTotal(ls, base, newBase, i, Length)
    decreases |ls| - i
  {
    if i < |ls| {
      LostIsTotal(ls, base, newBase, i + 1);
    }
  }

  /** A base that rises by d drops the first d levels. */
  lemma {:induction false} LostBelow(ls: Levels, base: uint32, newBase: uint32, i: nat, f: Queue -> nat)
    requires newBase >= base && i <= |ls|
    ensures var d := if newBase - base <= |ls| then newBase - base else |ls|;
            LostTotal(ls, base, newBase, i, f) == if i < d then Total(ls[i..d], f) else 0
    decreases |ls| - i
  {
    if i < |ls| {
      LostBelow(ls, base, newBase, i + 1, f);
      var d := if newBase - base <= |ls| then newBase - base else |ls|;
      if i < d {
        assert ls[i..d][1..] == ls[i + 1..d];
        assert i + 1 == d ==> ls[i + 1..d] == [];
      }
    }
  }

  /** A base that falls by d drops the last d levels. */
  lemma {:induction false} LostAbove(ls: Levels, base: uint32, newBase: uint32, i: nat, f: Queue -> nat)
    requires newBase < base && i <= |ls|
    ensures var e := if base - newBase <= |ls| then |ls| - (base - newBase) else 0;
            LostTotal(ls, base, newBase, i, f) == Total(ls[if i < e then e else i..], f)
    decreases |ls| - i
  {
    if i < |ls| {
      LostAbove(ls, base, newBase, i + 1, f);
      assert ls[i..][1..] == ls[i + 1..];
    }
  }

  function Blank(n: nat): Levels {
    seq(n, _ => [])
  }

  lemma MovedUp(ls: Levels, base: uint32, newBase: uint32, d: nat)
    requires newBase >= base && d == (if newBase - base <= |ls| then newBase - base else |ls|)
    ensures Moved(ls, base, newBase) == ls[d..] + Blank(d)
  {
    var ms, r := Moved(ls, base, newBase), ls[d..] + Blank(d);
    assert |ms| == |r|;
    forall k | 0 <= k < |ms|
      ensures ms[k] == r[k]
    {
      if k + d < |ls| {
        assert r[k] == ls[d..][k];
      } else {
        assert r[k] == Blank(d)[k - (|ls| - d)];
      }
    }
  }

  lemma MovedDown(ls: Levels, base: uint32, newBase: uint32, e: nat)
    requires newBase < base && e == (if base - newBase <= |ls| then |ls| - (base - newBase) else 0)
    ensures Moved(ls, base, newBase) == Blank(|ls| - e) + ls[..e]
  {
    var ms, r := Moved(ls, base, newBase), Blank(|ls| - e) + ls[..e];
    assert |ms| == |r|;
    forall k | 0 <= k < |ms|
      ensures ms[k] == r[k]
    {
      if k < |ls| - e {
        assert r[k] == Blank(|ls| - e)[k];
      } else {
        assert r[k] == ls[..e][k - (|ls| - e)];
      }
    }
  }

  /** What stays and what is lost add up. */
  lemma MovedTotal(ls: Levels, base: uint32, newBase: uint32, f: Queue -> nat)
    requires f([]) == 0
    ensures Total(Moved(ls, base, newBase), f) + LostTotal(ls, base, newBase, 0, f) == Total(ls, f)
  {
    if newBase >= base {
      var d := if newBase - base <= |ls| then newBase - base else |ls|;
      MovedUp(ls, base, newBase, d);
      LostBelow(ls, base, newBase, 0, f);
      TotalConcat(ls[d..], Blank(d), f);
      TotalEmpty(Blank(d), f);
      TotalSplit(ls, d, f);
    } else {
      var e := if base - newBase <= |ls| then |ls| - (base - newBase) else 0;
      MovedDown(ls, base, newBase, e);
      LostAbove(ls, base, newBase, 0, f);
      TotalConcat(Blank(|ls| - e), ls[..e], f);
      TotalEmpty(Blank(|ls| - e), f);
      TotalSplit(ls, e, f);
    }
  }

  lemma TotalSplit(ls: Levels, k: nat, f: Queue -> nat)
    requires k <= |ls|
    ensures Total(ls[0..k], f) + Total(ls[k..], f) == Total(ls, f)
    ensures Total(ls[..k], f) + Total(ls[k..], f) == Total(ls, f)
    ensures k == 0 ==> Total(ls[..k], f) == 0
  {
    assert ls == ls[..k] + ls[k..] && ls[0..k] == ls[..k];
    TotalConcat(ls[..k], ls[k..], f);
  }

  /** Orders kept and orders lost by a slide. */
  lemma MovedCount(ls: Levels, base: uint32, newBase: uint32)
    ensures Count(Moved(ls, base, newBase)) + Lost(ls, base, newBase, 0) == Count(ls)
  {
    MovedTotal(ls, base, newBase, Length);
    CountIsTotal(ls);
    CountIsTotal(Moved(ls, base, newBase));
    LostIsTotal(ls, base, newBase, 0);
  }
}
