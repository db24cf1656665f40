/** What an operation on one order does to that order, and that it does nothing to any other. */
module Effects {
  import opened Types
  import opened BookSpec
  import opened BookIds
  import opened Ledgers
  import opened PartialFills
  import opened Uniques

  lemma QtyAt(b: Book, p: Place)
    requires UniqueIds(b) && p.At? && ValidPlace(b, p)
    ensures QtyOf(b, OrderAt(b, p).id) == OrderAt(b, p).qty
  {
    LocateUnique(b, p);
  }

  lemma QtyOfAbsent(b: Book, id: uint64)
    requires Absent(b, id)
    ensures QtyOf(b, id) == 0
  {
    AbsentIsNowhere(b, id);
  }

  /** b' holds the order with this id just as b does: on the same side, at the same price, with the same quantity. */
  ghost predicate Unaffected(b: Book, b': Book, id: uint64) {
    && QtyOf(b', id) == QtyOf(b, id) && (Absent(b', id) <==> Absent(b, id)) && b'.base == b.base
    && SameSpot(Locate(b, id), Locate(b', id))
  }

  predicate SameSpot(o: Place, o': Place) {
    (o'.At? <==> o.At?) && (o.At? ==> o'.side == o.side && o'.level == o.level)
  }

  lemma MovedOrder(b: Book, b': Book, o: Place, o': Place)
    requires UniqueIds(b) && UniqueIds(b') && o.At? && o'.At? && ValidPlace(b, o) && ValidPlace(b', o')
    requires OrderAt(b', o') == OrderAt(b, o) && SameSpot(o, o') && b'.base == b.base
    ensures Unaffected(b, b', OrderAt(b, o).id)
  {
    hide UniqueIds, QtyOf, Locate;
    LocateUnique(b, o);
    LocateUnique(b', o');
    QtyAt(b, o);
    QtyAt(b', o');
    assert !AbsentQueue(b.Lv(o.side)[o.level], OrderAt(b, o).id);
    assert !AbsentQueue(b'.Lv(o'.side)[o'.level], OrderAt(b, o).id);
  }

  lemma SparedOrder(b: Book, b': Book, other: uint64, o': Place)
    requires UniqueIds(b) && UniqueIds(b') && (Absent(b, other) ==> Absent(b', other))
    requires Locate(b, other).At? ==>
               && o'.At? && ValidPlace(b', o') && OrderAt(b', o') == OrderAt(b, Locate(b, other))
               && SameSpot(Locate(b, other), o')
    requires b'.base == b.base
    ensures Unaffected(b, b', other)
  {
    hide UniqueIds, QtyOf, AbsentLevels, Locate;
    AbsentIsNowhere(b, other);
    LocateSound(b, other);
    if Locate(b, other).At? {
      MovedOrder(b, b', Locate(b, other), o');
    } else {
      QtyOfAbsent(b, other);
      QtyOfAbsent(b', other);
      AbsentIsNowhere(b', other);
    }
  }

  lemma RemoveAtEffect(b: Book, p: Place, other: uint64)
    requires UniqueIds(b) && p.At? && ValidPlace(b, p) && |b.Lv(p.side)| <= NULL_IDX
    ensures var id, b' := OrderAt(b, p).id, RemoveAt(b, p);
            && UniqueIds(b') && Absent(b', id) && QtyOf(b', id) == 0
            && (other != id ==> Unaffected(b, b', other))
  {
    hide UniqueIds, QtyOf, AbsentLevels, Locate, RemoveAt;
    var id, b' := OrderAt(b, p).id, RemoveAt(b, p);
    RemoveKeepsIds(b, p, other);
    RemovedIsAbsent(b, p);
    AbsentIsNowhere(b', id);
    QtyOfAbsent(b', id);
    if other != id {
      var o := Locate(b, other);
      LocateSound(b, other);
      RemoveAtFrame(b, p);
      var o' := if o.At? && o.side == p.side && o.level == p.level && o.pos > p.pos
                then At(o.side, o.level, o.pos - 1) else o;
      SparedOrder(b, b', other, o');
    }
  }

  lemma ReduceAtEffect(b: Book, p: Place, m: nat, other: uint64)
    requires UniqueIds(b) && p.At? && ValidPlace(b, p) && |b.Lv(p.side)| <= NULL_IDX && m <= OrderAt(b, p).qty
    ensures var id, b' := OrderAt(b, p).id, ReduceAt(b, p, m);
            && UniqueIds(b') && !Absent(b', id) && QtyOf(b', id) == OrderAt(b, p).qty - m
            && (other != id ==> Unaffected(b, b', other))
  {
    hide UniqueIds, QtyOf, AbsentLevels, Locate, ReduceAt;
    var id, b' := OrderAt(b, p).id, ReduceAt(b, p, m);
    ReduceKeepsIds(b, p, m, other);
    LowerLeaves(b, p, m);
    QtyAt(b', p);
    PresentAt(b', p);
    if other != id {
      var o := Locate(b, other);
      LocateSound(b, other);
      ReduceSpares(b, p, m, o);
      ReduceAtFrame(b, p, m);
      SparedOrder(b, b', other, o);
    }
  }

  lemma PresentAt(b: Book, p: Place)
    requires p.At? && ValidPlace(b, p)
    ensures !Absent(b, OrderAt(b, p).id)
  {
    assert !AbsentQueue(b.Lv(p.side)[p.level], OrderAt(b, p).id);
  }

  lemma ReduceSpares(b: Book, p: Place, m: nat, o: Place)
    requires p.At? && ValidPlace(b, p) && |b.Lv(p.side)| <= NULL_IDX && m <= OrderAt(b, p).qty
    requires o.At? ==> ValidPlace(b, o) && OrderAt(b, o).id != OrderAt(b, p).id
    ensures o.At? ==> ValidPlace(ReduceAt(b, p, m), o) && OrderAt(ReduceAt(b, p, m), o) == OrderAt(b, o)
  {
  }

  lemma AccountedEffect(b: Book, t: Trade, live: uint32, id: uint64)
    ensures Unaffected(b, Accounted(b, t, live), id)
  {
    LocateUnlogged(b, t, live, id);
  }

  // ---- the operations on one order ----

  /** Cancelling an id leaves nothing of it and every other order as it was. */
  lemma CancelEffect(b: Book, id: uint64, other: uint64)
    requires Shape(b) && UniqueIds(b)
    ensures var b' := Cancel(b, id);
            && Absent(b', id) && b'.log == b.log && (Absent(b, id) ==> b' == b)
            && (other != id ==> Unaffected(b, b', other))
  {
    hide UniqueIds, QtyOf, AbsentLevels, Locate, RemoveAt;
    var p := Locate(b, id);
    LocateSound(b, id);
    AbsentIsNowhere(b, id);
    if p.At? {
      RemoveAtEffect(b, p, other);
      RemoveAtFrame(b, p);
    }
  }

  /**
   Executing against an id takes the fill off it, or all of it if that is less; reports exactly that quantity for
   it; says so exactly when the order left; and leaves every other order as it was.
   */
  lemma ExecuteEffect(b: Book, id: uint64, fill: uint32, other: uint64)
    requires Shape(b) && UniqueIds(b)
    ensures var (b', gone), q := Execute(b, id, fill), QtyOf(b, id);
            && QtyOf(b', id) == (if fill >= q then 0 else q - fill)
            && (gone <==> !Absent(b, id) && Absent(b', id)) && (gone <==> !Absent(b, id) && fill >= q)
            && (Absent(b, id) ==> b' == b)
            && (!Absent(b, id) ==> ReportsFill(b, b', id, if fill >= q then q else fill))
            && (other != id ==> Unaffected(b, b', other))
  {
    hide UniqueIds, QtyOf, AbsentLevels, Locate, RemoveAt, ReduceAt, Execute, Unaffected, Accounted;
    var p := Locate(b, id);
    LocateSound(b, id);
    AbsentIsNowhere(b, id);
    if p.Nowhere? {
      ExecuteNowhere(b, id, fill);
      QtyOfAbsent(b, id);
      Same(b, other);
    } else {
      QtyAt(b, p);
      ExecuteSteps(b, id, fill);
      var q := OrderAt(b, p).qty;
      var t := Trade(id, 0, b.base + p.level, if fill >= q then q else fill);
      var live := if fill >= q then SatSub(b.live, 1) else b.live;
      var y := if fill >= q then RemoveAt(b, p) else ReduceAt(b, p, fill);
      if fill >= q {
        RemoveAtEffect(b, p, other);
        RemoveAtFrame(b, p);
      } else {
        ReduceAtEffect(b, p, fill, other);
        ReduceAtFrame(b, p, fill);
      }
      Accounts(b, y, t, live, id);
      Accounts(b, y, t, live, other);
    }
  }

  lemma Same(b: Book, id: uint64)
    ensures Unaffected(b, b, id)
  {
  }

  lemma Accounts(b: Book, y: Book, t: Trade, live: uint32, id: uint64)
    ensures var x := Accounted(y, t, live);
            && QtyOf(x, id) == QtyOf(y, id) && (Absent(x, id) <==> Absent(y, id)) && x.log == y.log + [t]
            && (Unaffected(b, y, id) ==> Unaffected(b, x, id))
  {
    AccountedEffect(y, t, live, id);
  }

  /** One trade is added to the log: this maker, no taker, the order's absolute price, this quantity. */
  ghost predicate ReportsFill(b: Book, b': Book, id: uint64, qty: nat) {
    var p := Locate(b, id);
    p.At? && b'.log == b.log + [Trade(id, 0, b.base + p.level, qty)]
  }

  /** Reducing takes the amount off, or the whole order if that is less, reports nothing, and spares all others. */
  lemma ReduceEffect(b: Book, id: uint64, amount: uint32, other: uint64)
    requires Shape(b) && UniqueIds(b)
    ensures var (b', gone), q := Reduce(b, id, amount), QtyOf(b, id);
            && QtyOf(b', id) == (if amount >= q then 0 else q - amount)
            && (gone <==> !Absent(b, id) && Absent(b', id)) && (gone <==> !Absent(b, id) && amount >= q)
            && b'.log == b.log && (Absent(b, id) ==> b' == b)
            && (other != id ==> Unaffected(b, b', other))
  {
    hide UniqueIds, QtyOf, AbsentLevels, Locate, RemoveAt, ReduceAt, Unaffected;
    var p := Locate(b, id);
    LocateSound(b, id);
    AbsentIsNowhere(b, id);
    if p.Nowhere? {
      QtyOfAbsent(b, id);
      Same(b, other);
    } else {
      QtyAt(b, p);
      if amount >= OrderAt(b, p).qty {
        RemoveAtEffect(b, p, other);
        RemoveAtFrame(b, p);
      } else {
        ReduceAtEffect(b, p, amount, other);
        ReduceAtFrame(b, p, amount);
      }
    }
  }
}
