/**
 Replaying an ITCH feed: length-prefixed framing, and routing of decoded messages to one book per stock locate
 through the map from order reference to owning book.
 */
module Itch {
  import opened Types
  import opened BookSpec
  import opened BookIds
  import opened Effects
  import opened Ledgers
  import opened Uniques
  import Outcomes

  const MAX_STOCK_LOCATE: nat := 8192

  /** Decoded messages: A and F are AddMsg, E and C ExecuteMsg, X CancelMsg, D DeleteMsg, U ReplaceMsg. */
  datatype Message =
    | AddMsg(locate: nat, id: uint64, sell: bool, shares: uint32, price: uint32)
    | ExecuteMsg(id: uint64, shares: uint32)
    | CancelMsg(id: uint64, canceled: uint32)
    | DeleteMsg(id: uint64)
    | ReplaceMsg(id: uint64, newId: uint64, shares: uint32, price: uint32)
    | OtherMsg

  /** The tickers to follow (all of them when empty) and the size of each book. */
  datatype Config = Config(allowed: set<nat>, band: nat, capacity: nat)

  /** One book per stock locate seen, and the book each order reference was last accepted into. */
  datatype Feed = Feed(books: map<nat, Book>, owner: map<uint64, nat>)

  predicate Tracked(c: Config, locate: nat) {
    locate < MAX_STOCK_LOCATE && (c.allowed == {} || locate in c.allowed)
  }

  /** Owners are books that exist, and every book has the shape it was made with. */
  ghost predicate Shaped(c: Config, f: Feed) {
    && 0 < c.band <= NULL_IDX
    && (forall l :: l in f.books ==> Shape(f.books[l]))
    && (forall id :: id in f.owner ==> f.owner[id] in f.books)
  }

  function BookOf(c: Config, f: Feed, locate: nat): Book {
    if locate in f.books then f.books[locate] else FreshBook(c.band, c.capacity)
  }

  function Add(c: Config, f: Feed, locate: nat, id: uint64, side: Side, shares: uint32, price: uint32): Feed
    requires Shaped(c, f)
  {
    if !Tracked(c, locate) then f
    else
      var (b, rests) := Insert(BookOf(c, f, locate), id, side, price, shares);
      Feed(f.books[locate := b], if rests then f.owner[id := locate] else f.owner)
  }

  function Handle(c: Config, f: Feed, m: Message): Feed
    requires Shaped(c, f)
  {
    match m
    case AddMsg(locate, id, sell, shares, price) => Add(c, f, locate, id, if sell then Sell else Buy, shares, price)
    case ExecuteMsg(id, shares) =>
      if id !in f.owner then f
      else
        var l := f.owner[id];
        var (b, gone) := Execute(f.books[l], id, shares);
        Feed(f.books[l := b], if gone then f.owner - {id} else f.owner)
    case CancelMsg(id, canceled) =>
      if id !in f.owner then f
      else
        var l := f.owner[id];
        var (b, gone) := Reduce(f.books[l], id, canceled);
        Feed(f.books[l := b], if gone then f.owner - {id} else f.owner)
    case DeleteMsg(id) =>
      if id !in f.owner then f
      else Feed(f.books[f.owner[id] := Cancel(f.books[f.owner[id]], id)], f.owner - {id})
    case ReplaceMsg(id, newId, shares, price) => Replace(f, id, newId, shares, price, c)
    case OtherMsg => f
  }

  function Replace(f: Feed, id: uint64, newId: uint64, shares: uint32, price: uint32, c: Config): Feed
    requires Shaped(c, f)
  {
    if id !in f.owner then f
    else
      var l := f.owner[id];
      var p := Locate(f.books[l], id);
      if p.Nowhere? then f
      else
        CancelShape(f.books[l], id);
        var (b, rests) := Insert(Cancel(f.books[l], id), newId, p.side, price, shares);
        var kept := f.owner - {id};
        Feed(f.books[l := b], if rests then kept[newId := l] else kept)
  }

  lemma CancelShape(b: Book, id: uint64)
    requires Shape(b)
    ensures Shape(Cancel(b, id))
  {
    StepShape(b, CancelId(id));
  }

  // ---- the routing invariant ----

  /** An order resting in book l is owned by book l. */
  ghost predicate Routed(f: Feed, l: nat, id: uint64)
    requires l in f.books
  {
    !Absent(f.books[l], id) ==> id in f.owner && f.owner[id] == l
  }

  ghost predicate BookOk(c: Config, f: Feed, l: nat)
    requires l in f.books
  {
    && Shape(f.books[l]) && Tracked(c, l) && UniqueIds(f.books[l])
    && forall id: uint64 :: Routed(f, l, id)
  }

  ghost predicate FeedOk(c: Config, f: Feed) {
    && Shaped(c, f)
    && forall l :: l in f.books ==> BookOk(c, f, l)
  }

  /** The id rests in no book. */
  ghost predicate RestsNowhere(f: Feed, id: uint64) {
    forall l :: l in f.books ==> Absent(f.books[l], id)
  }

  /** New references are new: no resting order of any book has them. */
  ghost predicate FreshMessage(f: Feed, m: Message) {
    match m
    case AddMsg(_, id, _, _, _) => RestsNowhere(f, id)
    case ReplaceMsg(id, newId, _, _) => newId == id || RestsNowhere(f, newId)
    case _ => true
  }

  /** An order of another book than l keeps its owner. */
  ghost predicate StillRouted(f: Feed, l: nat, owner: map<uint64, nat>, k: nat, id: uint64)
    requires k in f.books
  {
    k != l && !Absent(f.books[k], id) ==> id in owner && owner[id] == k
  }

  /** Replacing book l, with an owner map that routes what it holds and still routes the others. */
  lemma UpdateOk(c: Config, f: Feed, l: nat, b: Book, owner: map<uint64, nat>)
    requires FeedOk(c, f) && Tracked(c, l) && Shape(b) && UniqueIds(b)
    requires forall id: uint64 :: !Absent(b, id) ==> id in owner && owner[id] == l
    requires forall id :: id in owner ==> owner[id] in f.books || owner[id] == l
    requires forall k, id: uint64 :: k in f.books ==> StillRouted(f, l, owner, k, id)
    ensures FeedOk(c, Feed(f.books[l := b], owner))
  {
    hide Shape, Tracked, UniqueIds, AbsentLevels;
    var f' := Feed(f.books[l := b], owner);
    forall k | k in f'.books
      ensures BookOk(c, f', k) && Shape(f'.books[k])
    {
      forall id: uint64
        ensures Routed(f', k, id)
      {
        if k != l {
          assert StillRouted(f, l, owner, k, id);
        }
      }
      if k != l {
        assert BookOk(c, f, k);
      }
    }
  }

  lemma RoutedIn(c: Config, f: Feed, l: nat, id: uint64)
    requires FeedOk(c, f) && l in f.books
    ensures Shape(f.books[l]) && Tracked(c, l) && UniqueIds(f.books[l])
    ensures !Absent(f.books[l], id) ==> id in f.owner && f.owner[id] == l
  {
    assert BookOk(c, f, l) && Routed(f, l, id);
  }

  lemma FreshBookIsEmpty(c: Config, id: uint64)
    requires 0 < c.band <= NULL_IDX
    ensures var b := FreshBook(c.band, c.capacity); Shape(b) && UniqueIds(b) && Absent(b, id)
  {
    var b := FreshBook(c.band, c.capacity);
    assert forall p: Place :: p.At? ==> !ValidPlace(b, p);
  }

  lemma BookOfOk(c: Config, f: Feed, l: nat, id: uint64)
    requires FeedOk(c, f)
    ensures var b := BookOf(c, f, l);
            && Shape(b) && UniqueIds(b) && (!Absent(b, id) ==> id in f.owner && f.owner[id] == l)
            && (RestsNowhere(f, id) ==> Absent(b, id))
  {
    hide UniqueIds, AbsentLevels, Shape;
    if l in f.books {
      RoutedIn(c, f, l, id);
    } else {
      FreshBookIsEmpty(c, id);
    }
  }

  /** An insertion into book l, starting from a state b of it whose orders are routed there. */
  lemma InsertOk(c: Config, f: Feed, l: nat, b: Book, owner: map<uint64, nat>, id: uint64, side: Side, price: uint32,
                 qty: uint32)
    requires FeedOk(c, f) && Tracked(c, l) && Shape(b) && UniqueIds(b) && Absent(b, id)
    requires forall i: uint64 :: !Absent(b, i) ==> i in owner && owner[i] == l
    requires forall i :: i in owner ==> owner[i] in f.books || owner[i] == l
    requires forall k, i: uint64 :: k in f.books ==> StillRouted(f, l, owner, k, i)
    requires forall k :: k in f.books && k != l ==> Absent(f.books[k], id)
    ensures var (b', rests) := Insert(b, id, side, price, qty);
            FeedOk(c, Feed(f.books[l := b'], if rests then owner[id := l] else owner))
  {
    hide Insert, Tracked, UniqueIds, AbsentLevels, FeedOk;
    var (b', rests) := Insert(b, id, side, price, qty);
    var owner' := if rests then owner[id := l] else owner;
    InsertStays(b, id, side, price, qty);
    forall i: uint64 | !Absent(b', i)
      ensures i in owner' && owner'[i] == l
    {
      InsertAdds(b, id, side, price, qty, i);
    }
    forall k, i: uint64 | k in f.books
      ensures StillRouted(f, l, owner', k, i)
    {
      assert StillRouted(f, l, owner, k, i);
    }
    UpdateOk(c, f, l, b', owner');
  }

  lemma InsertStays(b: Book, id: uint64, side: Side, price: uint32, qty: uint32)
    requires Shape(b) && UniqueIds(b) && Absent(b, id)
    ensures var b' := Insert(b, id, side, price, qty).0; Shape(b') && UniqueIds(b')
  {
    hide Insert, UniqueIds, AbsentLevels;
    InsertKeepsUnique(b, id, side, price, qty);
    StepShape(b, Limit(id, side, price, qty));
  }

  /** What rests after an insertion rested before it, or is the new order and the flag says so. */
  lemma InsertAdds(b: Book, id: uint64, side: Side, price: uint32, qty: uint32, i: uint64)
    requires Shape(b) && Absent(b, id) && !Absent(Insert(b, id, side, price, qty).0, i)
    ensures if i == id then Insert(b, id, side, price, qty).1 else !Absent(b, i)
  {
    hide Insert, AbsentLevels;
    if i == id {
      InsertedIsPresent(b, id, side, price, qty);
    } else if Absent(b, i) {
      AbsentInsert(b, id, side, price, qty, i);
    }
  }

  lemma AddOk(c: Config, f: Feed, l: nat, id: uint64, side: Side, shares: uint32, price: uint32)
    requires FeedOk(c, f) && RestsNowhere(f, id)
    ensures FeedOk(c, Add(c, f, l, id, side, shares, price))
  {
    hide Insert, Shape, UniqueIds, AbsentLevels, FeedOk, BookOf;
    SoundOf(c, f);
    if Tracked(c, l) {
      var b := BookOf(c, f, l);
      BookOfOk(c, f, l, id);
      forall i: uint64 | !Absent(b, i)
        ensures i in f.owner && f.owner[i] == l
      {
        BookOfOk(c, f, l, i);
      }
      forall k, i: uint64 | k in f.books
        ensures StillRouted(f, l, f.owner, k, i)
      {
        RoutedIn(c, f, k, i);
      }
      InsertOk(c, f, l, b, f.owner, id, side, price, shares);
    }
  }

  lemma SoundOf(c: Config, f: Feed)
    requires FeedOk(c, f)
    ensures Shaped(c, f)
  {
  }

  /** An order of book l taken down or out; `gone` may drop it from the owner map. */
  lemma RemovalOk(c: Config, f: Feed, l: nat, b: Book, id: uint64, gone: bool)
    requires FeedOk(c, f) && id in f.owner && f.owner[id] == l && l in f.books
    requires Shape(b) && UniqueIds(b) && (gone ==> Absent(b, id))
    requires forall i: uint64 :: Absent(f.books[l], i) ==> Absent(b, i)
    ensures FeedOk(c, Feed(f.books[l := b], if gone then f.owner - {id} else f.owner))
  {
    hide Shape, UniqueIds, AbsentLevels, FeedOk;
    SoundOf(c, f);
    RoutedIn(c, f, l, id);
    var owner := if gone then f.owner - {id} else f.owner;
    forall i: uint64 | !Absent(b, i)
      ensures i in owner && owner[i] == l
    {
      RoutedIn(c, f, l, i);
    }
    forall k, i: uint64 | k in f.books
      ensures StillRouted(f, l, owner, k, i)
    {
      RoutedIn(c, f, k, i);
    }
    UpdateOk(c, f, l, b, owner);
  }

  lemma ExecuteOk(c: Config, f: Feed, id: uint64, shares: uint32)
    requires FeedOk(c, f)
    ensures Shaped(c, f) && FeedOk(c, Handle(c, f, ExecuteMsg(id, shares)))
  {
    hide Execute, Shape, UniqueIds, AbsentLevels, FeedOk;
    SoundOf(c, f);
    if id in f.owner {
      var l := f.owner[id];
      RoutedIn(c, f, l, id);
      var (b, gone) := Execute(f.books[l], id, shares);
      forall i: uint64
        ensures Absent(f.books[l], i) ==> Absent(b, i)
      {
        ExecuteKeepsIds(f.books[l], id, shares, i);
      }
      ExecuteKeepsIds(f.books[l], id, shares, id);
      ChangedShape(f.books[l], ExecuteId(id, shares));
      RemovalOk(c, f, l, b, id, gone);
    }
  }

  lemma ChangedShape(b: Book, op: Op)
    requires Shape(b)
    ensures op.ExecuteId? ==> Shape(Execute(b, op.id, op.fill).0)
    ensures op.ReduceId? ==> Shape(Reduce(b, op.id, op.amount).0)
  {
    hide Execute, Reduce;
    StepShape(b, op);
  }

  lemma CancelOk(c: Config, f: Feed, id: uint64, canceled: uint32)
    requires FeedOk(c, f)
    ensures Shaped(c, f) && FeedOk(c, Handle(c, f, CancelMsg(id, canceled)))
  {
    hide Reduce, Shape, UniqueIds, AbsentLevels, FeedOk;
    SoundOf(c, f);
    if id in f.owner {
      var l := f.owner[id];
      RoutedIn(c, f, l, id);
      var (b, gone) := Reduce(f.books[l], id, canceled);
      forall i: uint64
        ensures Absent(f.books[l], i) ==> Absent(b, i)
      {
        ReduceQtyKeepsIds(f.books[l], id, canceled, i);
      }
      ReduceQtyKeepsIds(f.books[l], id, canceled, id);
      ChangedShape(f.books[l], ReduceId(id, canceled));
      RemovalOk(c, f, l, b, id, gone);
    }
  }

  lemma DeleteOk(c: Config, f: Feed, id: uint64)
    requires FeedOk(c, f)
    ensures Shaped(c, f) && FeedOk(c, Handle(c, f, DeleteMsg(id)))
  {
    hide Cancel, Shape, UniqueIds, AbsentLevels, FeedOk;
    SoundOf(c, f);
    if id in f.owner {
      var l := f.owner[id];
      RoutedIn(c, f, l, id);
      forall i: uint64
        ensures Absent(f.books[l], i) ==> Absent(Cancel(f.books[l], id), i)
      {
        CancelKeepsIds(f.books[l], id, i);
      }
      CancelKeepsIds(f.books[l], id, id);
      CancelShape(f.books[l], id);
      RemovalOk(c, f, l, Cancel(f.books[l], id), id, true);
    }
  }

  /** A replacement of a live order is a deletion followed by an addition to the same book on the same side. */
  lemma ReplaceIsDeleteThenAdd(c: Config, f: Feed, id: uint64, newId: uint64, shares: uint32, price: uint32)
    requires FeedOk(c, f) && id in f.owner && Locate(f.books[f.owner[id]], id).At?
    ensures Shaped(c, f) && Shaped(c, Handle(c, f, DeleteMsg(id)))
    ensures var l := f.owner[id];
            Handle(c, f, ReplaceMsg(id, newId, shares, price))
            == Add(c, Handle(c, f, DeleteMsg(id)), l, newId, Locate(f.books[l], id).side, shares, price)
  {
    hide Cancel, Insert, Locate, UniqueIds, Shape, FeedOk, AbsentLevels;
    var l := f.owner[id];
    SoundOf(c, f);
    RoutedIn(c, f, l, id);
    DeleteOk(c, f, id);
    SoundOf(c, Handle(c, f, DeleteMsg(id)));
    CancelShape(f.books[l], id);
    var d := Handle(c, f, DeleteMsg(id));
    var (b, rests) := Insert(Cancel(f.books[l], id), newId, Locate(f.books[l], id).side, price, shares);
    assert d.books[l := b] == f.books[l := b];
  }

  lemma ReplaceOk(c: Config, f: Feed, id: uint64, newId: uint64, shares: uint32, price: uint32)
    requires FeedOk(c, f) && FreshMessage(f, ReplaceMsg(id, newId, shares, price))
    ensures Shaped(c, f) && FeedOk(c, Handle(c, f, ReplaceMsg(id, newId, shares, price)))
  {
    hide Cancel, Insert, Locate, UniqueIds, Shape, FeedOk, AbsentLevels, Add;
    SoundOf(c, f);
    if id in f.owner && Locate(f.books[f.owner[id]], id).At? {
      var l := f.owner[id];
      RoutedIn(c, f, l, id);
      DeleteOk(c, f, id);
      var d := Handle(c, f, DeleteMsg(id));
      CancelKeepsIds(f.books[l], id, newId);
      forall k | k in d.books
        ensures Absent(d.books[k], newId)
      {
        if k != l {
          RoutedIn(c, f, k, id);
        }
      }
      AddOk(c, d, l, newId, Locate(f.books[l], id).side, shares, price);
      ReplaceIsDeleteThenAdd(c, f, id, newId, shares, price);
    }
  }

  /** Every message keeps every resting order owned by its own book. */
  lemma HandleKeepsRouting(c: Config, f: Feed, m: Message)
    requires FeedOk(c, f) && FreshMessage(f, m)
    ensures Shaped(c, f) && FeedOk(c, Handle(c, f, m))
  {
    hide FeedOk, Add, Replace, Execute, Reduce, Cancel, Shape;
    SoundOf(c, f);
    match m
    case AddMsg(locate, id, sell, shares, price) => AddOk(c, f, locate, id, if sell then Sell else Buy, shares, price);
    case ExecuteMsg(id, shares) => ExecuteOk(c, f, id, shares);
    case CancelMsg(id, canceled) => CancelOk(c, f, id, canceled);
    case DeleteMsg(id) => DeleteOk(c, f, id);
    case ReplaceMsg(id, newId, shares, price) => ReplaceOk(c, f, id, newId, shares, price);
    case OtherMsg =>
  }

  // ---- what routing gives ----

  /** A message about a resting order reaches the book that holds it, and no other. */
  lemma LiveOrdersAreReached(c: Config, f: Feed, l: nat, id: uint64, qty: uint32)
    requires FeedOk(c, f) && l in f.books && !Absent(f.books[l], id)
    ensures Shaped(c, f) && Shape(f.books[l])
    ensures Handle(c, f, ExecuteMsg(id, qty)).books == f.books[l := Execute(f.books[l], id, qty).0]
    ensures Handle(c, f, CancelMsg(id, qty)).books == f.books[l := Reduce(f.books[l], id, qty).0]
    ensures Handle(c, f, DeleteMsg(id)).books == f.books[l := Cancel(f.books[l], id)]
  {
    hide Execute, Reduce, Cancel, AbsentLevels, UniqueIds;
    RoutedIn(c, f, l, id);
  }

  /** After a message about a resting order, the owner map knows its reference exactly if it still rests. */
  lemma OwnerFollowsTheBook(c: Config, f: Feed, l: nat, id: uint64, qty: uint32)
    requires FeedOk(c, f) && l in f.books && !Absent(f.books[l], id)
    ensures Shaped(c, f)
    ensures var f' := Handle(c, f, ExecuteMsg(id, qty)); l in f'.books && (id in f'.owner <==> !Absent(f'.books[l], id))
    ensures var f' := Handle(c, f, CancelMsg(id, qty)); l in f'.books && (id in f'.owner <==> !Absent(f'.books[l], id))
    ensures var f' := Handle(c, f, DeleteMsg(id)); l in f'.books && id !in f'.owner && Absent(f'.books[l], id)
  {
    hide Execute, Reduce, Cancel, AbsentLevels, UniqueIds, QtyOf;
    RoutedIn(c, f, l, id);
    ExecuteEffect(f.books[l], id, qty, id);
    ReduceEffect(f.books[l], id, qty, id);
    CancelEffect(f.books[l], id, id);
  }

  lemma NothingHappens(b: Book, id: uint64, qty: uint32)
    requires Shape(b) && Absent(b, id)
    ensures Execute(b, id, qty) == (b, false) && Reduce(b, id, qty) == (b, false) && Cancel(b, id) == b
    ensures Locate(b, id) == Nowhere
  {
    AbsentIsNowhere(b, id);
  }

  /**
   A message about an order that rests nowhere, known to the owner map or not, changes no book; all that ever happens
   is that a deletion drops the stale entry.
   */
  lemma StaleEntriesAreHarmless(c: Config, f: Feed, id: uint64, newId: uint64, qty: uint32, price: uint32)
    requires FeedOk(c, f) && RestsNowhere(f, id)
    ensures Shaped(c, f)
    ensures Handle(c, f, ExecuteMsg(id, qty)) == Handle(c, f, CancelMsg(id, qty)) == f
    ensures Handle(c, f, DeleteMsg(id)) == Feed(f.books, f.owner - {id})
    ensures Handle(c, f, ReplaceMsg(id, newId, qty, price)) == f
  {
    hide Execute, Reduce, Cancel, Locate, AbsentLevels, UniqueIds;
    if id in f.owner {
      var b := f.books[f.owner[id]];
      NothingHappens(b, id, qty);
      assert f.books[f.owner[id] := b] == f.books;
    } else {
      assert f.owner - {id} == f.owner;
    }
  }

  /** The book a message goes to, if any. */
  function Target(f: Feed, m: Message): int {
    match m
    case AddMsg(locate, _, _, _, _) => locate
    case OtherMsg => -1
    case _ => if m.id in f.owner then f.owner[m.id] else -1
  }

  /** No message touches more than its target. */
  lemma OtherBooksUntouched(c: Config, f: Feed, m: Message, k: nat)
    requires Shaped(c, f) && k in f.books && k != Target(f, m)
    ensures k in Handle(c, f, m).books && Handle(c, f, m).books[k] == f.books[k]
  {
    hide Execute, Reduce, Cancel, Insert, Locate;
  }

  // ---- what an order message inserts ----

  /** The book an order for this locate goes to: the one there is, or a new empty one. */
  function BookThere(c: Config, f: Feed, locate: nat): Book {
    if locate in f.books then f.books[locate]
    else Book(c.capacity, 0, false, 0, seq(c.band, _ => []), seq(c.band, _ => []),
              TopOfBook(NULL_IDX, NULL_IDX, 0, 0), [])
  }

  /**
   An Add Order message for a locate that is followed inserts an order with its reference, side, price and shares
   into the book of that locate, a new one if there is none, and the reference is owned exactly if the order rests,
   on that side and at that price. For any other locate nothing happens.
   */
  lemma AddInserts(c: Config, f: Feed, locate: nat, id: uint64, sell: bool, shares: uint32, price: uint32)
    requires FeedOk(c, f) && RestsNowhere(f, id)
    ensures Shaped(c, f) && Shape(BookThere(c, f, locate))
    ensures var f' := Handle(c, f, AddMsg(locate, id, sell, shares, price));
            var (b', rests) := Insert(BookThere(c, f, locate), id, if sell then Sell else Buy, price, shares);
            if locate < 8192 && (c.allowed == {} || locate in c.allowed)
            then && f'.books == f.books[locate := b']
                 && f'.owner == (if rests then f.owner[id := locate] else f.owner)
                 && (rests ==> RestsAt(b', id, if sell then Sell else Buy, price))
            else f' == f
  {
    hide Insert, UniqueIds, AbsentLevels, FeedOk, RestsAt;
    SoundOf(c, f);
    NewBookIs(c, f, locate);
    BookOfOk(c, f, locate, id);
    if Insert(BookThere(c, f, locate), id, if sell then Sell else Buy, price, shares).1 {
      InsertRestsAt(BookThere(c, f, locate), id, if sell then Sell else Buy, price, shares);
    }
  }

  lemma NewBookIs(c: Config, f: Feed, locate: nat)
    ensures BookThere(c, f, locate) == BookOf(c, f, locate)
  {
    var b, b' := BookThere(c, f, locate), BookOf(c, f, locate);
    assert b.bids == b'.bids && b.asks == b'.asks;
  }

  /** The id rests on this side at this absolute price. */
  predicate RestsAt(b: Book, id: uint64, side: Side, price: uint32) {
    var p := Locate(b, id);
    p.At? && p.side == side && b.base + p.level == price
  }

  lemma InsertRestsAt(b: Book, id: uint64, side: Side, price: uint32, qty: uint32)
    requires Shape(b) && UniqueIds(b) && Absent(b, id) && Insert(b, id, side, price, qty).1
    ensures RestsAt(Insert(b, id, side, price, qty).0, id, side, price)
  {
    hide Insert, Locate;
    Outcomes.InsertRests(b, id, side, price, qty);
  }

  /**
   An Order Replace message about a live order cancels it and inserts the new one, with the new reference, shares and
   price, into the same book on the old side; the old reference is dropped, the new one owned exactly if it rests.
   */
  lemma ReplaceInserts(c: Config, f: Feed, id: uint64, newId: uint64, shares: uint32, price: uint32)
    requires FeedOk(c, f) && id in f.owner && Locate(f.books[f.owner[id]], id).At?
    ensures Shaped(c, f) && Shape(f.books[f.owner[id]]) && Shape(Cancel(f.books[f.owner[id]], id))
    ensures var l := f.owner[id];
            var f', b := Handle(c, f, ReplaceMsg(id, newId, shares, price)), f.books[l];
            var (b', rests) := Insert(Cancel(b, id), newId, Locate(b, id).side, price, shares);
            && f'.books == f.books[l := b']
            && f'.owner == (if rests then (f.owner - {id})[newId := l] else f.owner - {id})
  {
    hide Cancel, Insert, Locate, UniqueIds, FeedOk, AbsentLevels;
    SoundOf(c, f);
    RoutedIn(c, f, f.owner[id], id);
    CancelShape(f.books[f.owner[id]], id);
  }

  // ---- whole feeds ----

  /** f' is what a sequence of messages makes of f; each brings only fresh references. */
  ghost predicate Replays(c: Config, f: Feed, ms: seq<Message>, f': Feed)
    decreases |ms|
  {
    if ms == [] then f' == f
    else Shaped(c, f) && FreshMessage(f, ms[0]) && Replays(c, Handle(c, f, ms[0]), ms[1..], f')
  }

  lemma {:induction false} ReplayKeepsRouting(c: Config, f: Feed, ms: seq<Message>, f': Feed)
    requires FeedOk(c, f) && Replays(c, f, ms, f')
    ensures FeedOk(c, f')
    decreases |ms|
  {
    hide FeedOk, Handle, FreshMessage;
    if ms != [] {
      HandleKeepsRouting(c, f, ms[0]);
      ReplayKeepsRouting(c, Handle(c, f, ms[0]), ms[1..], f');
    }
  }

  // ---- framing ----

  type byte = x: int | 0 <= x < 256

  /** The two-byte big-endian length at an offset. */
  function LengthAt(data: seq<byte>, at: nat): (n: nat)
    requires at + 2 <= |data|
    ensures n < 65536
  {
    (data[at] as int) * 256 + data[at + 1] as int
  }

  /** A whole record starts here: a header fits, the length covers the type byte, and the record fits the file. */
  predicate Framed(data: seq<byte>, at: nat) {
    at + 3 <= |data| && 1 <= LengthAt(data, at) && at + 2 + LengthAt(data, at) <= |data|
  }

  /** The records from an offset on, up to the end or the first that is not framed. */
  function Packets(data: seq<byte>, at: nat): seq<seq<byte>>
    decreases |data| - at
  {
    if at < |data| && Framed(data, at)
    then [data[at + 2..at + 2 + LengthAt(data, at)]] + Packets(data, at + 2 + LengthAt(data, at))
    else []
  }

  /** The format the other way round. */
  function Encoded(ps: seq<seq<byte>>): seq<byte>
    requires forall i :: 0 <= i < |ps| ==> 1 <= |ps[i]| < 65536
  {
    if ps == [] then [] else Header(|ps[0]|) + ps[0] + Encoded(ps[1..])
  }

  function Header(n: nat): (h: seq<byte>)
    requires n < 65536
    ensures |h| == 2 && (h[0] as int) * 256 + h[1] as int == n
  {
    [n / 256, n % 256]
  }

  /** Records do not depend on what comes before them. */
  lemma {:induction false} PacketsShift(front: seq<byte>, data: seq<byte>, at: nat)
    ensures Packets(front + data, |front| + at) == Packets(data, at)
    decreases |data| - at
  {
    var all := front + data;
    if at + 3 <= |data| {
      assert all[|front| + at] == data[at] && all[|front| + at + 1] == data[at + 1];
      var n := LengthAt(data, at);
      assert LengthAt(all, |front| + at) == n;
      if Framed(data, at) {
        assert all[|front| + at + 2..|front| + at + 2 + n] == data[at + 2..at + 2 + n];
        PacketsShift(front, data, at + 2 + n);
      }
    }
  }

  lemma PacketsFirst(p: seq<byte>, tail: seq<byte>)
    requires 1 <= |p| < 65536
    ensures Packets((Header(|p|) + p) + tail, 0) == [p] + Packets(tail, 0)
  {
    var head := Header(|p|) + p;
    var all := head + tail;
    assert all[0] == Header(|p|)[0] && all[1] == Header(|p|)[1];
    assert LengthAt(all, 0) == |p|;
    assert all[2..2 + |p|] == p;
    PacketsShift(head, tail, 0);
  }

  /** Reading back what was written yields the records, followed by whatever the rest of the file holds. */
  lemma {:induction false} PacketsOfEncoded(ps: seq<seq<byte>>, rest: seq<byte>)
    requires forall i :: 0 <= i < |ps| ==> 1 <= |ps[i]| < 65536
    ensures Packets(Encoded(ps) + rest, 0) == ps + Packets(rest, 0)
    decreases |ps|
  {
    hide Packets, Header;
    if ps == [] {
      assert Encoded(ps) + rest == rest && ps + Packets(rest, 0) == Packets(rest, 0);
    } else {
      var tail := Encoded(ps[1..]) + rest;
      assert Encoded(ps) + rest == (Header(|ps[0]|) + ps[0]) + tail;
      PacketsFirst(ps[0], tail);
      PacketsOfEncoded(ps[1..], rest);
      assert [ps[0]] + (ps[1..] + Packets(rest, 0)) == ps + Packets(rest, 0);
    }
  }

  /** Size of the body a message type is read with; 0 for types that are skipped. */
  function BodySize(kind: byte): nat {
    match kind
    case 65 => 35
    case 70 => 39
    case 69 => 30
    case 67 => 35
    case 88 => 22
    case 68 => 18
    case 85 => 34
    case _ => 0
  }

  type Decoder = (byte, seq<byte>) -> Message

  /** The message read at a record: its body is bounded by the end of the file, not by the record. */
  function MessageAt(data: seq<byte>, at: nat, decode: Decoder): Message
    requires at + 3 <= |data|
  {
    var size := BodySize(data[at + 2]);
    if size == 0 || |data| - (at + 3) < size then OtherMsg else decode(data[at + 2], data[at + 3..at + 3 + size])
  }

  /** All messages of a file. */
  function Messages(data: seq<byte>, at: nat, decode: Decoder): seq<Message>
    decreases |data| - at
  {
    if at < |data| && Framed(data, at)
    then [MessageAt(data, at, decode)] + Messages(data, at + 2 + LengthAt(data, at), decode)
    else []
  }

  /** The message a record holds by itself; a record too short for its type holds none. */
  function MessageIn(packet: seq<byte>, decode: Decoder): Message
    requires packet != []
  {
    var size := BodySize(packet[0]);
    if size == 0 || |packet| - 1 < size then OtherMsg else decode(packet[0], packet[1..1 + size])
  }

  lemma SliceOfSlice<T>(s: seq<T>, lo: nat, hi: nat, from: nat, to: nat)
    requires lo <= hi <= |s| && from <= to <= hi - lo
    ensures s[lo..hi][from..to] == s[lo + from..lo + to]
  {
    forall k | 0 <= k < to - from
      ensures s[lo..hi][from..to][k] == s[lo + from..lo + to][k]
    {
      assert s[lo..hi][from + k] == s[lo + from + k];
    }
  }

  /** A decoder that makes a message of every full body. */
  ghost predicate ReadsBodies(decode: Decoder) {
    forall kind: byte, body: seq<byte> :: BodySize(kind) > 0 && |body| == BodySize(kind)
        ==> decode(kind, body) != OtherMsg
  }

  /** The body ends within the record, or the file ends before the body would. */
  predicate BodyFits(data: seq<byte>, at: nat)
    requires Framed(data, at)
  {
    BodySize(data[at + 2]) + 1 <= LengthAt(data, at) || |data| - (at + 3) < BodySize(data[at + 2])
  }

  /**
   The message read at a record is the one the record holds when the record is long enough for its type or the file
   itself ends too early for it; with a decoder that makes a message of every full body, only then.
   */
  lemma OwnRecordIff(data: seq<byte>, at: nat, decode: Decoder)
    requires Framed(data, at)
    ensures var packet := data[at + 2..at + 2 + LengthAt(data, at)];
            && (BodyFits(data, at) ==> MessageAt(data, at, decode) == MessageIn(packet, decode))
            && (ReadsBodies(decode) ==> (MessageAt(data, at, decode) == MessageIn(packet, decode) <==> BodyFits(data,
                at)))
  {
    var packet := data[at + 2..at + 2 + LengthAt(data, at)];
    var size := BodySize(packet[0]);
    if size + 1 <= |packet| {
      SliceOfSlice(data, at + 2, at + 2 + LengthAt(data, at), 1, 1 + size);
    }
  }

  /** A one-byte Order Delete record is given a body out of whatever the file goes on with. */
  lemma BodyFromNextRecord(data: seq<byte>, tail: seq<byte>, decode: Decoder)
    requires data == [0, 1, 68] + tail && |tail| >= 18
    ensures Framed(data, 0) && data[2..2 + LengthAt(data, 0)] == [68] && MessageIn([68], decode) == OtherMsg
    ensures MessageAt(data, 0, decode) == decode(68, tail[..18])
  {
    assert data[2..3] == [68];
    assert data[3..21] == tail[..18];
  }

  lemma MessageShift(front: seq<byte>, data: seq<byte>, at: nat, decode: Decoder)
    requires at + 3 <= |data|
    ensures MessageAt(front + data, |front| + at, decode) == MessageAt(data, at, decode)
  {
    hide BodySize;
    var all, size := front + data, BodySize(data[at + 2]);
    assert all[|front| + at + 2] == data[at + 2];
    if |data| - (at + 3) >= size {
      assert all[|front| + at + 3..|front| + at + 3 + size] == data[at + 3..at + 3 + size];
    }
  }

  /** Messages do not depend on what comes before their records. */
  lemma {:induction false} MessagesShift(front: seq<byte>, data: seq<byte>, at: nat, decode: Decoder)
    ensures Messages(front + data, |front| + at, decode) == Messages(data, at, decode)
    decreases |data| - at
  {
    hide MessageAt;
    var all := front + data;
    if at + 3 <= |data| {
      assert all[|front| + at] == data[at] && all[|front| + at + 1] == data[at + 1];
      var n := LengthAt(data, at);
      assert LengthAt(all, |front| + at) == n;
      if Framed(data, at) {
        MessageShift(front, data, at, decode);
        MessagesShift(front, data, at + 2 + n, decode);
      }
    }
  }

  /** A record that fits the format and has room for the body of its type. */
  predicate Complete(packet: seq<byte>) {
    1 <= |packet| < 65536 && BodySize(packet[0]) + 1 <= |packet|
  }

  predicate AllComplete(ps: seq<seq<byte>>) {
    forall i :: 0 <= i < |ps| ==> Complete(ps[i])
  }

  function DecodeAll(ps: seq<seq<byte>>, decode: Decoder): seq<Message>
    requires AllComplete(ps)
  {
    if ps == [] then [] else [MessageIn(ps[0], decode)] + DecodeAll(ps[1..], decode)
  }

  lemma MessagesFirst(p: seq<byte>, tail: seq<byte>, decode: Decoder)
    requires Complete(p)
    ensures Messages((Header(|p|) + p) + tail, 0, decode) == [MessageIn(p, decode)] + Messages(tail, 0, decode)
  {
    hide BodySize, MessageAt, MessageIn, Header;
    var head := Header(|p|) + p;
    var all := head + tail;
    assert all[0] == Header(|p|)[0] && all[1] == Header(|p|)[1];
    assert LengthAt(all, 0) == |p|;
    assert all[2..2 + |p|] == p;
    OwnRecordIff(all, 0, decode);
    assert MessageAt(all, 0, decode) == MessageIn(p, decode);
    MessagesShift(head, tail, 0, decode);
    assert Messages(all, |head|, decode) == Messages(tail, 0, decode);
  }

  /** Reading back a file of complete records yields the messages they hold, then those of the rest of the file. */
  lemma {:induction false} MessagesOfEncoded(ps: seq<seq<byte>>, rest: seq<byte>, decode: Decoder)
    requires AllComplete(ps)
    ensures Messages(Encoded(ps) + rest, 0, decode) == DecodeAll(ps, decode) + Messages(rest, 0, decode)
    decreases |ps|
  {
    hide Messages, Header, MessageIn, BodySize;
    if ps == [] {
      assert Encoded(ps) + rest == rest;
    } else {
      var tail := Encoded(ps[1..]) + rest;
      assert Encoded(ps) + rest == (Header(|ps[0]|) + ps[0]) + tail;
      MessagesFirst(ps[0], tail, decode);
      MessagesOfEncoded(ps[1..], rest, decode);
      var m, ms, more := MessageIn(ps[0], decode), DecodeAll(ps[1..], decode), Messages(rest, 0, decode);
      assert [m] + (ms + more) == ([m] + ms) + more;
    }
  }

  /** The body lengths of the seven message types that are read: A, F, E, C, X, D and U. */
  predicate ReadWith(kind: byte, n: nat) {
    (kind, n) in {(65, 35), (70, 39), (69, 30), (67, 35), (88, 22), (68, 18), (85, 34)}
  }

  /** The parts of a file that is one record. */
  lemma RecordParts(high: byte, low: byte, kind: byte, body: seq<byte>) returns (data: seq<byte>)
    requires (high as int) * 256 + low as int == |body| + 1
    ensures data == [high, low, kind] + body && |data| == 3 + |body| && data[2] == kind && data[3..] == body
    ensures Framed(data, 0) && 2 + LengthAt(data, 0) == |data|
  {
    data := [high, low, kind] + body;
    assert data[0] == high && data[1] == low;
  }

  lemma OnlyMessage(data: seq<byte>, decode: Decoder)
    requires Framed(data, 0) && 2 + LengthAt(data, 0) == |data|
    ensures Messages(data, 0, decode) == [MessageAt(data, 0, decode)]
  {
    hide MessageAt;
    assert Messages(data, |data|, decode) == [];
  }

  /** A file of one record with a body of exactly its type's length holds the message decoded from that body. */
  lemma OneRecord(kind: byte, body: seq<byte>, decode: Decoder)
    requires ReadWith(kind, |body|)
    ensures Messages([0, |body| + 1, kind] + body, 0, decode) == [decode(kind, body)]
  {
    hide Messages, LengthAt;
    var data := RecordParts(0, |body| + 1, kind, body);
    OnlyMessage(data, decode);
    assert data[3..3 + |body|] == data[3..];
  }

  /** With one byte less at the end of the file there is no message in it. */
  lemma OneByteShort(kind: byte, body: seq<byte>, decode: Decoder)
    requires ReadWith(kind, |body| + 1)
    ensures Messages([0, |body| + 1, kind] + body, 0, decode) == [OtherMsg]
  {
    hide Messages, LengthAt;
    var data := RecordParts(0, |body| + 1, kind, body);
    OnlyMessage(data, decode);
  }

  /** Records of every other type hold no message, whatever their length. */
  lemma OtherKind(high: byte, low: byte, kind: byte, body: seq<byte>, decode: Decoder)
    requires kind !in {65, 70, 69, 67, 88, 68, 85} && (high as int) * 256 + low as int == |body| + 1
    ensures Messages([high, low, kind] + body, 0, decode) == [OtherMsg]
  {
    hide Messages, LengthAt;
    var data := RecordParts(high, low, kind, body);
    OnlyMessage(data, decode);
  }

  /** A record cut short by the end of the file, or of length zero, ends the replay. */
  lemma CutRecord(high: byte, low: byte, rest: seq<byte>, decode: Decoder)
    requires var n := (high as int) * 256 + low as int; n == 0 || |rest| < n
    ensures Messages([high, low] + rest, 0, decode) == [] && Packets([high, low] + rest, 0) == []
  {
    var data := [high, low] + rest;
    assert |data| >= 3 ==> data[0] == high && data[1] == low;
  }

  /** One message per framed record. */
  lemma {:induction false} MessagePerPacket(data: seq<byte>, at: nat, decode: Decoder)
    ensures |Messages(data, at, decode)| == |Packets(data, at)|
    decreases |data| - at
  {
    hide MessageAt;
    if at < |data| && Framed(data, at) {
      MessagePerPacket(data, at + 2 + LengthAt(data, at), decode);
    }
  }
}
