/**
 The replay over order book objects: one book per stock locate, made when its first order arrives, and a map from
 order reference to the book that holds the order. Every message does to the books what `Itch.Handle` says.
 */
module ItchReplays {
  import opened Types
  import opened BookSpec
  import opened BookIds
  import opened Ledgers
  import opened Uniques
  import opened OrderBooks
  import opened Itch
  import ProbeTable

  type Market = map<nat, OrderBook>

  /** The objects a book consists of. */
  ghost function Parts(b: OrderBook): set<object> {
    {b, b.pool, b.pool.slots, b.idMap}
  }

  ghost function AllParts(books: Market): set<object> {
    set l, o | l in books && o in Parts(books[l]) :: o
  }

  lemma PartsIn(books: Market, l: nat)
    requires l in books
    ensures Parts(books[l]) <= AllParts(books)
  {
  }

  /** No two books share an object. */
  ghost predicate Disjoint(books: Market) {
    forall l, k :: l in books && k in books && l != k ==> Separate(books[l], books[k])
  }

  ghost predicate Separate(b: OrderBook, c: OrderBook) {
    b != c && b.pool != c.pool && b.pool.slots != c.pool.slots && b.idMap != c.idMap
  }

  ghost function ViewAt(books: Market, l: nat): Book
    requires l in books
    reads AllParts(books)
  {
    PartsIn(books, l);
    books[l].View()
  }

  ghost predicate ValidAt(books: Market, l: nat)
    requires l in books
    reads AllParts(books)
  {
    PartsIn(books, l);
    books[l].Valid()
  }

  /** What the books show. */
  ghost function Views(books: Market): map<nat, Book>
    reads AllParts(books)
  {
    map l | l in books :: ViewAt(books, l)
  }

  ghost predicate AllValid(books: Market)
    reads AllParts(books)
  {
    forall l :: l in books ==> ValidAt(books, l)
  }

  ghost predicate Shows(b: OrderBook, v: Book)
    reads b, b.pool, b.pool.slots, b.idMap
  {
    b.Valid() && b.View() == v
  }

  /** Where all books but l show what they did, the market shows what it did but for book l. */
  lemma OneBookShows(books: Market, l: nat, was: map<nat, Book>)
    requires l in books && books.Keys == was.Keys + {l} && books[l].Valid()
    requires forall k :: k in books && k != l ==> Shows(books[k], was[k])
    ensures AllValid(books) && Views(books) == was[l := books[l].View()]
  {
    hide OrderBook.View, OrderBook.Valid;
  }

  lemma EachShows(books: Market)
    requires AllValid(books)
    ensures books.Keys == Views(books).Keys && forall l :: l in books ==> Shows(books[l], Views(books)[l])
  {
    hide OrderBook.View, OrderBook.Valid;
    forall l | l in books
      ensures Shows(books[l], Views(books)[l])
    {
      assert ValidAt(books, l);
    }
  }

  class Parser {
    const config: Config
    const hash: ProbeTable.Hash
    var marketBooks: Market
    var refOwner: map<uint64, OrderBook>
    /** The locate of the book that an order reference points to. */
    ghost var owner: map<uint64, nat>

    ghost function State(): Feed
      reads this, AllParts(marketBooks)
    {
      Feed(Views(marketBooks), owner)
    }

    /** References point to books of the market, each to the one the owner map names. */
    ghost predicate Pointing()
      reads this
    {
      && refOwner.Keys == owner.Keys
      && forall id :: id in refOwner ==> owner[id] in marketBooks && refOwner[id] == marketBooks[owner[id]]
    }

    ghost predicate Valid()
      reads this, AllParts(marketBooks)
    {
      && config.band <= NULL_IDX && 1 <= config.capacity <= 0x4000_0000
      && Running() && Pointing()
      && FeedOk(config, State())
    }

    constructor (config: Config, hash: ProbeTable.Hash)
      requires 1 <= config.band <= NULL_IDX && 1 <= config.capacity <= 0x4000_0000
      ensures this.config == config && Valid() && State() == Feed(map[], map[]) && AllParts(marketBooks) == {}
    {
      this.config, this.hash := config, hash;
      marketBooks, refOwner, owner := map[], map[], map[];
    }

    ghost predicate Running()
      reads this, AllParts(marketBooks)
    {
      Disjoint(marketBooks) && AllValid(marketBooks)
    }

    lemma BookIn(l: nat)
      requires Running() && l in marketBooks
      ensures Parts(marketBooks[l]) <= AllParts(marketBooks) && l in Views(marketBooks)
      ensures marketBooks[l].Valid() && marketBooks[l].View() == Views(marketBooks)[l] && Shape(Views(marketBooks)[l])
    {
      hide OrderBook.View, OrderBook.Valid;
      PartsIn(marketBooks, l);
      assert ValidAt(marketBooks, l);
      ValidShape(marketBooks[l]);
    }

    /** The parser itself is no part of a book. */
    lemma NotPart()
      ensures (this as object) !in AllParts(marketBooks)
    {
    }

    // ---- a call on one book leaves the others alone ----

    method ExecuteIn(book: OrderBook, id: uint64, shares: uint32, ghost l: nat) returns (gone: bool)
      requires Running() && l in marketBooks && marketBooks[l] == book
      modifies book, book.pool, book.pool.slots, book.idMap
      ensures Running() && l in old(Views(marketBooks)) && Shape(old(Views(marketBooks))[l])
      ensures var (b, r) := Execute(old(Views(marketBooks))[l], id, shares);
              gone == r && Views(marketBooks) == old(Views(marketBooks))[l := b]
    {
      hide OrderBook.View, OrderBook.Valid, Shows, AllValid, Views, Execute;
      BookIn(l);
      EachShows(marketBooks);
      ghost var was := Views(marketBooks);
      gone := book.ExecuteOrder(id, shares);
      forall k | k in marketBooks && k != l
        ensures Shows(marketBooks[k], was[k])
      {
        assert Separate(marketBooks[k], book) && old(Shows(marketBooks[k], Views(marketBooks)[k]));
      }
      OneBookShows(marketBooks, l, was);
    }

    method ReduceIn(book: OrderBook, id: uint64, canceled: uint32, ghost l: nat) returns (gone: bool)
      requires Running() && l in marketBooks && marketBooks[l] == book
      modifies book, book.pool, book.pool.slots, book.idMap
      ensures Running() && l in old(Views(marketBooks)) && Shape(old(Views(marketBooks))[l])
      ensures var (b, r) := Reduce(old(Views(marketBooks))[l], id, canceled);
              gone == r && Views(marketBooks) == old(Views(marketBooks))[l := b]
    {
      hide OrderBook.View, OrderBook.Valid, Shows, AllValid, Views, Reduce;
      BookIn(l);
      EachShows(marketBooks);
      ghost var was := Views(marketBooks);
      gone := book.ReduceOrderQty(id, canceled);
      forall k | k in marketBooks && k != l
        ensures Shows(marketBooks[k], was[k])
      {
        assert Separate(marketBooks[k], book) && old(Shows(marketBooks[k], Views(marketBooks)[k]));
      }
      OneBookShows(marketBooks, l, was);
    }

    method CancelIn(book: OrderBook, id: uint64, ghost l: nat)
      requires Running() && l in marketBooks && marketBooks[l] == book
      modifies book, book.pool, book.pool.slots, book.idMap
      ensures Running() && l in old(Views(marketBooks)) && Shape(old(Views(marketBooks))[l])
      ensures Views(marketBooks) == old(Views(marketBooks))[l := Cancel(old(Views(marketBooks))[l], id)]
    {
      hide OrderBook.View, OrderBook.Valid, Shows, AllValid, Views, Cancel;
      BookIn(l);
      EachShows(marketBooks);
      ghost var was := Views(marketBooks);
      book.CancelOrder(id);
      forall k | k in marketBooks && k != l
        ensures Shows(marketBooks[k], was[k])
      {
        assert Separate(marketBooks[k], book) && old(Shows(marketBooks[k], Views(marketBooks)[k]));
      }
      OneBookShows(marketBooks, l, was);
    }

    method InsertIn(book: OrderBook, id: uint64, side: Side, price: uint32, qty: uint32, ghost l: nat)
      returns (rests: bool)
      requires Running() && l in marketBooks && marketBooks[l] == book
      requires l in Views(marketBooks) && Absent(Views(marketBooks)[l], id)
      modifies book, book.pool, book.pool.slots, book.idMap
      ensures Running() && l in old(Views(marketBooks)) && Shape(old(Views(marketBooks))[l])
      ensures var (b, r) := Insert(old(Views(marketBooks))[l], id, side, price, qty);
              rests == r && Views(marketBooks) == old(Views(marketBooks))[l := b]
    {
      hide OrderBook.View, OrderBook.Valid, Shows, AllValid, Views, Insert, Absent;
      BookIn(l);
      EachShows(marketBooks);
      ghost var was := Views(marketBooks);
      rests := book.InsertLimitOrder(id, side, price, qty);
      forall k | k in marketBooks && k != l
        ensures Shows(marketBooks[k], was[k])
      {
        assert Separate(marketBooks[k], book) && old(Shows(marketBooks[k], Views(marketBooks)[k]));
      }
      OneBookShows(marketBooks, l, was);
    }

    method FindSideIn(book: OrderBook, id: uint64, ghost l: nat) returns (found: bool, side: Side)
      requires Running() && l in marketBooks && marketBooks[l] == book
      ensures Running() && l in Views(marketBooks) && Views(marketBooks) == old(Views(marketBooks))
      ensures var p := Locate(Views(marketBooks)[l], id); found == p.At? && (found ==> side == p.side)
    {
      hide OrderBook.View, OrderBook.Valid, Locate;
      BookIn(l);
      found, side := book.FindSide(id);
    }

    // ---- the references ----

    method Forget(id: uint64)
      requires Running() && Pointing()
      modifies this`refOwner, this`owner
      ensures Running() && Pointing() && owner == old(owner) - {id} && Views(marketBooks) == old(Views(marketBooks))
    {
      hide AllParts, Views, AllValid, Disjoint;
      NotPart();
      refOwner, owner := refOwner - {id}, owner - {id};
    }

    method Remember(id: uint64, book: OrderBook, ghost l: nat)
      requires Running() && Pointing() && l in marketBooks && marketBooks[l] == book
      modifies this`refOwner, this`owner
      ensures Running() && Pointing() && owner == old(owner)[id := l] && Views(marketBooks) == old(Views(marketBooks))
    {
      hide AllParts, Views, AllValid, Disjoint;
      NotPart();
      refOwner, owner := refOwner[id := book], owner[id := l];
    }

    // ---- the messages ----

    /** The E and C cases. */
    method ExecuteRef(id: uint64, shares: uint32)
      requires Valid()
      modifies this, AllParts(marketBooks)
      ensures Valid() && marketBooks == old(marketBooks)
      ensures old(Shaped(config, State())) && State() == Handle(config, old(State()), ExecuteMsg(id, shares))
    {
      hide Execute, FeedOk, Views, AllValid, AllParts, Shape, Running;
      SoundOf(config, State());
      HandleKeepsRouting(config, State(), ExecuteMsg(id, shares));
      if id in refOwner {
        ghost var l := owner[id];
        PartsIn(marketBooks, l);
        var gone := ExecuteIn(refOwner[id], id, shares, l);
        if gone {
          Forget(id);
        }
      }
    }

    /** The X case. */
    method ReduceRef(id: uint64, canceled: uint32)
      requires Valid()
      modifies this, AllParts(marketBooks)
      ensures Valid() && marketBooks == old(marketBooks)
      ensures old(Shaped(config, State())) && State() == Handle(config, old(State()), CancelMsg(id, canceled))
    {
      hide Reduce, FeedOk, Views, AllValid, AllParts, Shape, Running;
      SoundOf(config, State());
      HandleKeepsRouting(config, State(), CancelMsg(id, canceled));
      if id in refOwner {
        ghost var l := owner[id];
        PartsIn(marketBooks, l);
        var gone := ReduceIn(refOwner[id], id, canceled, l);
        if gone {
          Forget(id);
        }
      }
    }

    /** The D case. */
    method DeleteRef(id: uint64)
      requires Valid()
      modifies this, AllParts(marketBooks)
      ensures Valid() && marketBooks == old(marketBooks)
      ensures old(Shaped(config, State())) && State() == Handle(config, old(State()), DeleteMsg(id))
    {
      hide Cancel, FeedOk, Views, AllValid, AllParts, Shape, Running;
      SoundOf(config, State());
      HandleKeepsRouting(config, State(), DeleteMsg(id));
      if id in refOwner {
        ghost var l := owner[id];
        PartsIn(marketBooks, l);
        CancelIn(refOwner[id], id, l);
        Forget(id);
      }
    }

    method NewBook() returns (book: OrderBook)
      requires 1 <= config.band <= NULL_IDX && 1 <= config.capacity <= 0x4000_0000
      ensures fresh(book) && fresh(book.pool) && fresh(book.pool.slots) && fresh(book.idMap)
      ensures book.Valid() && book.View() == FreshBook(config.band, config.capacity)
    {
      hide OrderBook.View, OrderBook.Valid, FreshBook;
      book := new OrderBook(config.band, config.capacity, hash);
      NewIsFresh(book.View(), config.band, config.capacity);
    }

    /** `book = std::make_unique<OrderBook>(price_band, logger, max_orders)` */
    method MakeBook(locate: nat)
      requires Running() && locate !in marketBooks
      requires 1 <= config.band <= NULL_IDX && 1 <= config.capacity <= 0x4000_0000
      modifies this`marketBooks
      ensures Running() && locate in marketBooks && marketBooks - {locate} == old(marketBooks)
      ensures Views(marketBooks) == old(Views(marketBooks))[locate := FreshBook(config.band, config.capacity)]
      ensures fresh(AllParts(marketBooks) - old(AllParts(marketBooks)))
    {
      hide OrderBook.View, OrderBook.Valid, Shows, AllValid, Views, FreshBook, OrderBook.Coherent;
      EachShows(marketBooks);
      ghost var was := Views(marketBooks);
      var book := NewBook();
      marketBooks := marketBooks[locate := book];
      forall k | k in marketBooks && k != locate
        ensures Shows(marketBooks[k], was[k])
      {
        assert old(Shows(marketBooks[k], Views(marketBooks)[k]));
      }
      OneBookShows(marketBooks, locate, was);
    }

    /** An order for a book of the market, and a reference to it if it rests. */
    method InsertRef(locate: nat, id: uint64, side: Side, price: uint32, shares: uint32)
      requires Running() && Pointing() && locate in marketBooks
      requires locate in Views(marketBooks) && Absent(Views(marketBooks)[locate], id)
      modifies this`refOwner, this`owner, AllParts(marketBooks)
      ensures Running() && Pointing() && Shape(old(Views(marketBooks))[locate])
      ensures var (b, rests) := Insert(old(Views(marketBooks))[locate], id, side, price, shares);
              && Views(marketBooks) == old(Views(marketBooks))[locate := b]
              && owner == if rests then old(owner)[id := locate] else old(owner)
    {
      hide Insert, Views, AllValid, AllParts, Disjoint, Absent;
      PartsIn(marketBooks, locate);
      var rests := InsertIn(marketBooks[locate], id, side, price, shares, locate);
      if rests {
        Remember(id, marketBooks[locate], locate);
      }
    }

    /** The A and F cases: the first order of a locate makes its book. */
    method AddOrder(locate: nat, id: uint64, sell: bool, shares: uint32, price: uint32)
      requires Valid() && RestsNowhere(State(), id)
      modifies this, AllParts(marketBooks)
      ensures Valid() && fresh(AllParts(marketBooks) - old(AllParts(marketBooks)))
      ensures old(Shaped(config, State()))
              && State() == Handle(config, old(State()), AddMsg(locate, id, sell, shares, price))
    {
      hide Insert, FeedOk, Views, AllValid, AllParts, Disjoint, Absent;
      ghost var f := State();
      SoundOf(config, f);
      HandleKeepsRouting(config, f, AddMsg(locate, id, sell, shares, price));
      if locate < MAX_STOCK_LOCATE && Tracked(config, locate) {
        BookOfOk(config, f, locate, id);
        MarketOf(f);
        if locate !in marketBooks {
          MakeBook(locate);
        }
        assert locate in Views(marketBooks) && Views(marketBooks)[locate] == BookOf(config, f, locate);
        var side := if sell then Sell else Buy;
        NotPart();
        InsertRef(locate, id, side, price, shares);
        assert Views(marketBooks) == f.books[locate := Insert(BookOf(config, f, locate), id, side, price, shares).0];
      }
    }

    /** The U case. */
    method ReplaceOrder(id: uint64, newId: uint64, shares: uint32, price: uint32)
      requires Valid() && FreshMessage(State(), ReplaceMsg(id, newId, shares, price))
      modifies this`refOwner, this`owner, AllParts(marketBooks)
      ensures Valid() && marketBooks == old(marketBooks)
      ensures old(Shaped(config, State()))
              && State() == Handle(config, old(State()), ReplaceMsg(id, newId, shares, price))
    {
      hide Insert, Cancel, Locate, FeedOk, Views, AllValid, AllParts, Disjoint, Absent;
      NotPart();
      ghost var f := State();
      SoundOf(config, f);
      HandleKeepsRouting(config, f, ReplaceMsg(id, newId, shares, price));
      if id in refOwner {
        var book := refOwner[id];
        ghost var l := owner[id];
        PartsIn(marketBooks, l);
        var found, side := FindSideIn(book, id, l);
        if found {
          Replaceable(f, id, newId, shares, price);
          CancelIn(book, id, l);
          var rests := InsertIn(book, newId, side, price, shares, l);
          Forget(id);
          if rests {
            Remember(newId, book, l);
          }
          assert Views(marketBooks) == f.books[l := Insert(Cancel(f.books[l], id), newId, side, price, shares).0];
        }
      }
    }

    /** The switch over message types. */
    method Dispatch(m: Message)
      requires Valid() && FreshMessage(State(), m)
      modifies this, AllParts(marketBooks)
      ensures Valid() && fresh(AllParts(marketBooks) - old(AllParts(marketBooks)))
      ensures old(Shaped(config, State())) && State() == Handle(config, old(State()), m)
    {
      hide Handle, FeedOk, Views, AllValid, AllParts, Disjoint, Absent;
      SoundOf(config, State());
      match m {
        case AddMsg(locate, id, sell, shares, price) => AddOrder(locate, id, sell, shares, price);
        case ExecuteMsg(id, shares) => ExecuteRef(id, shares);
        case CancelMsg(id, canceled) => ReduceRef(id, canceled);
        case DeleteMsg(id) => DeleteRef(id);
        case ReplaceMsg(id, newId, shares, price) =>
          NotPart();
          ReplaceOrder(id, newId, shares, price);
        case OtherMsg => OtherIsIgnored(config, State());
      }
    }

    /** One turn of the loop: the record at the cursor. */
    method ParseRecord(data: seq<byte>, cursor: nat, decode: Decoder, ghost goal: Feed) returns (next: nat)
      requires Valid() && Framed(data, cursor)
      requires Replays(config, State(), Messages(data, cursor, decode), goal)
      modifies this, AllParts(marketBooks)
      ensures Valid() && next == cursor + 2 + LengthAt(data, cursor) <= |data|
      ensures Replays(config, State(), Messages(data, next, decode), goal)
      ensures |Messages(data, cursor, decode)| == 1 + |Messages(data, next, decode)|
      ensures fresh(AllParts(marketBooks) - old(AllParts(marketBooks)))
    {
      hide FeedOk, Handle, MessageAt, FreshMessage, Views, Running, Pointing;
      next := cursor + 2 + LengthAt(data, cursor);
      var m := MessageAt(data, cursor, decode);
      assert Messages(data, cursor, decode) == [m] + Messages(data, next, decode);
      Dispatch(m);
    }

    /**
     The loop over the mapped file: it ends, stays within the file, and replays exactly its messages on books that
     share nothing, each of which stays valid; every order it looks for is in the book its reference points to.
     */
    method Parse(data: seq<byte>, decode: Decoder, ghost goal: Feed) returns (count: nat)
      requires Valid() && Replays(config, State(), Messages(data, 0, decode), goal)
      modifies this, AllParts(marketBooks)
      ensures Valid() && State() == goal && count == |Packets(data, 0)|
      ensures fresh(AllParts(marketBooks) - old(AllParts(marketBooks)))
    {
      hide Valid, State, Packets, Messages, Replays, LengthAt;
      MessagePerPacket(data, 0, decode);
      count := 0;
      var cursor := 0;
      while cursor < |data|
        invariant cursor <= |data|
        invariant Valid() && Replays(config, State(), Messages(data, cursor, decode), goal)
        invariant fresh(AllParts(marketBooks) - old(AllParts(marketBooks)))
        invariant count + |Messages(data, cursor, decode)| == |Messages(data, 0, decode)|
        decreases |data| - cursor
      {
        if cursor + 3 > |data| {
          break;
        }
        var length := LengthAt(data, cursor);
        if length < 1 || cursor + 2 + length > |data| {
          break;
        }
        cursor := ParseRecord(data, cursor, decode, goal);
        count := count + 1;
      }
      ReplayEnds(config, State(), data, cursor, decode, goal);
    }

    /** Once the old order is cancelled the new reference is free in its book. */
    lemma Replaceable(f: Feed, id: uint64, newId: uint64, shares: uint32, price: uint32)
      requires FeedOk(config, f) && FreshMessage(f, ReplaceMsg(id, newId, shares, price)) && id in f.owner
      ensures f.owner[id] in f.books && Shape(f.books[f.owner[id]]) && Absent(Cancel(f.books[f.owner[id]], id), newId)
    {
      hide Cancel, UniqueIds, AbsentLevels, Shape, FeedOk;
      SoundOf(config, f);
      RoutedIn(config, f, f.owner[id], id);
      CancelKeepsIds(f.books[f.owner[id]], id, newId);
    }

    lemma MarketOf(f: Feed)
      requires f == State()
      ensures marketBooks.Keys == f.books.Keys
    {
    }
  }

  lemma NewIsFresh(b: Book, band: nat, capacity: nat)
    requires b == Book(capacity, 0, false, 0, seq(band, _ => []), seq(band, _ => []),
             TopOfBook(NULL_IDX, NULL_IDX, 0, 0), [])
    ensures b == FreshBook(band, capacity)
  {
    assert b.bids == FreshBook(band, capacity).bids;
  }

  /** Where no record starts there is nothing left to replay. */
  lemma ReplayEnds(c: Config, f: Feed, data: seq<byte>, at: nat, decode: Decoder, goal: Feed)
    requires Replays(c, f, Messages(data, at, decode), goal) && !(at < |data| && Framed(data, at))
    ensures f == goal && Messages(data, at, decode) == []
  {
  }

  lemma OtherIsIgnored(c: Config, f: Feed)
    requires Shaped(c, f)
    ensures Handle(c, f, OtherMsg) == f
  {
  }

  lemma ValidShape(b: OrderBook)
    requires b.Valid()
    ensures Shape(b.View())
  {
    hide OrderBook.View, OrderBook.Coherent, WfSide;
  }
}
