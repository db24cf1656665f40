/** The value types every component shares: fixed-width integers, orders, price levels and trades. */
module Types {
  const TWO_32: nat := 0x1_0000_0000
  const TWO_64: nat := 0x1_0000_0000_0000_0000

  type uint32 = x: int | 0 <= x < 0x1_0000_0000
  type uint64 = x: int | 0 <= x < 0x1_0000_0000_0000_0000

  /** The "no order" / "no level" sentinel, UINT32_MAX. */
  const NULL_IDX: uint32 := 0xFFFF_FFFF

  /** Unsigned 32-bit arithmetic wraps. */
  function Wrap32(x: int): uint32 {
    x % 0x1_0000_0000
  }

  lemma WrapSum(a: int, b: int)
    ensures Wrap32(Wrap32(a) + b) == Wrap32(a + b)
    ensures Wrap32(Wrap32(a) - b) == Wrap32(a - b)
  {
    var q := a / 0x1_0000_0000;
    assert Wrap32(a) == a - q * 0x1_0000_0000;
    WrapShift(a + b, q);
    WrapShift(a - b, q);
  }

  lemma WrapShift(x: int, q: int)
    ensures Wrap32(x - q * 0x1_0000_0000) == Wrap32(x)
  {
    var y := x - q * 0x1_0000_0000;
    assert x == (y / 0x1_0000_0000 + q) * 0x1_0000_0000 + y % 0x1_0000_0000;
  }

  datatype Side = Buy | Sell {
    function Opposite(): Side {
      if Buy? then Sell else Buy
    }
  }

  /** A pool slot. While the slot is free, `next` is the free-list link. */
  datatype Order = Order(id: uint64, next: uint32, prev: uint32, price: uint32, qty: uint32, side: Side)

  datatype PriceLevel = PriceLevel(price: uint32, totalVolume: uint32, head: uint32, tail: uint32, count: uint32) {
    predicate Empty() {
      head == NULL_IDX
    }
  }

  const EMPTY_LEVEL := PriceLevel(0, 0, NULL_IDX, NULL_IDX, 0)

  datatype TopOfBook = TopOfBook(bestBid: uint32, bestAsk: uint32, bidQty: uint32, askQty: uint32)

  /** One fill as handed to the logger; the time stamp is an arbitrary reading and is left out. */
  datatype Trade = Trade(maker: uint64, taker: uint64, price: nat, qty: nat)

  /** An order as it rests in a queue: what a client can observe of it. */
  datatype Resting = Resting(id: uint64, qty: uint32)

  function Min(a: int, b: int): int {
    if a < b then a else b
  }
}
