/** include/lob/types.hpp: the engine's vocabulary. */
module LobTypes {
  import Words

  const TWO_TO_THE_32: nat := 0x1_0000_0000

  type Price = p: int | -0x8000_0000 <= p < 0x8000_0000
  type Quantity = q: nat | q < 0x1_0000_0000
  type OrderId = i: nat | i < 0x1_0000_0000_0000_0000
  type Timestamp = t: nat | t < 0x1_0000_0000_0000_0000

  /** nullptr, where pointers are slab indices. */
  const NULL: int := -1

  const INVALID_PRICE: Price := -1
  const INVALID_ORDER_ID: OrderId := 0

  datatype Option<T> = None | Some(value: T)

  datatype Side = Buy | Sell {
    function Opposite(): Side {
      if Buy? then Sell else Buy
    }
  }

  datatype OrderType = Limit | Market

  datatype TimeInForce = GTC | Day | IOC | FOK | PostOnly

  datatype Trade = Trade(restingId: OrderId, aggressorId: OrderId, price: Price,
                         quantity: Quantity, ts: Timestamp, aggressorSide: Side)

  datatype OrderStatus = Accepted | FullyFilled | PartiallyFilled | Cancelled | Rejected

  datatype SubmitResult = SubmitResult(status: OrderStatus, filled: Quantity, remaining: Quantity)

  /** The arguments of one submit call. */
  datatype Request = Request(id: OrderId, side: Side, kind: OrderType, tif: TimeInForce,
                             price: Price, qty: Quantity, ts: Timestamp)

  /** OrderBook::Config, with what its integer widths take for granted: a non-negative base (-1 is
      the market marker of can_fully_fill), an index space below size_t's last value, and no more
      orders than a 32-bit level count can hold. */
  datatype Config = Config(basePrice: Price, numLevels: nat, maxOrders: nat) {
    predicate Valid() {
      0 <= basePrice && numLevels + 63 < Words.SIZE_MAX && maxOrders < TWO_TO_THE_32
    }

    predicate InRange(p: Price) {
      basePrice <= p && p - basePrice < numLevels
    }
  }

  datatype LevelSnapshot = LevelSnapshot(price: Price, qty: Quantity, count: Quantity)

  /** Unsigned 32-bit arithmetic wraps. */
  function Wrap32(x: int): Quantity {
    x % 0x1_0000_0000
  }

  function Min(a: nat, b: nat): nat {
    if a <= b then a else b
  }

  lemma WrapSum(x: int, y: int)
    ensures Wrap32(Wrap32(x) + y) == Wrap32(x + y)
  {
  }

  lemma {:induction false} SubsetCard<T>(a: set<T>, b: set<T>)
    requires a <= b
    ensures |a| <= |b|
  {
    if a != {} {
      var x :| x in a;
      SubsetCard(a - {x}, b - {x});
    }
  }
}
