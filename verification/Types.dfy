/** The value types shared by the engine, the log and the wire protocol. */
module Types {

  const TWO32: int := 0x1_0000_0000
  const TWO63: int := 0x8000_0000_0000_0000
  const TWO64: int := 0x1_0000_0000_0000_0000

  type U8 = x: int | 0 <= x < 0x100
  type U32 = x: int | 0 <= x < 0x1_0000_0000
  type U64 = x: int | 0 <= x < 0x1_0000_0000_0000_0000
  type I64 = x: int | -0x8000_0000_0000_0000 <= x < 0x8000_0000_0000_0000

  datatype Option<+T> = None | Some(value: T)

  datatype Result<+T, +E> = Ok(value: T) | Err(error: E)

  type OrderId = U64
  type TraderId = U64
  type Price = I64
  type Timestamp = U64

  datatype Side = Bid | Ask

  function Opposite(side: Side): Side {
    if side.Bid? then Ask else Bid
  }

  datatype Order = Order(
    id: OrderId, traderId: TraderId, side: Side, price: Price, quantity: U64, timestamp: Timestamp)

  datatype Command = NewOrder(order: Order) | CancelOrder(orderId: OrderId)

  datatype Fill = Fill(
    takerOrderId: OrderId, makerOrderId: OrderId, price: Price, quantity: U64, makerFullyFilled: bool)

  datatype OrderStatus = FullyFilled | PartiallyFilled | Resting | CancelledSelfTrade

  datatype BookError =
    | DuplicateOrderId(id: OrderId)
    | OrderNotFound(id: OrderId)
    | PriceLevelNotFound(price: Price)
    | FillExceedsQuantity(available: U64, requested: U64)
    | ArenaFull

  datatype MatchingError = InBook(error: BookError) | ZeroQuantity

  function Min(a: int, b: int): int {
    if a < b then a else b
  }

  /** A sequence without its element at `i`. */
  function Without<T>(s: seq<T>, i: nat): seq<T>
    requires i < |s|
  {
    s[..i] + s[i + 1..]
  }

  lemma WithoutLength<T>(s: seq<T>, i: nat)
    requires i < |s|
    ensures |Without(s, i)| == |s| - 1
  {
  }
}
