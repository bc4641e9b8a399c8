/** The public vocabulary of the engine: scalar types, requests and events. */
module Api {
  const TWO_32: int := 0x1_0000_0000
  /** INT64_MAX, the top of the Price type. */
  const PRICE_MAX: int := 0x7FFF_FFFF_FFFF_FFFF

  type uint32 = x: int | 0 <= x < 0x1_0000_0000
  type uint64 = x: int | 0 <= x < 0x1_0000_0000_0000_0000

  const BPS_PER_UNIT: int := 10000
  const MAX_BAND_BPS: int := 10000

  /** Slot index that names no order record. */
  const INVALID_SLOT: uint32 := 0xFFFF_FFFF

  datatype Option<+T> = None | Some(value: T)

  datatype Side = Buy | Sell

  function Opposite(side: Side): Side {
    if side == Buy then Sell else Buy
  }

  datatype OrderType = Limit | Market

  datatype TimeInForce = Day | Ioc | Fok

  datatype RejectReason =
    | UnknownInstrument
    | DuplicateOrderId
    | InvalidQuantity
    | InvalidPriceTick
    | PriceOutOfBand
    | InvalidTimeInForce
    | UnknownOrder
    | NotConfigured

  datatype CancelReason = UserRequested | IocRemainder | FokUnfillable | NoLiquidity

  datatype ConfigureResult = ConfigOk | AlreadyConfigured | InvalidArgument

  datatype InstrumentConfig = InstrumentConfig(instrumentId: uint32, referencePrice: int, bandBps: uint32)

  datatype NewOrder = NewOrder(
    orderId: uint64, instrumentId: uint32, side: Side, orderType: OrderType,
    tif: TimeInForce, price: int, quantity: uint32)

  datatype ReplaceOrder = ReplaceOrder(
    orderId: uint64, newOrderId: uint64, newPrice: int, newQuantity: uint32)

  /** A side without orders reports price 0 and quantity 0. */
  datatype TopOfBook = TopOfBook(bidPrice: int, bidQuantity: uint32, askPrice: int, askQuantity: uint32)

  datatype Event =
    | Accepted(orderId: uint64)
    | Rejected(orderId: uint64, rejectReason: RejectReason)
    | Trade(tradeId: nat, instrumentId: uint32, price: int, quantity: nat,
            restingId: uint64, aggressorId: uint64, aggressorSide: Side)
    | Canceled(orderId: uint64, quantity: nat, cancelReason: CancelReason)
    | Replaced(oldId: uint64, newId: uint64, price: int, quantity: nat)

  function Min(a: int, b: int): int {
    if a <= b then a else b
  }

  /** A 32-bit sum may be wrapped at any point. */
  lemma WrapAdd(a: nat, b: nat)
    ensures (a + b) % TWO_32 == (a % TWO_32 + b) % TWO_32
  {
  }
}
