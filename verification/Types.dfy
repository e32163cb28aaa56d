/**
  Shared vocabulary of the exchange: the fixed-width integers, the order side and type
  enumerations and the trade record.
 */
module Types {

  const QTY_MOD := 0x1_0000_0000
  const MAX_U64 := 0xFFFF_FFFF_FFFF_FFFF

  /** An unsigned 32-bit quantity. */
  type Qty = q: int | 0 <= q < QTY_MOD

  /** An unsigned 64-bit price in ticks. */
  type Price = p: int | 0 <= p <= MAX_U64

  /** An unsigned 64-bit order identifier; the largest one is the "no order" mark. */
  type OrderId = i: int | 0 <= i <= MAX_U64

  const INVALID_ORDER: OrderId := MAX_U64

  /** An unsigned 32-bit instrument token. */
  type Token = t: int | 0 <= t < QTY_MOD

  datatype Option<+T> = None | Some(value: T)

  datatype Side = INVALID | BUY | SELL

  datatype OrderType = LIMIT | MARKET | IOC | FOK | ICEBERG

  datatype TradeEvent = TradeEvent(
    instrument: Token,
    aggressorSide: Side,
    aggressorId: OrderId,
    restingSide: Side,
    restingId: OrderId,
    price: Price,
    quantity: Qty)

  function Opposite(s: Side): Side {
    if s == BUY then SELL else BUY
  }

  /** 32-bit addition: wraps around. */
  function WrapAdd(a: Qty, b: Qty): Qty {
    (a + b) % QTY_MOD
  }

  /** Subtraction that stops at zero. */
  function SaturatingSub(a: Qty, b: Qty): Qty {
    if b >= a then 0 else a - b
  }

  function Min(a: int, b: int): int {
    if a <= b then a else b
  }

  /** p is at least as good as q for an order resting on side s. */
  predicate NoWorse(s: Side, p: Price, q: Price) {
    if s == BUY then p >= q else p <= q
  }

  /** An order on side s limited at `limit` may trade against a resting price p. */
  predicate Crosses(s: Side, limit: Price, p: Price) {
    if s == BUY then limit >= p else limit <= p
  }

  /** The map without one key. */
  function Drop<K, V>(m: map<K, V>, key: K): map<K, V> {
    map k | k in m && k != key :: m[k]
  }
}
