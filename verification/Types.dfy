/** Domain primitives: fixed-width integers, sides, policies, resting orders, trades and commands. */
module Types {
  const TWO_63: int := 0x8000_0000_0000_0000
  const TWO_64: int := 0x1_0000_0000_0000_0000
  const TWO_32: int := 0x1_0000_0000

  type U8 = x: int | 0 <= x < 256
  type U32 = x: int | 0 <= x < TWO_32
  type U64 = x: int | 0 <= x < TWO_64
  type I64 = x: int | -TWO_63 <= x < TWO_63

  type Price = I64
  type Quantity = U64
  type OrderId = U64
  type TraderId = U32

  datatype Option<+T> = None | Some(value: T)

  datatype Side = Buy | Sell

  function Opposite(s: Side): Side {
    if s == Buy then Sell else Buy
  }

  datatype SelfTradePolicy = AllowSelfTrade | CancelResting | CancelAggressing

  /** The externally and internally meaningful fields of one order that rests on the book.
      `quantity` is the size the order had when it came to rest, `sequence` its arrival stamp. */
  datatype Resting = Resting(id: OrderId, trader: TraderId, side: Side, price: Price,
                             quantity: Quantity, remaining: Quantity, sequence: nat)

  datatype Trade = Trade(price: Price, quantity: Quantity, takerId: OrderId, makerId: OrderId,
                         takerTrader: TraderId, makerTrader: TraderId, takerSide: Side)

  datatype SubmitStatus = Rested | FullyFilled | PartiallyFilled | CancelledBySelfTrade | Rejected

  datatype SubmitResult = SubmitResult(status: SubmitStatus, filled: Quantity, resting: Quantity, tradeCount: nat)

  /** What a book snapshot exposes of a resting order: neither its trader nor its quantity at rest. */
  datatype OrderSnapshot = OrderSnapshot(side: Side, price: Price, id: OrderId, remaining: Quantity, sequence: nat)

  function Min(a: int, b: int): int {
    if a < b then a else b
  }

  /** A unit of work. The three enumerations travel as raw bytes, so that every journal record decodes. */
  datatype Command = Command(kind: U8, orderType: U8, id: OrderId, trader: TraderId, side: U8, price: Price,
                             quantity: Quantity, triggerPrice: Price)

  const SUBMIT: U8 := 0
  const CANCEL: U8 := 1
  const SHUTDOWN: U8 := 2

  const SHUTDOWN_COMMAND := Command(SHUTDOWN, 0, 0, 0, 0, 0, 0, 0)

  function SideOfByte(b: U8): Side {
    if b == 0 then Buy else Sell
  }

  // ---- Sequences -----------------------------------------------------------------------------------------------

  lemma Regroup<T>(xs: seq<T>, ys: seq<T>, zs: seq<T>)
    ensures xs + (ys + zs) == (xs + ys) + zs
  {
  }

  lemma ConcatTail<T>(xs: seq<T>, ys: seq<T>)
    requires xs != []
    ensures (xs + ys)[0] == xs[0] && (xs + ys)[1..] == xs[1..] + ys
  {
  }
}
