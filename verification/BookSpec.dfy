/** The order book as a mathematical object: each side is one flat list in price-time order, and matching is one
    recursive greedy fold over the opposite side. The classes in OrderBook.dfy are proved to compute these functions. */
module BookSpec {
  import opened Types

  /** `bids` and `asks` list the resting orders best price first and, within a price, oldest first. */
  datatype Book = Book(policy: SelfTradePolicy, bids: seq<Resting>, asks: seq<Resting>, nextSeq: nat)

  /** An aggressing order. */
  datatype Taker = Taker(id: OrderId, trader: TraderId, side: Side, limit: Price)

  /** `removed` lists the makers that self-trade prevention took off the book; `stopped` says that
      it ended the taker. */
  datatype MatchOut = MatchOut(book: seq<Resting>, trades: seq<Trade>, removed: seq<Resting>,
                               remaining: Quantity, stopped: bool)

  datatype SubmitOut = SubmitOut(book: Book, result: SubmitResult, trades: seq<Trade>, removed: seq<Resting>)

  predicate Crosses(takerSide: Side, limit: Price, resting: Price) {
    if takerSide == Buy then resting <= limit else resting >= limit
  }

  /** On side `s`, price `p` has priority over price `q`. */
  predicate Better(s: Side, p: Price, q: Price) {
    if s == Buy then p > q else p < q
  }

  predicate Own(policy: SelfTradePolicy, t: Taker, o: Resting) {
    policy != AllowSelfTrade && o.trader == t.trader
  }

  function Print(t: Taker, maker: Resting, quantity: Quantity): Trade {
    Trade(maker.price, quantity, t.id, maker.id, t.trader, maker.trader, t.side)
  }

  function Match(policy: SelfTradePolicy, t: Taker, book: seq<Resting>, remaining: Quantity): MatchOut {
    if remaining == 0 || book == [] || !Crosses(t.side, t.limit, book[0].price) then
      MatchOut(book, [], [], remaining, false)
    else if Own(policy, t, book[0]) then
      if policy == CancelResting then
        var rest := Match(policy, t, book[1..], remaining);
        rest.(removed := [book[0]] + rest.removed)
      else
        MatchOut(book, [], [], remaining, true)
    else
      var traded := Min(remaining, book[0].remaining);
      var trade := Print(t, book[0], traded);
      if traded < book[0].remaining then
        MatchOut([book[0].(remaining := book[0].remaining - traded)] + book[1..], [trade], [], 0, false)
      else
        var rest := Match(policy, t, book[1..], remaining - traded);
        rest.(trades := [trade] + rest.trades)
  }

  function SideOf(b: Book, s: Side): seq<Resting> {
    if s == Buy then b.bids else b.asks
  }

  function WithSide(b: Book, s: Side, orders: seq<Resting>): Book {
    if s == Buy then b.(bids := orders) else b.(asks := orders)
  }

  /** Stable insertion: behind every order whose price is as good or better. */
  function Insert(s: Side, orders: seq<Resting>, o: Resting): seq<Resting> {
    if orders == [] || Better(s, o.price, orders[0].price) then [o] + orders
    else [orders[0]] + Insert(s, orders[1..], o)
  }

  predicate HasId(orders: seq<Resting>, id: OrderId) {
    exists i :: 0 <= i < |orders| && orders[i].id == id
  }

  predicate Rests(b: Book, id: OrderId) {
    HasId(b.bids, id) || HasId(b.asks, id)
  }

  function RemoveId(orders: seq<Resting>, id: OrderId): seq<Resting> {
    if orders == [] then []
    else if orders[0].id == id then orders[1..]
    else [orders[0]] + RemoveId(orders[1..], id)
  }

  /** The remainder of a submit after its matching: it rests, or is dropped, or there is none. */
  function Settle(b: Book, t: Taker, quantity: Quantity, m: MatchOut): SubmitOut
    requires m.remaining <= quantity
  {
    var matched := WithSide(b, Opposite(t.side), m.book);
    var filled := quantity - m.remaining;
    if m.stopped then
      SubmitOut(matched, SubmitResult(CancelledBySelfTrade, filled, 0, |m.trades|), m.trades, m.removed)
    else if m.remaining > 0 then
      var o := Resting(t.id, t.trader, t.side, t.limit, m.remaining, m.remaining, b.nextSeq);
      var rested := WithSide(matched, t.side, Insert(t.side, SideOf(b, t.side), o)).(nextSeq := b.nextSeq + 1);
      SubmitOut(rested, SubmitResult(if filled > 0 then PartiallyFilled else Rested, filled, m.remaining, |m.trades|),
                m.trades, m.removed)
    else
      SubmitOut(matched, SubmitResult(FullyFilled, filled, 0, |m.trades|), m.trades, m.removed)
  }

  /** Matching never leaves more of the taker than there was. */
  lemma {:induction false} MatchShrinks(policy: SelfTradePolicy, t: Taker, book: seq<Resting>, remaining: Quantity)
    ensures Match(policy, t, book, remaining).remaining <= remaining
    decreases |book|
  {
    if remaining == 0 || book == [] || !Crosses(t.side, t.limit, book[0].price) {
    } else if Own(policy, t, book[0]) {
      if policy == CancelResting {
        MatchShrinks(policy, t, book[1..], remaining);
      }
    } else if book[0].remaining <= remaining {
      MatchShrinks(policy, t, book[1..], remaining - book[0].remaining);
    }
  }

  function Submit(b: Book, t: Taker, quantity: Quantity): SubmitOut {
    if quantity == 0 || Rests(b, t.id) then
      SubmitOut(b, SubmitResult(Rejected, 0, 0, 0), [], [])
    else
      var m := Match(b.policy, t, SideOf(b, Opposite(t.side)), quantity);
      MatchShrinks(b.policy, t, SideOf(b, Opposite(t.side)), quantity);
      Settle(b, t, quantity, m)
  }

  function Cancel(b: Book, id: OrderId): (Book, bool) {
    (b.(bids := RemoveId(b.bids, id), asks := RemoveId(b.asks, id)), Rests(b, id))
  }

  function SnapshotOf(o: Resting): OrderSnapshot {
    OrderSnapshot(o.side, o.price, o.id, o.remaining, o.sequence)
  }

  function Snapshots(orders: seq<Resting>): seq<OrderSnapshot> {
    seq(|orders|, i requires 0 <= i < |orders| => SnapshotOf(orders[i]))
  }

  function Snapshot(b: Book): seq<OrderSnapshot> {
    Snapshots(b.bids) + Snapshots(b.asks)
  }

  function Total(orders: seq<Resting>): nat {
    if orders == [] then 0 else orders[0].remaining + Total(orders[1..])
  }

  function At(orders: seq<Resting>, price: Price): seq<Resting> {
    if orders == [] then []
    else if orders[0].price == price then [orders[0]] + At(orders[1..], price)
    else At(orders[1..], price)
  }

  function BestPrice(orders: seq<Resting>): Option<Price> {
    if orders == [] then None else Some(orders[0].price)
  }
}
