/** Two books that hold the same orders behave alike for ever, whatever history made of their pools and tables. */
module Twins {
  import opened BookLaws
  import opened Snapshots
  import Levels
  import BookSides
  import FlatHashMaps
  import opened OrderBooks

  /** No level of the one ladder is on the other. */
  ghost predicate LevelsApart(xs: seq<Levels.PriceLevel>, ys: seq<Levels.PriceLevel>) {
    forall i, j :: 0 <= i < |xs| && 0 <= j < |ys| ==> xs[i] != ys[j]
  }

  /** The books share no part. */
  ghost predicate Apart(a: OrderBook, b: OrderBook)
    reads a.bids, a.asks, a.pool, b.bids, b.asks, b.pool
  {
    && a != b && a.index != b.index && a.pool != b.pool
    && a.bids != b.bids && a.bids != b.asks && a.asks != b.bids && a.asks != b.asks
    && LevelsApart(a.bids.levels, b.bids.levels) && LevelsApart(a.bids.levels, b.asks.levels)
    && LevelsApart(a.asks.levels, b.bids.levels) && LevelsApart(a.asks.levels, b.asks.levels)
    && a.pool.slots !! b.pool.slots
  }

  /** A run of one book leaves the other alone. */
  method ObserveBeside(a: OrderBook, b: OrderBook, ops: seq<Op>) returns (seen: seq<Seen>)
    requires a.Valid() && b.Valid() && Apart(a, b)
    modifies a, a.bids, a.asks, a.index, a.pool, a.bids.levels, a.asks.levels, a.pool.slots
    ensures a.Valid() && seen == Watch(old(a.Abs()), ops) && a.Abs() == Run(old(a.Abs()), ops)
    ensures b.Valid() && b.Abs() == old(b.Abs()) && Apart(a, b) && a.Grown()
  {
    hide OrderBook.Valid, OrderBook.Abs, Watch, Run;
    InSlots(b);
    seen := a.Observe(ops);
  }

  lemma InSlots(b: OrderBook)
    requires b.Valid()
    ensures forall n :: n in b.bids.nodes ==> n in b.pool.slots
    ensures forall n :: n in b.asks.nodes ==> n in b.pool.slots
    ensures forall n :: n in b.pool.live ==> n in b.pool.slots
    ensures forall i :: 0 <= i < |b.pool.free| ==> b.pool.free[i] in b.pool.slots
  {
    hide BookSides.BookSide.Valid, FlatHashMaps.FlatHashMap.Valid, FlatHashMaps.FlatHashMap.Contents, WellFormed,
      Levels.FreeChain;
  }

  lemma ApartSymmetric(a: OrderBook, b: OrderBook)
    requires Apart(a, b)
    ensures Apart(b, a)
  {
  }

  /** Representation independence. Two valid books with the same abstract state and no part in common give the same
      results, trades and snapshots for every sequence of operations, and are in the same state afterwards. */
  method RunBoth(a: OrderBook, b: OrderBook, ops: seq<Op>) returns (seenA: seq<Seen>, seenB: seq<Seen>)
    requires a.Valid() && b.Valid() && Apart(a, b) && a.Abs() == b.Abs()
    modifies a, a.bids, a.asks, a.index, a.pool, a.bids.levels, a.asks.levels, a.pool.slots
    modifies b, b.bids, b.asks, b.index, b.pool, b.bids.levels, b.asks.levels, b.pool.slots
    ensures a.Valid() && b.Valid() && Apart(a, b)
    ensures seenA == seenB == Watch(old(a.Abs()), ops)
    ensures a.Abs() == b.Abs() == Run(old(a.Abs()), ops)
  {
    hide OrderBook.Valid, OrderBook.Abs, Watch, Run, LevelsApart;
    seenA := ObserveBeside(a, b, ops);
    ApartSymmetric(a, b);
    seenB := ObserveBeside(b, a, ops);
    ApartSymmetric(b, a);
  }
}
