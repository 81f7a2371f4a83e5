/** The mutable order book: price maps, intrusive queues, id index and pool, proved to compute the functions of BookSpec
    whatever the hash function, the pool capacity and the history of slots and rehashes. */
module OrderBooks {
  import opened Types
  import opened BookSpec
  import opened BookLaws
  import opened Snapshots
  import opened Levels
  import opened BookSides
  import opened FlatHashMaps

  /** The index maps exactly the ids of the live orders, each to its order. */
  ghost predicate IndexAgrees(contents: map<OrderId, Order?>, live: set<Order>)
    reads live`id
  {
    && (forall n :: n in live ==> n.id in contents && contents[n.id] == n)
    && (forall id :: id in contents ==> contents[id] != null && contents[id] in live && contents[id].id == id)
  }

  lemma IndexRemove(contents: map<OrderId, Order?>, live: set<Order>, n: Order)
    requires IndexAgrees(contents, live) && n in live
    ensures IndexAgrees(contents - {n.id}, live - {n})
  {
  }

  lemma {:induction false} CountsAgree(contents: map<OrderId, Order?>, live: set<Order>)
    requires IndexAgrees(contents, live)
    ensures |contents| == |live|
    decreases |live|
  {
    if live == {} {
      assert contents.Keys == {};
    } else {
      var n :| n in live;
      IndexRemove(contents, live, n);
      CountsAgree(contents - {n.id}, live - {n});
      assert contents == (contents - {n.id})[n.id := n];
    }
  }

  lemma RemoveIsWithout(s: Side, orders: seq<Resting>, p: nat, id: OrderId, nextSeq: nat)
    requires SideOk(s, orders, nextSeq) && p < |orders| && orders[p].id == id
    ensures RemoveId(orders, id) == Without(orders, p)
  {
    var i := RemoveSplits(orders, id);
    assert i == p;
  }

  /** The outcome `whole` of a pass of which `trades` and `removed` are done and `rest` is still to come. */
  ghost predicate Resumes(whole: MatchOut, trades: seq<Trade>, removed: seq<Resting>, rest: MatchOut) {
    whole == rest.(trades := trades + rest.trades, removed := removed + rest.removed)
  }

  /** A pass begins with nothing done. */
  lemma StepStart(m: MatchOut, trades: seq<Trade>)
    ensures Resumes(m.(trades := trades + m.trades), trades, [], m)
  {
  }

  /** One own order removed is one step of the fold. */
  lemma StepRemove(whole: MatchOut, trades: seq<Trade>, removed: seq<Resting>,
                   policy: SelfTradePolicy, t: Taker, flat: seq<Resting>, q: Quantity)
    requires q > 0 && flat != [] && Crosses(t.side, t.limit, flat[0].price)
    requires Own(policy, t, flat[0]) && policy == CancelResting
    requires Resumes(whole, trades, removed, BookSpec.Match(policy, t, flat, q))
    ensures Resumes(whole, trades, removed + [flat[0]], BookSpec.Match(policy, t, flat[1..], q))
  {
    var rest := BookSpec.Match(policy, t, flat[1..], q);
    assert removed + ([flat[0]] + rest.removed) == (removed + [flat[0]]) + rest.removed;
  }

  /** One execution is one step of the fold. */
  lemma StepFill(whole: MatchOut, trades: seq<Trade>, removed: seq<Resting>,
                 policy: SelfTradePolicy, t: Taker, flat: seq<Resting>, q: Quantity, traded: Quantity)
    requires q > 0 && flat != [] && Crosses(t.side, t.limit, flat[0].price)
    requires !Own(policy, t, flat[0]) && traded == Min(q, flat[0].remaining)
    requires Resumes(whole, trades, removed, BookSpec.Match(policy, t, flat, q))
    ensures var left := flat[0].remaining - traded;
      Resumes(whole, trades + [Print(t, flat[0], traded)], removed,
              BookSpec.Match(policy, t, (if left == 0 then [] else [flat[0].(remaining := left)]) + flat[1..],
                             q - traded))
  {
    hide BookSpec.Match, Resumes, Crosses, Own, Print;
    var trade := Print(t, flat[0], traded);
    FillUnfolds(policy, t, flat, q);
    if flat[0].remaining == traded {
      ResumeTrade(whole, trades, removed, BookSpec.Match(policy, t, flat[1..], q - traded), trade);
    } else {
      var book := [flat[0].(remaining := flat[0].remaining - traded)] + flat[1..];
      assert [trade] + [] == [trade];
      ResumeTrade(whole, trades, removed, MatchOut(book, [], [], 0, false), trade);
    }
  }

  lemma ResumeTrade(whole: MatchOut, trades: seq<Trade>, removed: seq<Resting>, rest: MatchOut, trade: Trade)
    requires Resumes(whole, trades, removed, rest.(trades := [trade] + rest.trades))
    ensures Resumes(whole, trades + [trade], removed, rest)
  {
    assert trades + ([trade] + rest.trades) == (trades + [trade]) + rest.trades;
  }

  /** The fold on a first order that trades. */
  lemma FillUnfolds(policy: SelfTradePolicy, t: Taker, flat: seq<Resting>, q: Quantity)
    requires q > 0 && flat != [] && Crosses(t.side, t.limit, flat[0].price) && !Own(policy, t, flat[0])
    ensures var traded := Min(q, flat[0].remaining);
      var left, trade := flat[0].remaining - traded, Print(t, flat[0], traded);
      if left == 0 then
        var rest := BookSpec.Match(policy, t, flat[1..], q - traded);
        && [] + flat[1..] == flat[1..]
        && BookSpec.Match(policy, t, flat, q) == rest.(trades := [trade] + rest.trades)
      else
        var book := [flat[0].(remaining := left)] + flat[1..];
        && BookSpec.Match(policy, t, flat, q) == MatchOut(book, [trade], [], 0, false)
        && BookSpec.Match(policy, t, book, q - traded) == MatchOut(book, [], [], 0, false)
  {
    assert [] + flat[1..] == flat[1..];
  }

  /** Where the loops stop, the fold has stopped too. */
  lemma StepEnd(whole: MatchOut, trades: seq<Trade>, removed: seq<Resting>,
                policy: SelfTradePolicy, t: Taker, flat: seq<Resting>, q: Quantity, stopped: bool)
    requires if stopped then q > 0 && flat != [] && Crosses(t.side, t.limit, flat[0].price)
                             && Own(policy, t, flat[0]) && policy == CancelAggressing
             else q == 0 || flat == [] || !Crosses(t.side, t.limit, flat[0].price)
    requires Resumes(whole, trades, removed, BookSpec.Match(policy, t, flat, q))
    ensures whole == MatchOut(flat, trades, removed, q, stopped)
  {
  }

  /** An empty index, sized for the peak number of resting orders. */
  method ReservedIndex(capacity: U64, hash: OrderId -> U64) returns (index: FlatHashMap<OrderId, Order?>)
    ensures fresh(index) && index.Valid() && index.Contents() == map[]
  {
    hide FlatHashMap.Valid, FlatHashMap.Contents;
    index := new FlatHashMap(16, hash, 0, null);
    index.Reserve(capacity);
  }

  class OrderBook {
    const policy: SelfTradePolicy
    const bids: BookSide
    const asks: BookSide
    const index: FlatHashMap<OrderId, Order?>
    const pool: MemoryPool
    var nextSeq: nat
    var trades: seq<Trade>

    /** Each structure is in order on its own, and the two sides share nothing. */
    ghost predicate Parts()
      reads bids, asks, index, pool, bids.levels, asks.levels, bids.nodes, asks.nodes, pool.free
    {
      && bids.side == Buy && asks.side == Sell
      && bids.Valid() && asks.Valid() && index.Valid() && pool.Valid()
      && bids.nodes !! asks.nodes
      && (forall i, j :: 0 <= i < |bids.levels| && 0 <= j < |asks.levels| ==> bids.levels[i] != asks.levels[j])
    }

    /** The four views agree: price maps, queues, id index and pool hold the same orders. */
    ghost predicate Core()
      reads bids, asks, index, pool, bids.levels, asks.levels, bids.nodes, asks.nodes, pool.free, pool.live
    {
      && Parts()
      && pool.live == bids.nodes + asks.nodes
      && IndexAgrees(index.Contents(), pool.live)
    }

    ghost function Abs(): Book
      reads `nextSeq, bids, asks
    {
      Book(policy, bids.Flat(), asks.Flat(), nextSeq)
    }

    ghost predicate Valid()
      reads `nextSeq, bids, asks, index, pool, bids.levels, asks.levels, bids.nodes, asks.nodes, pool.free, pool.live
    {
      && Core()
      && bids.Dense() && asks.Dense()
      && WellFormed(Abs())
    }

    constructor (policy: SelfTradePolicy, poolCapacity: U64, hash: OrderId -> U64)
      ensures Valid() && Abs() == Empty(policy) && trades == []
      ensures fresh(bids) && fresh(asks) && fresh(index) && fresh(pool) && fresh(pool.slots)
      ensures bids.levels == [] && asks.levels == []
    {
      hide BookSide.Valid, FlatHashMap.Valid, MemoryPool.Valid, Valid, Abs;
      this.policy := policy;
      bids := new BookSide(Buy);
      asks := new BookSide(Sell);
      var table := ReservedIndex(poolCapacity, hash);
      index := table;
      pool := new MemoryPool(poolCapacity);
      nextSeq, trades := 1, [];
      new;
      EmptyIsValid();
    }

    lemma EmptyIsValid()
      requires bids.side == Buy && asks.side == Sell
      requires bids.Valid() && asks.Valid() && index.Valid() && pool.Valid()
      requires bids.levels == asks.levels == [] && bids.nodes == asks.nodes == {}
      requires pool.live == {} && index.Contents() == map[] && nextSeq == 1
      ensures Valid() && Abs() == Empty(policy)
    {
    }

    lemma Unindexed(order: Order)
      requires Core() && order in pool.live
      ensures IndexAgrees(index.Contents() - {order.id}, pool.live - {order})
    {
      hide BookSide.Valid, FlatHashMap.Valid, FlatHashMap.Contents, MemoryPool.Valid;
      IndexRemove(index.Contents(), pool.live, order);
    }

    /** Where a queued order stands in the structures. */
    lemma QueuedFacts(far: BookSide, k: nat)
      requires Parts() && (far == bids || far == asks) && k < |far.levels|
      ensures |far.views| == |far.levels| && |far.views[k]| == |far.levels[k].queue|
      ensures far.levels[k].head == null <==> far.views[k] == []
      ensures forall i :: 0 <= i < |far.levels[k].queue| ==> far.levels[k].queue[i] in far.nodes
      ensures bids.nodes !! asks.nodes
    {
      hide PriceLevel.Valid, FlatHashMap.Valid, MemoryPool.Valid;
      far.QueueInNodes(k);
    }

    /** Takes an order off its queue, out of the index and back to the pool. */
    method Retire(far: BookSide, level: PriceLevel, order: Order, ghost k: nat, ghost i: nat)
      requires Core() && (far == bids || far == asks)
      requires k < |far.levels| && far.levels[k] == level && i < |level.queue| && level.queue[i] == order
      requires k < |far.views| && i < |far.views[k]|
      modifies far`views, far`nodes, level, level.queue`level, level.queue`prev, level.queue`next
      modifies index, pool, order`nextFree
      ensures Core() && far.nodes == old(far.nodes) - {order} && pool.slots == old(pool.slots)
      ensures far.views == old(far.views)[k := Without(old(far.views)[k], i)]
    {
      hide Parts, FlatHashMap.Valid, FlatHashMap.Contents, IndexAgrees;
      QueuedFacts(far, k);
      Unindexed(order);
      UnlinkOrder(far, level, order, k, i);
      RemoveFromIndex(order.id);
      ReleaseOrder(order);
    }

    /** The queue's share of taking an order off the book. */
    method UnlinkOrder(far: BookSide, level: PriceLevel, order: Order, ghost k: nat, ghost i: nat)
      requires Parts() && (far == bids || far == asks)
      requires k < |far.levels| && far.levels[k] == level && i < |level.queue| && level.queue[i] == order
      requires k < |far.views| && i < |far.views[k]|
      modifies far`views, far`nodes, level, level.queue`level, level.queue`prev, level.queue`next
      ensures Parts() && far.nodes == old(far.nodes) - {order}
      ensures far.views == old(far.views)[k := Without(old(far.views)[k], i)]
    {
      hide BookSide.Valid, PriceLevel.Valid, FlatHashMap.Valid, MemoryPool.Valid;
      far.QueueInNodes(k);
      far.Unlink(level, order, k, i);
    }

    /** The index's share. */
    method RemoveFromIndex(id: OrderId)
      requires Parts()
      modifies index
      ensures Parts() && index.Contents() == old(index.Contents()) - {id}
    {
      hide BookSide.Valid, PriceLevel.Valid, FlatHashMap.Valid, MemoryPool.Valid;
      var present := index.Erase(id);
    }

    /** The pool's share: by now nothing else refers to the order. */
    method ReleaseOrder(order: Order)
      requires Parts() && order in pool.live && order !in bids.nodes && order !in asks.nodes
      modifies pool, order`nextFree
      ensures Parts() && pool.live == old(pool.live) - {order} && pool.slots == old(pool.slots)
    {
      hide BookSide.Valid, PriceLevel.Valid, FlatHashMap.Valid, MemoryPool.Valid;
      pool.Release(order);
    }

    /** Executes part of a queued order, which keeps its place. */
    method FillOrder(far: BookSide, level: PriceLevel, order: Order, traded: Quantity, ghost k: nat, ghost i: nat)
      requires Core() && (far == bids || far == asks)
      requires k < |far.levels| && far.levels[k] == level && i < |level.queue| && level.queue[i] == order
      requires k < |far.views| && i < |far.views[k]| && traded <= order.remaining
      modifies far`views, level`total, level`view, order`remaining
      ensures Core() && order.remaining == old(order.remaining) - traded
      ensures order.Value() == old(order.Value()).(remaining := order.remaining)
      ensures far.views == old(far.views)[k := old(far.views)[k][i := order.Value()]]
    {
      hide BookSide.Valid, PriceLevel.Valid, FlatHashMap.Valid, FlatHashMap.Contents, MemoryPool.Valid;
      far.QueueInNodes(k);
      far.Fill(level, order, traded, k, i);
    }

    /** Erases a level once its queue is empty; the flat list is the same. */
    method EraseLevel(far: BookSide, price: Price, ghost k: nat)
      requires Core() && (far == bids || far == asks)
      requires k < |far.levels| && far.levels[k].price == price && k < |far.views| && far.views[k] == []
      modifies far`levels, far`views
      ensures Core() && far.Flat() == old(far.Flat())
      ensures far.levels == Without(old(far.levels), k) && far.views == Without(old(far.views), k)
    {
      hide BookSide.Valid, PriceLevel.Valid, FlatHashMap.Valid, FlatHashMap.Contents, MemoryPool.Valid;
      far.Erase(price, k);
    }

    /** The state between two steps of a pass on `far`: the book is consistent, what is done and what remains to do add
        up to `whole`, and nothing has joined the side since it held `levels` and `nodes`. */
    ghost predicate Matching(far: BookSide, t: Taker, whole: MatchOut, removed: seq<Resting>, remaining: Quantity,
                             levels: seq<PriceLevel>, nodes: set<Order>)
      reads `trades, bids, asks, index, pool, bids.levels, asks.levels, bids.nodes, asks.nodes, pool.free, pool.live,
        far
    {
      && Core() && (far == bids || far == asks)
      && Resumes(whole, trades, removed, BookSpec.Match(policy, t, far.Flat(), remaining))
      && (forall i :: 0 <= i < |far.levels| ==> far.levels[i] in levels)
      && far.nodes <= nodes
    }

    /** No level but perhaps the best is empty. */
    ghost predicate DenseTail(far: BookSide)
      reads far
    {
      forall i :: 0 < i < |far.views| ==> far.views[i] != []
    }

    /** A maker at the front of the best level, which crosses. */
    ghost predicate AtFront(far: BookSide, level: PriceLevel, maker: Order, t: Taker)
      reads far, far.levels
    {
      && DenseTail(far)
      && |far.levels| > 0 && far.levels[0] == level && level.head == maker
      && Crosses(t.side, t.limit, level.price)
    }

    /** The front maker is the first order of the flat list. */
    lemma FrontFacts(far: BookSide, level: PriceLevel, maker: Order, t: Taker)
      requires Core() && (far == bids || far == asks) && AtFront(far, level, maker, t)
      ensures |far.views| == |far.levels| && |far.views[0]| == |level.queue| > 0 && level.queue[0] == maker
      ensures far.views[0][0] == maker.Value() && maker.price == level.price
      ensures far.Flat() == [maker.Value()] + far.Flat()[1..]
      ensures forall i :: 0 <= i < |level.queue| ==> level.queue[i] in far.nodes
      ensures maker in far.nodes
      ensures level.Valid()
    {
      far.Front();
      far.QueueInNodes(0);
    }

    /** What the best level says of the flat list. */
    lemma BestLevel(far: BookSide)
      requires Core() && (far == bids || far == asks)
      ensures |far.views| == |far.levels|
      ensures far.levels == [] ==> far.Flat() == []
      ensures far.levels != [] ==> (far.views[0] == [] <==> far.levels[0].head == null)
      ensures far.levels != [] && far.views[0] != [] ==>
                far.Flat() != [] && far.Flat()[0].price == far.levels[0].price
    {
      if far.levels != [] {
        far.Front();
      }
    }

    /** Self-trade prevention takes the front maker off the book; the pass goes on. */
    method RemoveOwn(far: BookSide, level: PriceLevel, maker: Order, t: Taker, ghost whole: MatchOut,
                     ghost removed: seq<Resting>, ghost remaining: Quantity,
                     ghost levels: seq<PriceLevel>, ghost nodes: set<Order>)
      requires Matching(far, t, whole, removed, remaining, levels, nodes) && AtFront(far, level, maker, t)
      requires remaining > 0 && policy == CancelResting && maker.trader == t.trader
      modifies far`views, far`nodes, level, level.queue`level, level.queue`prev, level.queue`next
      modifies index, pool, maker`nextFree
      ensures Matching(far, t, whole, removed + [old(maker.Value())], remaining, levels, nodes) && DenseTail(far)
      ensures pool.slots == old(pool.slots)
      ensures |far.Flat()| < |old(far.Flat())|
    {
      hide Core, Resumes, BookSpec.Match, Flatten, PriceLevel.Valid;
      FrontFacts(far, level, maker, t);
      StepRemove(whole, trades, removed, policy, t, far.Flat(), remaining);
      FlattenUpdateFirst(far.views, maker.Value());
      Retire(far, level, maker, 0, 0);
    }

    /** Executes the front maker, which leaves the book if nothing remains of it. */
    method FillFront(far: BookSide, level: PriceLevel, maker: Order, t: Taker, ghost whole: MatchOut,
                     ghost removed: seq<Resting>, remaining: Quantity,
                     ghost levels: seq<PriceLevel>, ghost nodes: set<Order>) returns (left: Quantity)
      requires Matching(far, t, whole, removed, remaining, levels, nodes) && AtFront(far, level, maker, t)
      requires remaining > 0 && !(policy != AllowSelfTrade && maker.trader == t.trader)
      modifies `trades, far`views, far`nodes, level, maker`remaining
      modifies level.queue`level, level.queue`prev, level.queue`next
      modifies index, pool, maker`nextFree
      ensures Matching(far, t, whole, removed, left, levels, nodes) && DenseTail(far)
      ensures pool.slots == old(pool.slots)
      ensures |far.Flat()| < |old(far.Flat())| || (|far.Flat()| == |old(far.Flat())| && left == 0)
    {
      hide Core, Resumes, BookSpec.Match, Flatten, PriceLevel.Valid;
      FrontFacts(far, level, maker, t);
      ghost var rest := far.Flat()[1..];
      left := ExecuteFront(far, level, maker, t, whole, removed, remaining);
      if maker.remaining == 0 {
        FlattenUpdateFirst(far.views, maker.Value());
        Retire(far, level, maker, 0, 0);
        assert far.Flat() == [] + rest;
      }
    }

    /** Prints the trade and takes it off both remainders. */
    method ExecuteFront(far: BookSide, level: PriceLevel, maker: Order, t: Taker, ghost whole: MatchOut,
                        ghost removed: seq<Resting>, remaining: Quantity) returns (left: Quantity)
      requires Core() && (far == bids || far == asks) && AtFront(far, level, maker, t)
      requires Resumes(whole, trades, removed, BookSpec.Match(policy, t, far.Flat(), remaining))
      requires remaining > 0 && !(policy != AllowSelfTrade && maker.trader == t.trader)
      requires level.queue != [] && level.queue[0] == maker && far.views != [] && far.views[0] != []
      modifies `trades, far`views, level`total, level`view, maker`remaining
      ensures Core() && DenseTail(far) && |far.views| == |old(far.views)| && |far.views[0]| == |old(far.views[0])|
      ensures far.Flat() == [maker.Value()] + old(far.Flat())[1..]
      ensures maker.remaining > 0 ==> left == 0
      ensures Resumes(whole, trades, removed, BookSpec.Match(policy, t,
                (if maker.remaining == 0 then [] else [maker.Value()]) + old(far.Flat())[1..], left))
    {
      hide Core, Resumes, BookSpec.Match, Flatten, PriceLevel.Valid;
      FrontFacts(far, level, maker, t);
      var makerRemaining := maker.remaining;
      var traded := if remaining < makerRemaining then remaining else makerRemaining;
      StepFill(whole, trades, removed, policy, t, far.Flat(), remaining, traded);
      trades := trades + [Trade(maker.price, traded, t.id, maker.id, t.trader, maker.trader, t.side)];
      left := remaining - traded;
      FlattenUpdateFirst(far.views, maker.Value().(remaining := makerRemaining - traded));
      FillOrder(far, level, maker, traded, 0, 0);
    }

    /** Walks the opposite side best price first. */
    method Match(far: BookSide, t: Taker, quantity: Quantity)
      returns (remaining: Quantity, stopped: bool, ghost removed: seq<Resting>)
      requires Core() && far.Dense() && far == (if t.side == Buy then asks else bids)
      modifies `trades, far, far.levels, far.nodes, index, pool
      ensures Core() && far.Dense() && pool.slots == old(pool.slots)
      ensures forall i :: 0 <= i < |far.levels| ==> far.levels[i] in old(far.levels)
      ensures var m := BookSpec.Match(policy, t, old(far.Flat()), quantity);
        MatchOut(far.Flat(), trades, removed, remaining, stopped) == m.(trades := old(trades) + m.trades)
    {
      hide Core, Resumes, BookSpec.Match, Flatten, BookSide.Valid, Without, PriceLevel.Valid;
      remaining, stopped, removed := quantity, false, [];
      ghost var m := BookSpec.Match(policy, t, far.Flat(), quantity);
      ghost var whole := m.(trades := trades + m.trades);
      ghost var levels, nodes := far.levels, far.nodes;
      StepStart(m, trades);
      while remaining > 0 && |far.levels| > 0
        invariant Matching(far, t, whole, removed, remaining, levels, nodes) && far.Dense()
        invariant pool.slots == old(pool.slots)
        decreases |far.levels|, remaining
      {
        var level := far.levels[0];
        BestLevel(far);
        if !Crosses(t.side, t.limit, level.price) {
          break;
        }
        remaining, stopped, removed := MatchLevel(far, level, t, whole, removed, remaining, levels, nodes);
        BestLevel(far);
        if stopped {
          StepEnd(whole, trades, removed, policy, t, far.Flat(), remaining, true);
          return;
        }
        if level.IsEmpty() {
          EraseLevel(far, level.price, 0);
        }
      }
      BestLevel(far);
      StepEnd(whole, trades, removed, policy, t, far.Flat(), remaining, false);
    }

    /** Consumes the best level oldest order first, until the taker is exhausted or stopped or the level is empty. */
    method MatchLevel(far: BookSide, level: PriceLevel, t: Taker, ghost whole: MatchOut,
                      ghost removed: seq<Resting>, quantity: Quantity,
                      ghost levels: seq<PriceLevel>, ghost nodes: set<Order>)
      returns (remaining: Quantity, stopped: bool, ghost removed': seq<Resting>)
      requires Matching(far, t, whole, removed, quantity, levels, nodes) && DenseTail(far)
      requires |far.levels| > 0 && far.levels[0] == level && Crosses(t.side, t.limit, level.price)
      modifies `trades, far`views, far`nodes, level, far.nodes, index, pool
      ensures Matching(far, t, whole, removed', remaining, levels, nodes) && DenseTail(far)
      ensures far.levels == old(far.levels) && pool.slots == old(pool.slots)
      ensures if stopped then remaining > 0 && policy == CancelAggressing && far.Flat() != [] && far.views[0] != []
                              && Own(policy, t, far.Flat()[0]) && Crosses(t.side, t.limit, far.Flat()[0].price)
              else remaining == 0 || level.IsEmpty()
    {
      hide Core, Resumes, BookSpec.Match, Flatten, BookSide.Valid, Without, PriceLevel.Valid;
      remaining, stopped, removed' := quantity, false, removed;
      ghost var own := far.nodes;
      while remaining > 0 && !level.IsEmpty()
        invariant Matching(far, t, whole, removed', remaining, levels, own) && DenseTail(far)
        invariant far.levels == old(far.levels) && pool.slots == old(pool.slots)
        decreases |far.Flat()|, remaining
      {
        var maker := level.head;
        FrontFacts(far, level, maker, t);
        if policy != AllowSelfTrade && maker.trader == t.trader {
          if policy == CancelResting {
            ghost var value := maker.Value();
            RemoveOwn(far, level, maker, t, whole, removed', remaining, levels, own);
            removed' := removed' + [value];
            continue;
          }
          stopped := true;
          return;
        }
        remaining := FillFront(far, level, maker, t, whole, removed', remaining, levels, own);
      }
    }

    // ---- Resting a remainder -----------------------------------------------------------------------------------

    /** A live order that is not yet queued nor indexed. */
    ghost predicate Loose(order: Order)
      reads bids, asks, index, pool, bids.levels, asks.levels, bids.nodes, asks.nodes, pool.free, pool.live
    {
      && Parts()
      && pool.live == bids.nodes + asks.nodes + {order}
      && order !in bids.nodes && order !in asks.nodes
      && IndexAgrees(index.Contents(), bids.nodes + asks.nodes)
    }

    /** A pooled order for the remainder, with no sequence number yet. */
    method AcquireOrder(t: Taker, quantity: Quantity) returns (order: Order)
      requires Core()
      modifies pool, pool.free
      ensures Loose(order) && (order in old(pool.free) || fresh(order))
      ensures fresh(pool.slots - old(pool.slots))
      ensures order.Value() == Resting(t.id, t.trader, t.side, t.limit, quantity, quantity, 0)
    {
      hide BookSide.Valid, PriceLevel.Valid, FlatHashMap.Valid, FlatHashMap.Contents, MemoryPool.Valid, Partition,
        FreeChain;
      LiveNotFree();
      order := pool.Acquire(t.id, t.trader, t.side, t.limit, quantity);
    }

    lemma LiveNotFree()
      requires Core()
      ensures forall i :: 0 <= i < |pool.free| ==> pool.free[i] !in bids.nodes && pool.free[i] !in asks.nodes
    {
    }

    /** Queues the order at its price, creating the level if need be: a stable insertion into the flat list. */
    method EnqueueOrder(near: BookSide, order: Order)
      requires Loose(order) && near == (if order.side == Buy then bids else asks)
      modifies near, near.levels, near.nodes`next, order`level, order`prev, order`next
      ensures Parts() && near.nodes == old(near.nodes) + {order}
      ensures order.Value() == old(order.Value())
      ensures forall i :: 0 <= i < |near.levels| ==> near.levels[i] in old(near.levels) || fresh(near.levels[i])
      ensures near.Flat() == Insert(near.side, old(near.Flat()), order.Value())
      ensures old(near.Dense()) ==> near.Dense()
    {
      hide BookSide.Valid, PriceLevel.Valid, FlatHashMap.Valid, FlatHashMap.Contents, MemoryPool.Valid, IndexAgrees,
        Insert;
      var level, k := EmplaceLevel(near, order.price);
      near.QueueInNodes(k);
      AppendTo(near, level, order, k);
    }

    /** The level of a price, created if need be, in the book. */
    method EmplaceLevel(near: BookSide, price: Price) returns (level: PriceLevel, ghost k: nat)
      requires Parts() && (near == bids || near == asks)
      modifies near`levels, near`views
      ensures Parts() && k < |near.levels| && near.levels[k] == level && level.price == price
      ensures level in old(near.levels) || fresh(level)
      ensures forall i :: 0 <= i < |near.levels| ==> near.levels[i] in old(near.levels) || near.levels[i] == level
      ensures near.Flat() == old(near.Flat())
      ensures forall i :: 0 <= i < |near.views| && i != k ==> near.views[i] in old(near.views)
    {
      hide BookSide.Valid, PriceLevel.Valid, FlatHashMap.Valid, MemoryPool.Valid;
      ghost var far := if near == bids then asks else bids;
      level, k := near.TryEmplace(price);
      forall i, j | 0 <= i < |near.levels| && 0 <= j < |far.levels|
        ensures near.levels[i] != far.levels[j]
      {
        assert near.levels[i] == level || near.levels[i] in old(near.levels);
      }
    }

    /** Queues the order behind those of its price. */
    method AppendTo(near: BookSide, level: PriceLevel, order: Order, ghost k: nat)
      requires Parts() && near == (if order.side == Buy then bids else asks)
      requires k < |near.levels| && near.levels[k] == level && level.price == order.price
      requires order !in bids.nodes && order !in asks.nodes
      modifies near`views, near`nodes, level, order`level, order`prev, order`next, level.queue`next
      ensures Parts() && near.nodes == old(near.nodes) + {order}
      ensures order.Value() == old(order.Value())
      ensures near.Flat() == Insert(near.side, old(near.Flat()), order.Value())
      ensures |near.views| == |old(near.views)| > k && near.views[k] != []
      ensures forall i :: 0 <= i < |near.views| && i != k ==> near.views[i] == old(near.views)[i]
    {
      hide BookSide.Valid, PriceLevel.Valid, FlatHashMap.Valid, MemoryPool.Valid, Flatten, Insert;
      near.EnqueueIsInsert(k, order.Value());
      near.QueueInNodes(k);
      near.Enqueue(level, order, k);
    }

    /** Materialises the remainder as a pooled order, stamps it, queues it and indexes it. */
    method RestRemainder(near: BookSide, t: Taker, remaining: Quantity)
      requires Core() && near == (if t.side == Buy then bids else asks)
      requires t.id !in index.Contents()
      modifies `nextSeq, near, near.levels, near.nodes`next, index, pool, pool.free
      ensures Core() && nextSeq == old(nextSeq) + 1
      ensures fresh(pool.slots - old(pool.slots))
      ensures forall i :: 0 <= i < |near.levels| ==> near.levels[i] in old(near.levels) || fresh(near.levels[i])
      ensures near.Flat() == Insert(t.side, old(near.Flat()),
                                    Resting(t.id, t.trader, t.side, t.limit, remaining, remaining, old(nextSeq)))
      ensures old(near.Dense()) ==> near.Dense()
    {
      hide Parts, FlatHashMap.Contents, Flatten, IndexAgrees, BookSide.Dense, BookSide.Flat, Insert;
      var order := AcquireOrder(t, remaining);
      Stamp(order);
      PlaceOrder(near, order);
    }

    /** Queues a loose order and enters it in the index. */
    method PlaceOrder(near: BookSide, order: Order)
      requires Loose(order) && near == (if order.side == Buy then bids else asks)
      requires order.id !in index.Contents()
      modifies near, near.levels, near.nodes`next, order`level, order`prev, order`next, index
      ensures Core()
      ensures forall i :: 0 <= i < |near.levels| ==> near.levels[i] in old(near.levels) || fresh(near.levels[i])
      ensures near.Flat() == Insert(order.side, old(near.Flat()), old(order.Value()))
      ensures old(near.Dense()) ==> near.Dense()
    {
      hide FlatHashMap.Contents, Flatten, IndexAgrees, BookSide.Dense, BookSide.Flat, BookSide.Valid, FlatHashMap.Valid,
        MemoryPool.Valid, Insert;
      ghost var others := bids.nodes + asks.nodes;
      EnqueueOrder(near, order);
      IndexOrder(order, others);
    }

    /** Gives the order the next sequence number. */
    method Stamp(order: Order)
      requires Loose(order)
      modifies `nextSeq, order`sequence
      ensures Loose(order) && order.sequence == old(nextSeq) && nextSeq == old(nextSeq) + 1
      ensures order.Value() == old(order.Value()).(sequence := old(nextSeq))
    {
      hide BookSide.Valid, PriceLevel.Valid, FlatHashMap.Valid, FlatHashMap.Contents, MemoryPool.Valid;
      order.sequence := nextSeq;
      nextSeq := nextSeq + 1;
    }

    /** Enters the order in the index, which completes the book again. */
    method IndexOrder(order: Order, ghost others: set<Order>)
      requires Parts() && pool.live == bids.nodes + asks.nodes == others + {order}
      requires IndexAgrees(index.Contents(), others) && order.id !in index.Contents()
      modifies index
      ensures Core()
    {
      hide BookSide.Valid, PriceLevel.Valid, FlatHashMap.Valid, FlatHashMap.Contents, MemoryPool.Valid;
      index.Insert(order.id, order);
    }

    /** What the book now consists of, it consisted of before or has allocated since. */
    twostate predicate Grown()
      reads bids, asks, pool
    {
      && (forall i :: 0 <= i < |bids.levels| ==> bids.levels[i] in old(bids.levels) || fresh(bids.levels[i]))
      && (forall i :: 0 <= i < |asks.levels| ==> asks.levels[i] in old(asks.levels) || fresh(asks.levels[i]))
      && fresh(pool.slots - old(pool.slots))
    }

    // ---- The public operations ---------------------------------------------------------------------------------

    /** Every order of the book, queued or free, lives in a slot of the pool. */
    lemma InSlots()
      requires Core()
      ensures forall n :: n in bids.nodes ==> n in pool.slots
      ensures forall n :: n in asks.nodes ==> n in pool.slots
      ensures forall i :: 0 <= i < |pool.free| ==> pool.free[i] in pool.slots
      ensures bids.side == Buy && asks.side == Sell
    {
    }

    /** The index knows exactly the ids that rest. */
    lemma IndexedIffRests(id: OrderId)
      requires Core()
      ensures id in index.Contents() <==> Rests(Abs(), id)
    {
      if id in index.Contents() {
        var n := index.Contents()[id];
        if n in bids.nodes {
          bids.NodeHasId(n);
        } else {
          asks.NodeHasId(n);
        }
      }
      if HasId(bids.Flat(), id) {
        var n := bids.IdHasNode(id);
      }
      if HasId(asks.Flat(), id) {
        var n := asks.IdHasNode(id);
      }
    }

    /** The order of a resting id. */
    method Lookup(id: OrderId) returns (found: Option<Order?>)
      requires Core()
      ensures found.Some? <==> Rests(Abs(), id)
      ensures found.Some? ==> found.value != null && found.value.id == id
      ensures found.Some? ==> found.value in bids.nodes || found.value in asks.nodes
    {
      IndexedIffRests(id);
      found := index.Find(id);
    }

    /** A matched book holds no id that did not rest before. */
    lemma NoNewId(book: Book, t: Taker, quantity: Quantity)
      requires !Rests(book, t.id)
      ensures var s := Opposite(t.side);
        !Rests(WithSide(book, s, BookSpec.Match(book.policy, t, SideOf(book, s), quantity).book), t.id)
    {
      hide BookSpec.Match, HasId;
      SweptIds(book.policy, t, SideOf(book, Opposite(t.side)), quantity, t.id);
    }

    /** Matches what is marketable and rests the remainder. */
    method Submit(id: OrderId, trader: TraderId, side: Side, price: Price, quantity: Quantity)
      returns (res: SubmitResult)
      requires Valid()
      modifies this, bids, asks, index, pool, bids.levels, asks.levels, pool.slots
      ensures Valid()
      ensures var out := BookSpec.Submit(old(Abs()), Taker(id, trader, side, price), quantity);
        Abs() == out.book && res == out.result && trades == out.trades
      ensures Grown()
    {
      hide Valid, Core, Abs, BookSpec.Match, Rests;
      var t := Taker(id, trader, side, price);
      trades := [];
      var found := Find(id);
      if quantity == 0 || found.Some? {
        return SubmitResult(Rejected, 0, 0, 0);
      }
      res := Take(t, quantity);
    }

    method Find(id: OrderId) returns (found: Option<Order?>)
      requires Valid()
      ensures found.Some? <==> Rests(Abs(), id)
    {
      hide Core, Abs, Rests;
      found := Lookup(id);
    }

    /** The far side of the book is matched; the book is whole again, but the remainder does not rest yet. */
    ghost predicate Whole()
      reads `nextSeq, bids, asks, index, pool, bids.levels, asks.levels, bids.nodes, asks.nodes, pool.free, pool.live
    {
      Core() && bids.Dense() && asks.Dense()
    }

    /** An admitted taker: matching, and what becomes of the remainder. */
    method Take(t: Taker, quantity: Quantity) returns (res: SubmitResult)
      requires Valid() && trades == [] && quantity > 0 && !Rests(Abs(), t.id)
      modifies this, bids, asks, index, pool, bids.levels, asks.levels, pool.slots
      ensures Valid() && Grown()
      ensures var out := BookSpec.Submit(old(Abs()), t, quantity);
        Abs() == out.book && res == out.result && trades == out.trades
    {
      hide Core, Abs, BookSpec.Match, Rests, WellFormed, Insert, BookSide.Dense;
      ghost var before := Abs();
      NoNewId(before, t, quantity);
      MatchShrinks(before.policy, t, SideOf(before, Opposite(t.side)), quantity);
      SubmitKeeps(before, t, quantity);
      var remaining, stopped := MatchFar(t, quantity);
      var filled := quantity - remaining;
      if stopped {
        return SubmitResult(CancelledBySelfTrade, filled, 0, |trades|);
      }
      if remaining > 0 {
        RestNear(t, remaining);
        res := SubmitResult(if filled > 0 then PartiallyFilled else Rested, filled, remaining, |trades|);
      } else {
        res := SubmitResult(FullyFilled, filled, 0, |trades|);
      }
    }

    /** Matching, seen from the whole book: the far side becomes what the pass leaves of it. */
    method MatchFar(t: Taker, quantity: Quantity) returns (remaining: Quantity, stopped: bool)
      requires Valid() && trades == []
      modifies `trades, bids, asks, index, pool, bids.levels, asks.levels, pool.slots
      ensures Whole() && Grown() && pool.slots == old(pool.slots)
      ensures var b := old(Abs());
        var m := BookSpec.Match(b.policy, t, SideOf(b, Opposite(t.side)), quantity);
        && Abs() == WithSide(b, Opposite(t.side), m.book)
        && trades == m.trades && remaining == m.remaining && stopped == m.stopped
    {
      hide Core, BookSpec.Match, WellFormed, Flatten, BookSide.Valid;
      InSlots();
      var far := if t.side == Buy then asks else bids;
      ghost var removed;
      remaining, stopped, removed := Match(far, t, quantity);
    }

    /** Resting the remainder, seen from the whole book: the near side gains one order. */
    method RestNear(t: Taker, remaining: Quantity)
      requires Whole() && !Rests(Abs(), t.id)
      modifies `nextSeq, bids, asks, index, pool, bids.levels, asks.levels, pool.slots
      ensures Whole() && Grown()
      ensures var b := old(Abs());
        var o := Resting(t.id, t.trader, t.side, t.limit, remaining, remaining, b.nextSeq);
        Abs() == WithSide(b, t.side, Insert(t.side, SideOf(b, t.side), o)).(nextSeq := b.nextSeq + 1)
    {
      hide Core, Insert, Flatten, BookSide.Valid, HasId;
      InSlots();
      IndexedIffRests(t.id);
      var near := if t.side == Buy then bids else asks;
      RestRemainder(near, t, remaining);
    }

    /** Where a resting order is, in the maps and in the flat lists. */
    lemma CancelFacts(order: Order) returns (k: nat, i: nat, p: nat)
      requires Valid() && (order in bids.nodes || order in asks.nodes)
      ensures var s := order.side;
        var far, near := (if s == Buy then bids else asks), (if s == Buy then asks else bids);
        && order in far.nodes
        && k < |far.levels| && far.levels[k] == order.level && i < |order.level.queue| && order.level.queue[i] == order
        && |far.views| == |far.levels| && i < |far.views[k]|
        && (forall j :: 0 <= j < |order.level.queue| ==> order.level.queue[j] in far.nodes)
        && Flatten(far.views[k := Without(far.views[k], i)]) == RemoveId(far.Flat(), order.id)
        && RemoveId(near.Flat(), order.id) == near.Flat()
    {
      var side := if order in bids.nodes then bids else asks;
      k, i := side.Locate(order);
      side.QueueInNodes(k);
      p := FlattenWithout(side.views, k, i);
      side.NodeHasId(order);
      RemoveIsWithout(side.side, side.Flat(), p, order.id, nextSeq);
      var other := if order in bids.nodes then asks else bids;
      RemoveAbsent(other.Flat(), order.id);
    }

    /** Takes an order out of the index, off its queue and back to the pool, and says whether its level is now empty. */
    method Withdraw(far: BookSide, level: PriceLevel, order: Order, ghost k: nat, ghost i: nat) returns (nowEmpty: bool)
      requires Core() && (far == bids || far == asks)
      requires k < |far.levels| && far.levels[k] == level && i < |level.queue| && level.queue[i] == order
      requires k < |far.views| && i < |far.views[k]|
      modifies far`views, far`nodes, level, level.queue`level, level.queue`prev, level.queue`next
      modifies index, pool, order`nextFree
      ensures Core() && far.nodes == old(far.nodes) - {order} && pool.slots == old(pool.slots)
      ensures far.views == old(far.views)[k := Without(old(far.views)[k], i)]
      ensures nowEmpty <==> far.views[k] == []
    {
      hide Parts, FlatHashMap.Valid, FlatHashMap.Contents, IndexAgrees;
      QueuedFacts(far, k);
      Unindexed(order);
      RemoveFromIndex(order.id);
      UnlinkOrder(far, level, order, k, i);
      QueuedFacts(far, k);
      nowEmpty := level.IsEmpty();
      ReleaseOrder(order);
    }

    /** Withdraws a resting order; false if there is none with that id. */
    method Cancel(id: OrderId) returns (present: bool)
      requires Valid()
      modifies bids, asks, index, pool, bids.levels, asks.levels, pool.slots
      ensures Valid()
      ensures (Abs(), present) == BookSpec.Cancel(old(Abs()), id)
      ensures present <==> exists o :: (o in old(Abs()).bids || o in old(Abs()).asks) && o.id == id
      ensures Grown()
    {
      hide BookSide.Valid, PriceLevel.Valid, Core, FlatHashMap.Valid, FlatHashMap.Contents, MemoryPool.Valid, Flatten,
        WellFormed;
      InSlots();
      CancelKeeps(Abs(), id);
      var found := Lookup(id);
      present := found.Some?;
      if !present {
        RemoveAbsent(bids.Flat(), id);
        RemoveAbsent(asks.Flat(), id);
        return;
      }
      CancelOrder(found.value);
    }

    /** Withdraws an order, and its level if that is now empty. */
    method CancelOrder(order: Order)
      requires Valid() && (order in bids.nodes || order in asks.nodes)
      modifies bids, asks, index, pool, bids.levels, asks.levels, pool.slots
      ensures Valid() && Abs() == BookSpec.Cancel(old(Abs()), order.id).0 && order.id == old(order.id)
      ensures Grown()
    {
      hide Core, Abs, WellFormed, BookSpec.Cancel, BookSide.Dense;
      CancelKeeps(Abs(), order.id);
      TakeOut(order);
    }

    method TakeOut(order: Order)
      requires Valid() && (order in bids.nodes || order in asks.nodes)
      modifies bids, asks, index, pool, bids.levels, asks.levels, pool.slots
      ensures Whole() && Abs() == BookSpec.Cancel(old(Abs()), order.id).0 && order.id == old(order.id)
      ensures Grown()
    {
      hide BookSide.Valid, PriceLevel.Valid, Core, FlatHashMap.Valid, FlatHashMap.Contents, MemoryPool.Valid, Flatten,
        WellFormed, RemoveId, HasId, Without;
      InSlots();
      var level := order.level;
      ghost var k, i, p := CancelFacts(order);
      var side, price := order.side, level.price;
      var far := if side == Buy then bids else asks;
      FlattenUpdate(far.views, k, Without(far.views[k], i));
      var nowEmpty := Withdraw(far, level, order, k, i);
      if nowEmpty {
        EraseLevel(far, price, k);
      }
    }

    method BestBid() returns (best: Option<Price>)
      requires Valid()
      ensures best == BestPrice(Abs().bids)
    {
      BestLevel(bids);
      best := if |bids.levels| == 0 then None else Some(bids.levels[0].price);
    }

    method BestAsk() returns (best: Option<Price>)
      requires Valid()
      ensures best == BestPrice(Abs().asks)
    {
      BestLevel(asks);
      best := if |asks.levels| == 0 then None else Some(asks.levels[0].price);
    }

    method QuantityAt(side: Side, price: Price) returns (quantity: Quantity)
      requires Valid()
      ensures quantity == Total(At(if side == Buy then Abs().bids else Abs().asks, price)) % TWO_64
    {
      if side == Buy {
        quantity := bids.QuantityAt(price);
      } else {
        quantity := asks.QuantityAt(price);
      }
    }

    method Snapshot() returns (out: seq<OrderSnapshot>)
      requires Valid()
      ensures out == BookSpec.Snapshot(Abs())
    {
      var bidSide := bids.Snapshot();
      var askSide := asks.Snapshot();
      out := bidSide + askSide;
    }

    // ---- Runs --------------------------------------------------------------------------------------------------

    /** One operation and all that a caller can see of it. */
    method Perform(op: Op) returns (seen: Seen)
      requires Valid()
      modifies this, bids, asks, index, pool, bids.levels, asks.levels, pool.slots
      ensures Valid() && Grown()
      ensures seen == See(old(Abs()), op) && Abs() == Step(old(Abs()), op)
    {
      hide Valid, Abs, BookSpec.Submit, BookSpec.Cancel, BookSpec.Snapshot;
      match op {
        case SubmitOp(t, quantity) =>
          var result := Submit(t.id, t.trader, t.side, t.limit, quantity);
          var shown := Snapshot();
          seen := Submitted(result, trades, shown);
        case CancelOp(id) =>
          var present := Cancel(id);
          var shown := Snapshot();
          seen := Cancelled(present, shown);
      }
    }

    /** Any sequence of operations, from any valid book: what is seen depends on the abstract book alone. */
    method Observe(ops: seq<Op>) returns (seen: seq<Seen>)
      requires Valid()
      modifies this, bids, asks, index, pool, bids.levels, asks.levels, pool.slots
      ensures Valid() && Grown()
      ensures seen == Watch(old(Abs()), ops) && Abs() == Run(old(Abs()), ops)
    {
      hide Valid, Abs, See, Step;
      seen := [];
      for i := 0 to |ops|
        invariant Valid() && Grown()
        invariant seen + Watch(Abs(), ops[i..]) == Watch(old(Abs()), ops)
        invariant Run(Abs(), ops[i..]) == Run(old(Abs()), ops)
      {
        assert ops[i..][0] == ops[i] && ops[i..][1..] == ops[i + 1..];
        var one := Perform(ops[i]);
        seen := seen + [one];
      }
      assert ops[|ops|..] == [];
    }

    /** What the invariant of the book says of its structures. Every index entry leads to the one live order with that
        id, queued in the level of its own side and price, which it points back to; every queued order is indexed; no
        level is empty; no slot on the free list is queued anywhere. */
    lemma ViewsAgree()
      requires Valid()
      ensures forall id :: id in index.Contents() ==>
                var n := index.Contents()[id];
                && n != null && n.id == id && n in pool.live
                && n.level != null && n in n.level.queue && n.level.price == n.price
                && n.level in (if n.side == Buy then bids else asks).levels
      ensures forall l, n :: (l in bids.levels || l in asks.levels) && n in l.queue ==>
                n.id in index.Contents() && index.Contents()[n.id] == n && n.level == l
      ensures forall l :: l in bids.levels || l in asks.levels ==> l.queue != []
      ensures forall l, n :: (l in bids.levels || l in asks.levels) && n in pool.free ==> n !in l.queue
    {
      hide PriceLevel.Valid, Abs;
      forall id | id in index.Contents()
        ensures var n := index.Contents()[id];
          n.level.price == n.price && n.level in (if n.side == Buy then bids else asks).levels
      {
        var n := index.Contents()[id];
        var side := if n in bids.nodes then bids else asks;
        var k, i := side.Locate(n);
        side.QueueInNodes(k);
      }
      forall l | l in bids.levels || l in asks.levels
        ensures l.queue != []
        ensures forall n :: n in l.queue ==> (n in bids.nodes || n in asks.nodes) && n.level == l
      {
        var side := if l in bids.levels then bids else asks;
        var k :| 0 <= k < |side.levels| && side.levels[k] == l;
        side.QueueInNodes(k);
      }
    }

    /** No order leaks: the pool has exactly as many live slots as the index has entries. */
    lemma NoLeak()
      requires Core()
      ensures pool.liveCount == index.size
    {
      SameSize(index.values, index.slots);
      CountsAgree(index.Contents(), pool.live);
    }
  }
}
