/** Conservation of quantity over whole runs of the book, for every set of order ids at once. */
module Ledger {
  import opened Types
  import opened BookSpec
  import opened MatchLaws
  import opened BookLaws

  /** Where accepted quantity goes. `dropped` is what CancelAggressing takes off takers, `removed` what CancelResting
      takes off makers; `traded` counts both sides of every trade. */
  datatype Flow = Flow(accepted: nat, traded: nat, cancelled: nat, removed: nat, dropped: nat) {
    function Plus(f: Flow): Flow {
      Flow(accepted + f.accepted, traded + f.traded, cancelled + f.cancelled, removed + f.removed, dropped + f.dropped)
    }
  }

  function RemainingOf(orders: seq<Resting>, id: OrderId): nat {
    if orders == [] then 0
    else if orders[0].id == id then orders[0].remaining
    else RemainingOf(orders[1..], id)
  }

  ghost function StepFlow(b: Book, op: Op, ids: iset<OrderId>): Flow {
    match op
    case SubmitOp(t, q) =>
      var out := Submit(b, t, q);
      var mine := t.id in ids;
      Flow(if mine && out.result.status != Rejected then q else 0,
           TradedIn(out.trades, ids),
           0,
           TotalIn(out.removed, ids),
           if mine && out.result.status == CancelledBySelfTrade && out.result.filled <= q
           then q - out.result.filled else 0)
    case CancelOp(id) =>
      Flow(0, 0, if id in ids then RemainingOf(b.bids, id) + RemainingOf(b.asks, id) else 0, 0, 0)
  }

  ghost function RunFlow(b: Book, ops: seq<Op>, ids: iset<OrderId>): Flow
    decreases |ops|
  {
    if ops == [] then Flow(0, 0, 0, 0, 0)
    else StepFlow(b, ops[0], ids).Plus(RunFlow(Step(b, ops[0]), ops[1..], ids))
  }

  ghost function RestingIn(b: Book, ids: iset<OrderId>): nat {
    TotalIn(b.bids, ids) + TotalIn(b.asks, ids)
  }

  lemma {:induction false} InsertTotal(s: Side, orders: seq<Resting>, o: Resting, ids: iset<OrderId>)
    ensures TotalIn(Insert(s, orders, o), ids) == TotalIn(orders, ids) + TotalIn([o], ids)
    decreases |orders|
  {
    assert [o][1..] == [];
    if orders == [] || Better(s, o.price, orders[0].price) {
      assert ([o] + orders)[1..] == orders;
    } else {
      InsertTotal(s, orders[1..], o, ids);
      assert ([orders[0]] + Insert(s, orders[1..], o))[1..] == Insert(s, orders[1..], o);
    }
  }

  lemma {:induction false} RemoveTotal(orders: seq<Resting>, id: OrderId, ids: iset<OrderId>)
    ensures TotalIn(RemoveId(orders, id), ids) + (if id in ids then RemainingOf(orders, id) else 0)
         == TotalIn(orders, ids)
    decreases |orders|
  {
    if orders != [] && orders[0].id != id {
      RemoveTotal(orders[1..], id, ids);
      assert ([orders[0]] + RemoveId(orders[1..], id))[1..] == RemoveId(orders[1..], id);
    }
  }

  lemma SubmitConserves(b: Book, t: Taker, quantity: Quantity, ids: iset<OrderId>)
    ensures var out := Submit(b, t, quantity);
      var f := StepFlow(b, SubmitOp(t, quantity), ids);
      RestingIn(b, ids) + f.accepted == RestingIn(out.book, ids) + f.traded + f.cancelled + f.removed + f.dropped
  {
    hide Match, Insert, Rests, TotalIn, TradedIn;
    EmptyIn(ids);
    if quantity == 0 || Rests(b, t.id) {
      return;
    }
    var m := Match(b.policy, t, SideOf(b, Opposite(t.side)), quantity);
    MatchShrinks(b.policy, t, SideOf(b, Opposite(t.side)), quantity);
    MatchConserves(b.policy, t, SideOf(b, Opposite(t.side)), quantity, ids);
    if m.remaining > 0 && !m.stopped {
      var o := Resting(t.id, t.trader, t.side, t.limit, m.remaining, m.remaining, b.nextSeq);
      InsertTotal(t.side, SideOf(b, t.side), o, ids);
      TotalInCons(o, [], ids);
      assert [o] + [] == [o];
    }
  }

  /** Over any run and any set of ids: accepted = traded + cancelled + removed + dropped + the change in what rests. */
  lemma {:induction false} RunConserves(b: Book, ops: seq<Op>, ids: iset<OrderId>)
    ensures var f := RunFlow(b, ops, ids);
      RestingIn(b, ids) + f.accepted
        == RestingIn(Run(b, ops), ids) + f.traded + f.cancelled + f.removed + f.dropped
    decreases |ops|
  {
    if ops != [] {
      match ops[0] {
        case SubmitOp(t, q) => SubmitConserves(b, t, q, ids);
        case CancelOp(id) =>
          RemoveTotal(b.bids, id, ids);
          RemoveTotal(b.asks, id, ids);
      }
      RunConserves(Step(b, ops[0]), ops[1..], ids);
    }
  }

  function StepTrades(b: Book, op: Op): seq<Trade> {
    if op.SubmitOp? then Submit(b, op.taker, op.quantity).trades else []
  }

  /** Every trade a run prints, in order. */
  function RunTrades(b: Book, ops: seq<Op>): seq<Trade>
    decreases |ops|
  {
    if ops == [] then [] else StepTrades(b, ops[0]) + RunTrades(Step(b, ops[0]), ops[1..])
  }

  function Volume(trades: seq<Trade>): nat {
    if trades == [] then 0 else trades[0].quantity + Volume(trades[1..])
  }

  ghost predicate Any(id: OrderId) {
    true
  }

  ghost function AllIds(): iset<OrderId> {
    iset id: OrderId | Any(id)
  }

  lemma {:induction false} TotalInAll(orders: seq<Resting>)
    ensures TotalIn(orders, AllIds()) == Total(orders)
    decreases |orders|
  {
    if orders != [] {
      TotalInAll(orders[1..]);
    }
  }

  lemma {:induction false} TradedInAll(xs: seq<Trade>, ys: seq<Trade>)
    ensures TradedIn(xs, AllIds()) == 2 * Volume(xs)
    ensures Volume(xs + ys) == Volume(xs) + Volume(ys)
    decreases |xs|
  {
    if xs == [] {
      assert xs + ys == ys;
    } else {
      TradedInAll(xs[1..], ys);
      assert (xs + ys)[1..] == xs[1..] + ys;
    }
  }

  lemma {:induction false} RunTradesVolume(b: Book, ops: seq<Op>)
    ensures RunFlow(b, ops, AllIds()).traded == 2 * Volume(RunTrades(b, ops))
    decreases |ops|
  {
    if ops != [] {
      TradedInAll(StepTrades(b, ops[0]), RunTrades(Step(b, ops[0]), ops[1..]));
      RunTradesVolume(Step(b, ops[0]), ops[1..]);
    }
  }

  /** From an empty book, the accepted quantity is twice the traded volume, plus what rests, plus what was cancelled on
      request, plus what the two self-trade rules took away. */
  lemma WholeRunConservation(policy: SelfTradePolicy, ops: seq<Op>)
    ensures var f := RunFlow(Empty(policy), ops, AllIds());
      var b := Run(Empty(policy), ops);
      f.accepted == 2 * Volume(RunTrades(Empty(policy), ops)) + Total(b.bids) + Total(b.asks)
                    + f.cancelled + f.removed + f.dropped
  {
    RunConserves(Empty(policy), ops, AllIds());
    RunTradesVolume(Empty(policy), ops);
    TotalInAll(Run(Empty(policy), ops).bids);
    TotalInAll(Run(Empty(policy), ops).asks);
  }

  /** Order by order: what was accepted under an id is what it traded, on either side, plus what of it still rests, plus
      what was cancelled, removed or dropped. */
  lemma PerOrderConservation(policy: SelfTradePolicy, ops: seq<Op>, id: OrderId)
    ensures var f := RunFlow(Empty(policy), ops, iset{id});
      var b := Run(Empty(policy), ops);
      f.accepted == f.traded + RemainingOf(b.bids, id) + RemainingOf(b.asks, id)
                    + f.cancelled + f.removed + f.dropped
  {
    RunConserves(Empty(policy), ops, iset{id});
    RunKeeps(Empty(policy), ops);
    RemainingIs(Run(Empty(policy), ops).bids, id);
    RemainingIs(Run(Empty(policy), ops).asks, id);
  }

  lemma {:induction false} RemainingIs(orders: seq<Resting>, id: OrderId)
    requires forall i, j :: 0 <= i < j < |orders| ==> orders[i].id != orders[j].id
    ensures TotalIn(orders, iset{id}) == RemainingOf(orders, id)
    decreases |orders|
  {
    if orders != [] {
      RemainingIs(orders[1..], id);
      if orders[0].id == id {
        NoneLeft(orders[1..], id);
      }
    }
  }

  lemma {:induction false} NoneLeft(orders: seq<Resting>, id: OrderId)
    requires forall i :: 0 <= i < |orders| ==> orders[i].id != id
    ensures RemainingOf(orders, id) == 0
    decreases |orders|
  {
    if orders != [] {
      NoneLeft(orders[1..], id);
    }
  }
}
