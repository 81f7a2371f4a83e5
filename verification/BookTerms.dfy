/** The operations of the book in plain terms: what each does to the fields of orders, trades and results, with every
    comparison written out and without the functions that define the book. */
module BookTerms {
  import opened Types
  import opened BookSpec
  import opened BookLaws
  import opened MatchLaws
  import opened Ledger

  /** A submit is rejected exactly when it is for nothing or its id rests already, and then nothing happens. */
  lemma RejectTerms(b: Book, t: Taker, quantity: Quantity)
    ensures var out := Submit(b, t, quantity);
      && (out.result.status == Rejected
          <==> quantity == 0 || (exists o :: o in b.bids && o.id == t.id) || (exists o :: o in b.asks && o.id == t.id))
      && (out.result.status == Rejected ==>
            out.book == b && out.trades == [] && out.result == SubmitResult(Rejected, 0, 0, 0))
  {
    hide Match;
    KnownId(b.bids, t.id);
    KnownId(b.asks, t.id);
    MatchShrinks(b.policy, t, SideOf(b, Opposite(t.side)), quantity);
  }

  lemma KnownId(orders: seq<Resting>, id: OrderId)
    ensures HasId(orders, id) <==> exists o :: o in orders && o.id == id
  {
    if HasId(orders, id) {
      var i :| 0 <= i < |orders| && orders[i].id == id;
      assert orders[i] in orders;
    }
  }

  /** What a submit does to the other side: asks for a buy, bids for a sell. It takes away the first `k` orders, each
      within its limit, may reduce the next, which is within its limit as well, and leaves the others as they were. */
  lemma FarTerms(b: Book, t: Taker, quantity: Quantity) returns (k: nat)
    ensures var out := Submit(b, t, quantity).book;
      var far, left := if t.side == Buy then b.asks else b.bids, if t.side == Buy then out.asks else out.bids;
      && k + |left| == |far|
      && (forall i :: 0 <= i < k ==> if t.side == Buy then far[i].price <= t.limit else far[i].price >= t.limit)
      && (left != [] ==> left[1..] == far[k + 1..])
      && (left != [] && left[0] != far[k] ==>
            && (if t.side == Buy then far[k].price <= t.limit else far[k].price >= t.limit)
            && 0 < left[0].remaining < far[k].remaining
            && left[0] == far[k].(remaining := left[0].remaining))
  {
    hide Submit;
    var far := if t.side == Buy then b.asks else b.bids;
    FarIsMatched(b, t, quantity);
    k := 0;
    if quantity > 0 && !Rests(b, t.id) {
      k := SweptTerms(b.policy, t, far, quantity);
    }
  }

  lemma FarIsMatched(b: Book, t: Taker, quantity: Quantity)
    ensures var out := Submit(b, t, quantity).book;
      var far, left := if t.side == Buy then b.asks else b.bids, if t.side == Buy then out.asks else out.bids;
      left == if quantity > 0 && !Rests(b, t.id) then Match(b.policy, t, far, quantity).book else far
  {
    hide Match, Insert, Rests;
    if quantity > 0 && !Rests(b, t.id) {
      MatchShrinks(b.policy, t, if t.side == Buy then b.asks else b.bids, quantity);
    }
  }

  lemma SweptTerms(policy: SelfTradePolicy, t: Taker, far: seq<Resting>, quantity: Quantity) returns (k: nat)
    ensures var left := Match(policy, t, far, quantity).book;
      && k + |left| == |far|
      && (forall i :: 0 <= i < k ==> if t.side == Buy then far[i].price <= t.limit else far[i].price >= t.limit)
      && (left != [] ==> left[1..] == far[k + 1..])
      && (left != [] && left[0] != far[k] ==>
            && (if t.side == Buy then far[k].price <= t.limit else far[k].price >= t.limit)
            && 0 < left[0].remaining < far[k].remaining
            && left[0] == far[k].(remaining := left[0].remaining))
  {
    hide Match;
    var part;
    k, part := MatchSweeps(policy, t, far, quantity);
    SweepTerms(policy, t, far, Match(policy, t, far, quantity), k, part);
  }

  lemma SweepTerms(policy: SelfTradePolicy, t: Taker, far: seq<Resting>, m: MatchOut, k: nat, part: nat)
    requires Sweeps(policy, t, far, m, k, part)
    ensures k + |m.book| == |far|
    ensures forall i :: 0 <= i < k ==> if t.side == Buy then far[i].price <= t.limit else far[i].price >= t.limit
    ensures m.book != [] ==> m.book[1..] == far[k + 1..]
    ensures m.book != [] && m.book[0] != far[k] ==>
              && (if t.side == Buy then far[k].price <= t.limit else far[k].price >= t.limit)
              && 0 < m.book[0].remaining < far[k].remaining
              && m.book[0] == far[k].(remaining := m.book[0].remaining)
  {
    hide Owned, Others, Prints, Print, Own;
  }

  /** What a submit does to its own side: bids for a buy, asks for a sell. Nothing, if nothing rests; otherwise one
      order joins it, with the taker's id, trader, side and limit, the remainder as its size, and the next sequence
      number. */
  lemma NearTerms(b: Book, t: Taker, quantity: Quantity)
    ensures var out := Submit(b, t, quantity);
      var near := if t.side == Buy then b.bids else b.asks;
      var grown := if t.side == Buy then out.book.bids else out.book.asks;
      var rest := out.result.resting;
      && out.book.policy == b.policy
      && (rest == 0 ==> grown == near && out.book.nextSeq == b.nextSeq)
      && (rest > 0 ==>
            && |grown| == |near| + 1 && out.book.nextSeq == b.nextSeq + 1
            && forall x :: x in grown
                 <==> x in near || x == Resting(t.id, t.trader, t.side, t.limit, rest, rest, b.nextSeq))
  {
    hide Match, Insert;
    if quantity > 0 && !Rests(b, t.id) {
      var far, near := if t.side == Buy then b.asks else b.bids, if t.side == Buy then b.bids else b.asks;
      var m := Match(b.policy, t, far, quantity);
      MatchShrinks(b.policy, t, far, quantity);
      var o := Resting(t.id, t.trader, t.side, t.limit, m.remaining, m.remaining, b.nextSeq);
      InsertedMembers(t.side, near, o);
      InsertedLength(t.side, near, o);
    }
  }

  lemma InsertedLength(s: Side, orders: seq<Resting>, o: Resting)
    ensures |Insert(s, orders, o)| == |orders| + 1
  {
    InsertSplits(s, orders, o);
  }

  /** What a submit reports. Every trade is with an order of the other side, at its price, within the taker's limit, for
      some quantity that this order had, and names both ids, both traders and the side of the taker. The result counts
      the trades and adds up their quantities. */
  lemma TradeTerms(b: Book, t: Taker, quantity: Quantity)
    requires WellFormed(b)
    ensures var out := Submit(b, t, quantity);
      var far := if t.side == Buy then b.asks else b.bids;
      && (forall trade :: trade in out.trades ==>
            && trade.takerId == t.id && trade.takerTrader == t.trader && trade.takerSide == t.side
            && (if t.side == Buy then trade.price <= t.limit else trade.price >= t.limit)
            && exists maker :: maker in far && trade.makerId == maker.id && trade.makerTrader == maker.trader
                 && trade.price == maker.price && 0 < trade.quantity <= maker.remaining)
      && out.result.tradeCount == |out.trades|
      && out.result.filled == Volume(out.trades)
      && (out.result.status != Rejected ==> out.result.filled + out.result.resting <= quantity)
  {
    hide Match, Insert, WellFormed;
    if quantity > 0 && !Rests(b, t.id) {
      var far := if t.side == Buy then b.asks else b.bids;
      MatchShrinks(b.policy, t, far, quantity);
      MatchVolume(b.policy, t, far, quantity);
      FarIsSide(b, t.side);
      MatchTrades(b.policy, t, far, quantity);
    }
  }

  lemma FarIsSide(b: Book, s: Side)
    requires WellFormed(b)
    ensures var far := if s == Buy then b.asks else b.bids;
      Sorted(Opposite(s), far) && forall i :: 0 <= i < |far| ==> far[i].remaining > 0
  {
  }

  lemma MatchTrades(policy: SelfTradePolicy, t: Taker, far: seq<Resting>, quantity: Quantity)
    requires Sorted(Opposite(t.side), far) && forall i :: 0 <= i < |far| ==> far[i].remaining > 0
    ensures forall trade :: trade in Match(policy, t, far, quantity).trades ==>
            && trade.takerId == t.id && trade.takerTrader == t.trader && trade.takerSide == t.side
            && (if t.side == Buy then trade.price <= t.limit else trade.price >= t.limit)
            && exists maker :: maker in far && trade.makerId == maker.id && trade.makerTrader == maker.trader
                 && trade.price == maker.price && 0 < trade.quantity <= maker.remaining
  {
    hide Match, Sorted, Precedes;
    var m := Match(policy, t, far, quantity);
    var makers := PriceTimePriority(policy, t, far, quantity);
    MatchPositive(policy, t, far, quantity);
    forall trade | trade in m.trades
      ensures exists maker :: maker in far && trade.makerId == maker.id && trade.makerTrader == maker.trader
                && trade.price == maker.price && 0 < trade.quantity <= maker.remaining
    {
      var i :| 0 <= i < |m.trades| && m.trades[i] == trade;
      assert makers[i] in makers;
    }
  }

  lemma {:induction false} MatchPositive(policy: SelfTradePolicy, t: Taker, far: seq<Resting>, quantity: Quantity)
    requires forall i :: 0 <= i < |far| ==> far[i].remaining > 0
    ensures forall trade :: trade in Match(policy, t, far, quantity).trades ==> trade.quantity > 0
    decreases |far|
  {
    hide Match;
    MatchCases(policy, t, far, quantity);
    if quantity > 0 && far != [] {
      MatchPositive(policy, t, far[1..], quantity);
      if far[0].remaining <= quantity {
        MatchPositive(policy, t, far[1..], quantity - far[0].remaining);
      }
    }
  }

  lemma {:induction false} MatchVolume(policy: SelfTradePolicy, t: Taker, far: seq<Resting>, quantity: Quantity)
    ensures quantity - Match(policy, t, far, quantity).remaining == Volume(Match(policy, t, far, quantity).trades)
    decreases |far|
  {
    hide Match, Own, Crosses;
    MatchCases(policy, t, far, quantity);
    VolumeOfNone();
    if quantity > 0 && far != [] {
      MatchVolume(policy, t, far[1..], quantity);
      VolumeCons(Print(t, far[0], Min(quantity, far[0].remaining)), []);
      if far[0].remaining <= quantity {
        MatchVolume(policy, t, far[1..], quantity - far[0].remaining);
        VolumeCons(Print(t, far[0], far[0].remaining),
                   Match(policy, t, far[1..], quantity - far[0].remaining).trades);
      }
    }
  }

  lemma VolumeOfNone()
    ensures Volume([]) == 0
  {
  }

  lemma VolumeCons(trade: Trade, trades: seq<Trade>)
    ensures Volume([trade] + trades) == trade.quantity + Volume(trades)
  {
    assert ([trade] + trades)[1..] == trades;
  }

  /** A cancel says whether an order with that id was there, and takes it away; every other order stays. */
  lemma CancelTerms(b: Book, id: OrderId)
    requires WellFormed(b)
    ensures var (left, present) := Cancel(b, id);
      && (present <==> (exists o :: o in b.bids && o.id == id) || (exists o :: o in b.asks && o.id == id))
      && (present <==> left != b)
      && (present ==> |left.bids| + |left.asks| == |b.bids| + |b.asks| - 1)
      && (forall o :: o in left.bids <==> o in b.bids && o.id != id)
      && (forall o :: o in left.asks <==> o in b.asks && o.id != id)
      && left.policy == b.policy && left.nextSeq == b.nextSeq
  {
    KnownId(b.bids, id);
    KnownId(b.asks, id);
    RemoveKeepsSide(Buy, b.bids, id, b.nextSeq);
    RemoveKeepsSide(Sell, b.asks, id, b.nextSeq);
    RemovedLength(b.bids, id);
    RemovedLength(b.asks, id);
    hide HasId, RemoveId, Sorted;
  }

  lemma RemovedLength(orders: seq<Resting>, id: OrderId)
    ensures |RemoveId(orders, id)| == |orders| - if HasId(orders, id) then 1 else 0
    ensures !HasId(orders, id) ==> RemoveId(orders, id) == orders
  {
    if HasId(orders, id) {
      var i := RemoveSplits(orders, id);
    } else {
      RemoveAbsent(orders, id);
    }
  }

  /** Every book that any run reaches: bids fall and asks rise in price, the earlier order ahead at the same price;
      sides agree, ids differ, something remains of every order, and every bid is below every ask. */
  lemma SidesTerms(policy: SelfTradePolicy, ops: seq<Op>)
    ensures var b := Run(Empty(policy), ops);
      && (forall i, j :: 0 <= i < j < |b.bids| ==>
            b.bids[i].price > b.bids[j].price
            || (b.bids[i].price == b.bids[j].price && b.bids[i].sequence < b.bids[j].sequence))
      && (forall i, j :: 0 <= i < j < |b.asks| ==>
            b.asks[i].price < b.asks[j].price
            || (b.asks[i].price == b.asks[j].price && b.asks[i].sequence < b.asks[j].sequence))
      && (forall o :: o in b.bids ==> o.side == Buy && 0 < o.remaining <= o.quantity && o.sequence < b.nextSeq)
      && (forall o :: o in b.asks ==> o.side == Sell && 0 < o.remaining <= o.quantity && o.sequence < b.nextSeq)
      && (forall i, j :: 0 <= i < j < |b.bids| ==> b.bids[i].id != b.bids[j].id)
      && (forall i, j :: 0 <= i < j < |b.asks| ==> b.asks[i].id != b.asks[j].id)
      && (forall i, j :: 0 <= i < |b.bids| && 0 <= j < |b.asks| ==>
            b.bids[i].id != b.asks[j].id && b.bids[i].price < b.asks[j].price)
  {
    RunKeeps(Empty(policy), ops);
    WellFormedTerms(Run(Empty(policy), ops));
  }

  lemma WellFormedTerms(b: Book)
    requires WellFormed(b)
    ensures forall i, j :: 0 <= i < j < |b.bids| ==>
              b.bids[i].price > b.bids[j].price
              || (b.bids[i].price == b.bids[j].price && b.bids[i].sequence < b.bids[j].sequence)
    ensures forall i, j :: 0 <= i < j < |b.asks| ==>
              b.asks[i].price < b.asks[j].price
              || (b.asks[i].price == b.asks[j].price && b.asks[i].sequence < b.asks[j].sequence)
    ensures forall o :: o in b.bids ==> o.side == Buy && 0 < o.remaining <= o.quantity && o.sequence < b.nextSeq
    ensures forall o :: o in b.asks ==> o.side == Sell && 0 < o.remaining <= o.quantity && o.sequence < b.nextSeq
    ensures forall i, j :: 0 <= i < j < |b.bids| ==> b.bids[i].id != b.bids[j].id
    ensures forall i, j :: 0 <= i < j < |b.asks| ==> b.asks[i].id != b.asks[j].id
    ensures forall i, j :: 0 <= i < |b.bids| && 0 <= j < |b.asks| ==>
              b.bids[i].id != b.asks[j].id && b.bids[i].price < b.asks[j].price
  {
    assert forall i, j :: 0 <= i < j < |b.bids| ==> Precedes(Buy, b.bids[i], b.bids[j]);
    assert forall i, j :: 0 <= i < j < |b.asks| ==> Precedes(Sell, b.asks[i], b.asks[j]);
  }

  /** The best bid is the highest bid, the best ask the lowest ask, and there is none exactly on an empty side. */
  lemma BestTerms(b: Book)
    requires WellFormed(b)
    ensures BestPrice(b.bids) == None <==> b.bids == []
    ensures BestPrice(b.asks) == None <==> b.asks == []
    ensures forall p :: BestPrice(b.bids) == Some(p) ==>
              (exists o :: o in b.bids && o.price == p) && forall o :: o in b.bids ==> o.price <= p
    ensures forall p :: BestPrice(b.asks) == Some(p) ==>
              (exists o :: o in b.asks && o.price == p) && forall o :: o in b.asks ==> o.price >= p
  {
    WellFormedTerms(b);
    hide WellFormed;
    assert b.bids != [] ==> b.bids[0] in b.bids;
    assert b.asks != [] ==> b.asks[0] in b.asks;
  }

  /** A snapshot lists the bids and then the asks, each order with its own side, price, id, remainder and sequence. */
  lemma SnapshotTerms(b: Book)
    ensures var shown := Snapshot(b);
      && |shown| == |b.bids| + |b.asks|
      && (forall i :: 0 <= i < |b.bids| ==>
            && shown[i].side == b.bids[i].side && shown[i].price == b.bids[i].price && shown[i].id == b.bids[i].id
            && shown[i].remaining == b.bids[i].remaining && shown[i].sequence == b.bids[i].sequence)
      && (forall i :: 0 <= i < |b.asks| ==>
            var x := shown[|b.bids| + i];
            && x.side == b.asks[i].side && x.price == b.asks[i].price && x.id == b.asks[i].id
            && x.remaining == b.asks[i].remaining && x.sequence == b.asks[i].sequence)
  {
  }

  /** The depth at a price is over exactly the orders at that price, each once. */
  lemma {:induction false} DepthTerms(orders: seq<Resting>, price: Price)
    requires forall i, j :: 0 <= i < j < |orders| ==> orders[i].id != orders[j].id
    ensures forall o :: o in At(orders, price) <==> o in orders && o.price == price
    ensures forall i, j :: 0 <= i < j < |At(orders, price)| ==> At(orders, price)[i].id != At(orders, price)[j].id
    decreases |orders|
  {
    hide At;
    AtMembers(orders, price);
    if orders == [] {
      NoneAt(price);
    } else {
      assert forall i :: 0 <= i < |orders[1..]| ==> orders[1..][i] == orders[i + 1];
      DepthTerms(orders[1..], price);
      AtMembers(orders[1..], price);
      AtCons(orders, price);
      var rest := At(orders[1..], price);
      assert forall o :: o in rest ==> o.id != orders[0].id;
    }
  }

  lemma NoneAt(price: Price)
    ensures At([], price) == []
  {
  }

  lemma AtCons(orders: seq<Resting>, price: Price)
    requires orders != []
    ensures At(orders, price) == (if orders[0].price == price then [orders[0]] else []) + At(orders[1..], price)
  {
  }

  lemma {:induction false} AtMembers(orders: seq<Resting>, price: Price)
    ensures forall o :: o in At(orders, price) <==> o in orders && o.price == price
    decreases |orders|
  {
    if orders != [] {
      AtMembers(orders[1..], price);
      assert orders == [orders[0]] + orders[1..];
    }
  }

  /** What remains of a list of orders, by its first order. */
  lemma TotalTerms(orders: seq<Resting>)
    ensures Total([]) == 0
    ensures orders != [] ==> Total(orders) == orders[0].remaining + Total(orders[1..])
  {
  }
}
