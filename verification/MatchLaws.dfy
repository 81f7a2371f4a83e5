/** What one matching pass does: its shape, price-time priority, the exact amount it fills and conservation. */
module MatchLaws {
  import opened Types
  import opened BookSpec

  /** On side `s`, order `a` trades before order `b`. */
  predicate Precedes(s: Side, a: Resting, b: Resting) {
    || (if s == Buy then a.price > b.price else a.price < b.price)
    || (a.price == b.price && a.sequence < b.sequence)
  }

  ghost predicate Sorted(s: Side, orders: seq<Resting>) {
    forall i, j :: 0 <= i < j < |orders| ==> Precedes(s, orders[i], orders[j])
  }

  /** The orders self-trade prevention applies to, and the others, in order. */
  function Owned(policy: SelfTradePolicy, t: Taker, orders: seq<Resting>): seq<Resting> {
    if orders == [] then []
    else (if Own(policy, t, orders[0]) then [orders[0]] else []) + Owned(policy, t, orders[1..])
  }

  function Others(policy: SelfTradePolicy, t: Taker, orders: seq<Resting>): seq<Resting> {
    if orders == [] then []
    else (if Own(policy, t, orders[0]) then [] else [orders[0]]) + Others(policy, t, orders[1..])
  }

  /** The reports of makers that are all consumed in full. */
  function Prints(t: Taker, makers: seq<Resting>): seq<Trade> {
    seq(|makers|, i requires 0 <= i < |makers| => Print(t, makers[i], makers[i].remaining))
  }

  /** `m` is a sweep that consumes exactly the first `k` orders of `book` and, when `part` is positive, takes `part`
      units off the order behind them, which keeps its place. */
  ghost predicate Sweeps(policy: SelfTradePolicy, t: Taker, book: seq<Resting>, m: MatchOut, k: nat, part: nat)
  {
    && k <= |book|
    && (forall i :: 0 <= i < k ==> Crosses(t.side, t.limit, book[i].price))
    && m.removed == Owned(policy, t, book[..k])
    && (policy != CancelResting ==> m.removed == [])
    && (if part == 0 then
          && m.book == book[k..]
          && m.trades == Prints(t, Others(policy, t, book[..k]))
        else
          && k < |book|
          && part < book[k].remaining
          && Crosses(t.side, t.limit, book[k].price)
          && !Own(policy, t, book[k])
          && m.remaining == 0
          && m.book == [book[k].(remaining := book[k].remaining - part)] + book[k + 1..]
          && m.trades == Prints(t, Others(policy, t, book[..k])) + [Print(t, book[k], part)])
    && (m.stopped <==> m.remaining > 0 && policy == CancelAggressing && k < |book|
                       && Crosses(t.side, t.limit, book[k].price) && Own(policy, t, book[k]))
    && (m.remaining == 0 || m.stopped || k == |book| || !Crosses(t.side, t.limit, book[k].price))
  }

  /** The orders of a prefix, split at the first. */
  lemma FilterCons(policy: SelfTradePolicy, t: Taker, book: seq<Resting>, k: nat)
    requires book != [] && k <= |book| - 1
    ensures var own, rest := Own(policy, t, book[0]), book[1..][..k];
      && Owned(policy, t, book[..k + 1]) == (if own then [book[0]] + Owned(policy, t, rest) else Owned(policy, t, rest))
      && Others(policy, t, book[..k + 1])
           == (if own then Others(policy, t, rest) else [book[0]] + Others(policy, t, rest))
  {
    PrefixCons(book, k);
  }

  lemma CrossingCons(t: Taker, book: seq<Resting>, k: nat)
    requires book != [] && k <= |book| - 1 && Crosses(t.side, t.limit, book[0].price)
    requires forall i :: 0 <= i < k ==> Crosses(t.side, t.limit, book[1..][i].price)
    ensures forall i :: 0 <= i < k + 1 ==> Crosses(t.side, t.limit, book[i].price)
  {
    hide Crosses;
    assert forall i :: 0 < i < k + 1 ==> book[i] == book[1..][i - 1];
  }

  /** A sweep of the rest of the book, behind a first order that self-trade prevention removes. */
  lemma SweepsRemoving(policy: SelfTradePolicy, t: Taker, book: seq<Resting>, m: MatchOut, k: nat, part: nat)
    requires book != [] && Crosses(t.side, t.limit, book[0].price)
    requires policy == CancelResting && Own(policy, t, book[0])
    requires Sweeps(policy, t, book[1..], m, k, part)
    ensures Sweeps(policy, t, book, m.(removed := [book[0]] + m.removed), k + 1, part)
  {
    hide Crosses, Own, Owned, Others, Prints, Print;
    PrefixCons(book, k);
    FilterCons(policy, t, book, k);
    CrossingCons(t, book, k);
  }

  /** A sweep of the rest of the book, behind a first order that is consumed. */
  lemma SweepsConsuming(policy: SelfTradePolicy, t: Taker, book: seq<Resting>, m: MatchOut, k: nat, part: nat)
    requires book != [] && Crosses(t.side, t.limit, book[0].price)
    requires !Own(policy, t, book[0])
    requires Sweeps(policy, t, book[1..], m, k, part)
    ensures Sweeps(policy, t, book, m.(trades := [Print(t, book[0], book[0].remaining)] + m.trades), k + 1, part)
  {
    hide Crosses, Own, Owned, Others, Prints, Print;
    PrefixCons(book, k);
    FilterCons(policy, t, book, k);
    CrossingCons(t, book, k);
    var first, rest := Print(t, book[0], book[0].remaining), Prints(t, Others(policy, t, book[1..][..k]));
    PrintsCons(t, book[0], Others(policy, t, book[1..][..k]));
    if part > 0 {
      var last := [Print(t, book[k + 1], part)];
      assert [first] + (rest + last) == ([first] + rest) + last;
    }
  }

  lemma PrefixCons(book: seq<Resting>, k: nat)
    requires book != [] && k <= |book| - 1
    ensures book[..k + 1] == [book[0]] + book[1..][..k]
    ensures book[..k + 1][1..] == book[1..][..k]
    ensures book[1..][k..] == book[k + 1..]
    ensures forall i :: 0 <= i < k ==> book[i + 1] == book[1..][i]
    ensures k + 1 < |book| ==> book[1..][k] == book[k + 1] && book[1..][k + 1..] == book[k + 2..]
  {
  }

  /** Passes that consume nothing, and passes that end inside the first order. */
  lemma SweepsNothing(policy: SelfTradePolicy, t: Taker, book: seq<Resting>, quantity: Quantity, stopped: bool)
    requires stopped <==> quantity > 0 && policy == CancelAggressing && book != []
                          && Crosses(t.side, t.limit, book[0].price) && Own(policy, t, book[0])
    requires quantity == 0 || stopped || book == [] || !Crosses(t.side, t.limit, book[0].price)
    ensures Sweeps(policy, t, book, MatchOut(book, [], [], quantity, stopped), 0, 0)
  {
    assert book[0..] == book;
    assert Prints(t, []) == [];
  }

  lemma SweepsPart(policy: SelfTradePolicy, t: Taker, book: seq<Resting>, part: Quantity)
    requires book != [] && Crosses(t.side, t.limit, book[0].price) && !Own(policy, t, book[0])
    requires 0 < part < book[0].remaining
    ensures var rest := [book[0].(remaining := book[0].remaining - part)] + book[1..];
      Sweeps(policy, t, book, MatchOut(rest, [Print(t, book[0], part)], [], 0, false), 0, part)
  {
    assert Prints(t, []) == [];
  }

  /** Matching is such a sweep, for every policy, taker, book and quantity. */
  lemma {:induction false} MatchSweeps(policy: SelfTradePolicy, t: Taker, book: seq<Resting>, quantity: Quantity)
    returns (k: nat, part: nat)
    ensures Sweeps(policy, t, book, Match(policy, t, book, quantity), k, part)
    ensures k <= |book| && (part > 0 ==> k < |book|)
    decreases |book|
  {
    hide Crosses, Owned, Others, Print, Sweeps;
    k, part := 0, 0;
    if quantity == 0 || book == [] || !Crosses(t.side, t.limit, book[0].price) {
      SweepsNothing(policy, t, book, quantity, false);
    } else if Own(policy, t, book[0]) {
      if policy == CancelResting {
        k, part := MatchSweeps(policy, t, book[1..], quantity);
        SweepsRemoving(policy, t, book, Match(policy, t, book[1..], quantity), k, part);
        k := k + 1;
      } else {
        SweepsNothing(policy, t, book, quantity, true);
      }
    } else if quantity < book[0].remaining {
      part := quantity;
      SweepsPart(policy, t, book, quantity);
    } else {
      k, part := MatchSweeps(policy, t, book[1..], quantity - book[0].remaining);
      SweepsConsuming(policy, t, book, Match(policy, t, book[1..], quantity - book[0].remaining), k, part);
      k := k + 1;
    }
  }

  lemma PrintsCons(t: Taker, first: Resting, rest: seq<Resting>)
    ensures Prints(t, [first] + rest) == [Print(t, first, first.remaining)] + Prints(t, rest)
  {
  }

  lemma {:induction false} OthersSorted(s: Side, policy: SelfTradePolicy, t: Taker, orders: seq<Resting>)
    requires Sorted(s, orders)
    ensures Sorted(s, Others(policy, t, orders))
    ensures forall o :: o in Others(policy, t, orders) <==> o in orders && !Own(policy, t, o)
    decreases |orders|
  {
    if orders != [] {
      OthersSorted(s, policy, t, orders[1..]);
      var rest := Others(policy, t, orders[1..]);
      forall i | 0 <= i < |rest|
        ensures Precedes(s, orders[0], rest[i])
      {
        assert rest[i] in orders[1..];
      }
    }
  }

  /** The makers of a sweep, one per trade and in trade order. */
  function MakersOf(policy: SelfTradePolicy, t: Taker, book: seq<Resting>, k: nat, part: nat): seq<Resting>
    requires k <= |book| && (part > 0 ==> k < |book|)
  {
    Others(policy, t, book[..if part == 0 then k else k + 1])
  }

  lemma {:induction false} OthersSnoc(policy: SelfTradePolicy, t: Taker, orders: seq<Resting>, o: Resting)
    ensures Others(policy, t, orders + [o]) == Others(policy, t, orders) + (if Own(policy, t, o) then [] else [o])
    decreases |orders|
  {
    hide Own;
    if orders == [] {
      assert Others(policy, t, [o][1..]) == [];
    } else {
      var first := if Own(policy, t, orders[0]) then [] else [orders[0]];
      var last := if Own(policy, t, o) then [] else [o];
      OthersSnoc(policy, t, orders[1..], o);
      ConcatTail(orders, [o]);
      Regroup(first, Others(policy, t, orders[1..]), last);
    }
  }

  lemma MakersOfSweep(policy: SelfTradePolicy, t: Taker, book: seq<Resting>, m: MatchOut, k: nat, part: nat)
    requires Sweeps(policy, t, book, m, k, part)
    ensures var full := Others(policy, t, book[..k]);
      && MakersOf(policy, t, book, k, part) == full + (if part == 0 then [] else [book[k]])
      && m.trades == Prints(t, full) + (if part == 0 then [] else [Print(t, book[k], part)])
  {
    if part > 0 {
      assert book[..k + 1] == book[..k] + [book[k]];
      OthersSnoc(policy, t, book[..k], book[k]);
    }
  }

  /** `makers` are the makers of `trades`, consumed in full except perhaps the last. */
  ghost predicate Fills(t: Taker, trades: seq<Trade>, makers: seq<Resting>) {
    && |makers| == |trades|
    && forall i :: 0 <= i < |makers| ==>
         && trades[i] == Trade(makers[i].price, trades[i].quantity, t.id, makers[i].id, t.trader, makers[i].trader,
                               t.side)
         && (if t.side == Buy then makers[i].price <= t.limit else makers[i].price >= t.limit)
         && trades[i].quantity <= makers[i].remaining
         && (i < |makers| - 1 ==> trades[i].quantity == makers[i].remaining)
  }

  /** Strict price-time priority. The makers of a pass, one per trade and in trade order, are strictly sorted by
      (price, sequence); each prints at its own resting price, inside the limit; all but the last are consumed in full
      and leave the book; and no order of another trader that precedes a maker is passed over. */
  lemma PriceTimePriority(policy: SelfTradePolicy, t: Taker, book: seq<Resting>, quantity: Quantity)
    returns (makers: seq<Resting>)
    requires Sorted(Opposite(t.side), book)
    ensures Fills(t, Match(policy, t, book, quantity).trades, makers)
    ensures Sorted(Opposite(t.side), makers)
    ensures forall o :: o in makers ==> o in book && !Own(policy, t, o)
    ensures forall i :: 0 <= i < |makers| - 1 ==> makers[i] !in Match(policy, t, book, quantity).book
    ensures forall i, o ::
              0 <= i < |makers| && o in book && !Own(policy, t, o) && Precedes(Opposite(t.side), o, makers[i]) ==>
                o in makers
  {
    hide Precedes, Others, Prints, Print, Sweeps, Match, Fills;
    var s := Opposite(t.side);
    var m := Match(policy, t, book, quantity);
    var k, part := MatchSweeps(policy, t, book, quantity);
    var reached := if part == 0 then k else k + 1;
    makers := MakersOf(policy, t, book, k, part);
    MakersOfSweep(policy, t, book, m, k, part);
    OthersSorted(s, policy, t, book[..reached]);
    SweepFills(policy, t, book, m, k, part);
    forall i | 0 <= i < |makers| - 1
      ensures makers[i] !in m.book
    {
      OthersSorted(s, policy, t, book[..k]);
      assert makers[i] in book[..k];
      var j :| 0 <= j < k && book[j] == makers[i];
      ConsumedLeaves(s, book, m, k, part, policy, t, j);
    }
    forall i, o | 0 <= i < |makers| && o in book && !Own(policy, t, o) && Precedes(s, o, makers[i])
      ensures o in makers
    {
      AheadIsReached(s, book, reached, makers[i], o);
    }
  }

  lemma AheadIsReached(s: Side, book: seq<Resting>, reached: nat, maker: Resting, o: Resting)
    requires Sorted(s, book) && reached <= |book|
    requires maker in book[..reached] && o in book && Precedes(s, o, maker)
    ensures o in book[..reached]
  {
    var i :| 0 <= i < reached && book[i] == maker;
    var j :| 0 <= j < |book| && book[j] == o;
    assert o == book[..reached][j];
  }

  lemma SweepFills(policy: SelfTradePolicy, t: Taker, book: seq<Resting>, m: MatchOut, k: nat, part: nat)
    requires Sorted(Opposite(t.side), book) && Sweeps(policy, t, book, m, k, part)
    ensures Fills(t, m.trades, MakersOf(policy, t, book, k, part))
  {
    MakersOfSweep(policy, t, book, m, k, part);
    var full := Others(policy, t, book[..k]);
    OthersSorted(Opposite(t.side), policy, t, book[..k]);
    forall i | 0 <= i < |full|
      ensures Crosses(t.side, t.limit, full[i].price)
    {
      assert full[i] in book[..k];
    }
  }

  lemma ConsumedLeaves(s: Side, book: seq<Resting>, m: MatchOut, k: nat, part: nat,
                       policy: SelfTradePolicy, t: Taker, j: nat)
    requires Sorted(s, book) && Sweeps(policy, t, book, m, k, part) && j < k
    ensures book[j] !in m.book
  {
    forall i | 0 <= i < |m.book|
      ensures m.book[i] != book[j]
    {
      assert Precedes(s, book[j], book[k + i]);
      assert m.book[i].price == book[k + i].price && m.book[i].sequence == book[k + i].sequence;
    }
  }

  // ---- The exact amount a taker fills --------------------------------------------------------------------------

  function CrossingOf(t: Taker, orders: seq<Resting>): seq<Resting> {
    if orders == [] then []
    else
      (if (if t.side == Buy then orders[0].price <= t.limit else orders[0].price >= t.limit) then [orders[0]] else [])
      + CrossingOf(t, orders[1..])
  }

  function OfOthers(trader: TraderId, orders: seq<Resting>): seq<Resting> {
    if orders == [] then []
    else (if orders[0].trader == trader then [] else [orders[0]]) + OfOthers(trader, orders[1..])
  }

  function BeforeOwn(trader: TraderId, orders: seq<Resting>): seq<Resting> {
    if orders == [] || orders[0].trader == trader then []
    else [orders[0]] + BeforeOwn(trader, orders[1..])
  }

  /** What a taker can trade against: every crossing order, those of other traders, or those ahead of its own first. */
  function Eligible(policy: SelfTradePolicy, t: Taker, book: seq<Resting>): seq<Resting> {
    match policy
    case AllowSelfTrade => CrossingOf(t, book)
    case CancelResting => OfOthers(t.trader, CrossingOf(t, book))
    case CancelAggressing => BeforeOwn(t.trader, CrossingOf(t, book))
  }

  lemma {:induction false} NoneCross(t: Taker, book: seq<Resting>)
    requires Sorted(Opposite(t.side), book)
    requires book != [] && !Crosses(t.side, t.limit, book[0].price)
    ensures CrossingOf(t, book) == []
    decreases |book|
  {
    if |book| > 1 {
      assert Precedes(Opposite(t.side), book[0], book[1]);
      NoneCross(t, book[1..]);
    }
  }

  lemma EligibleCons(policy: SelfTradePolicy, t: Taker, book: seq<Resting>)
    requires book != [] && Crosses(t.side, t.limit, book[0].price)
    ensures Own(policy, t, book[0]) && policy == CancelAggressing ==> Eligible(policy, t, book) == []
    ensures Own(policy, t, book[0]) && policy == CancelResting ==>
              Eligible(policy, t, book) == Eligible(policy, t, book[1..])
    ensures !Own(policy, t, book[0]) ==>
              Eligible(policy, t, book) == [book[0]] + Eligible(policy, t, book[1..])
  {
    var rest := CrossingOf(t, book[1..]);
    assert CrossingOf(t, book) == [book[0]] + rest;
    assert ([book[0]] + rest)[1..] == rest;
  }

  lemma EligibleNone(policy: SelfTradePolicy, t: Taker, book: seq<Resting>)
    requires Sorted(Opposite(t.side), book)
    requires book == [] || !Crosses(t.side, t.limit, book[0].price)
    ensures Eligible(policy, t, book) == []
  {
    if book != [] {
      NoneCross(t, book);
    }
  }

  lemma TotalCons(o: Resting, orders: seq<Resting>)
    ensures Total([o] + orders) == o.remaining + Total(orders)
  {
    assert ([o] + orders)[1..] == orders;
  }

  /** The amount filled is the smaller of the taker's quantity and the eligible quantity. */
  lemma {:induction false} FillsExactly(policy: SelfTradePolicy, t: Taker, book: seq<Resting>, quantity: Quantity)
    requires Sorted(Opposite(t.side), book)
    ensures quantity - Match(policy, t, book, quantity).remaining == Min(quantity, Total(Eligible(policy, t, book)))
    decreases |book|
  {
    hide Eligible;
    if book == [] || !Crosses(t.side, t.limit, book[0].price) {
      EligibleNone(policy, t, book);
    } else if quantity > 0 {
      EligibleCons(policy, t, book);
      if Own(policy, t, book[0]) {
        if policy == CancelResting {
          FillsExactly(policy, t, book[1..], quantity);
        }
      } else {
        TotalCons(book[0], Eligible(policy, t, book[1..]));
        if book[0].remaining <= quantity {
          FillsExactly(policy, t, book[1..], quantity - book[0].remaining);
        }
      }
    }
  }

  lemma {:induction false} ReachedWhen(t: Taker, book: seq<Resting>, quantity: Quantity, i: nat)
    requires Sorted(Opposite(t.side), book)
    requires i < |book| && Crosses(t.side, t.limit, book[i].price) && book[i].trader == t.trader
    ensures i < |book| - |Match(CancelResting, t, book, quantity).book|
        <==> Total(Eligible(CancelResting, t, book[..i])) < quantity
    decreases |book|
  {
    hide Eligible, Sorted, Crosses;
    FirstCrosses(t, book, i);
    if quantity > 0 && i == 0 {
      MatchRemoves(CancelResting, t, book[1..], quantity);
      EligibleOfNone(CancelResting, t);
      assert book[..0] == [];
    } else if quantity > 0 {
      EligibleCons(CancelResting, t, book[..i]);
      assert book[..i][1..] == book[1..][..i - 1] && book[..i][0] == book[0];
      assert book[1..][i - 1] == book[i];
      if Own(CancelResting, t, book[0]) {
        ReachedWhen(t, book[1..], quantity, i - 1);
      } else {
        TotalCons(book[0], Eligible(CancelResting, t, book[1..][..i - 1]));
        if book[0].remaining <= quantity {
          ReachedWhen(t, book[1..], quantity - book[0].remaining, i - 1);
        }
      }
    }
  }

  /** An order that crosses has only crossing orders ahead of it. */
  lemma FirstCrosses(t: Taker, book: seq<Resting>, i: nat)
    requires Sorted(Opposite(t.side), book) && i < |book| && Crosses(t.side, t.limit, book[i].price)
    ensures Crosses(t.side, t.limit, book[0].price) && Sorted(Opposite(t.side), book[1..])
  {
    assert i > 0 ==> Precedes(Opposite(t.side), book[0], book[i]);
  }

  lemma MatchRemoves(policy: SelfTradePolicy, t: Taker, book: seq<Resting>, quantity: Quantity)
    ensures |Match(policy, t, book, quantity).book| <= |book|
  {
    hide Match;
    var k, part := MatchSweeps(policy, t, book, quantity);
  }

  lemma EligibleOfNone(policy: SelfTradePolicy, t: Taker)
    ensures Total(Eligible(policy, t, [])) == 0
  {
  }

  lemma {:induction false} OwnedOf(policy: SelfTradePolicy, t: Taker, orders: seq<Resting>)
    ensures forall o :: o in Owned(policy, t, orders) <==> o in orders && Own(policy, t, o)
    decreases |orders|
  {
    if orders != [] {
      OwnedOf(policy, t, orders[1..]);
      assert orders == [orders[0]] + orders[1..];
    }
  }

  /** Under CancelResting an own crossing order is removed exactly when the eligible quantity ahead of it does not
      already exhaust the taker. */
  lemma RemovedExactlyWhenReached(t: Taker, book: seq<Resting>, quantity: Quantity, i: nat)
    requires Sorted(Opposite(t.side), book)
    requires i < |book| && book[i].trader == t.trader
    requires if t.side == Buy then book[i].price <= t.limit else book[i].price >= t.limit
    ensures book[i] in Match(CancelResting, t, book, quantity).removed
        <==> Total(Eligible(CancelResting, t, book[..i])) < quantity
  {
    ReachedWhen(t, book, quantity, i);
    var k, part := MatchSweeps(CancelResting, t, book, quantity);
    OwnedOf(CancelResting, t, book[..k]);
    assert i < k ==> book[..k][i] == book[i];
    if book[i] in book[..k] {
      var j :| 0 <= j < k && book[j] == book[i];
      assert j == i;
    }
  }

  /** A crossing order of the taker's own trader rests on the book. */
  ghost predicate MeetsOwn(t: Taker, book: seq<Resting>) {
    exists i :: 0 <= i < |book| && book[i].trader == t.trader
                && (if t.side == Buy then book[i].price <= t.limit else book[i].price >= t.limit)
  }

  lemma MeetsOwnTail(t: Taker, book: seq<Resting>)
    requires Sorted(Opposite(t.side), book) && book != []
    ensures !Crosses(t.side, t.limit, book[0].price) ==> !MeetsOwn(t, book)
    ensures book[0].trader != t.trader ==> (MeetsOwn(t, book) <==> MeetsOwn(t, book[1..]))
  {
    forall i | 0 <= i < |book|
      ensures Crosses(t.side, t.limit, book[i].price) ==> Crosses(t.side, t.limit, book[0].price)
    {
      assert i > 0 ==> Precedes(Opposite(t.side), book[0], book[i]);
    }
    if MeetsOwn(t, book) && book[0].trader != t.trader {
      var i :| 0 <= i < |book| && Crosses(t.side, t.limit, book[i].price) && book[i].trader == t.trader;
      assert book[1..][i - 1] == book[i];
    }
  }

  /** Self-trade prevention stops a taker exactly under CancelAggressing, when an own order crosses and what is eligible
      ahead of it does not fill the taker. */
  lemma {:induction false} StopsExactly(policy: SelfTradePolicy, t: Taker, book: seq<Resting>, quantity: Quantity)
    requires Sorted(Opposite(t.side), book)
    ensures Match(policy, t, book, quantity).stopped
       <==> policy == CancelAggressing && quantity > Total(Eligible(policy, t, book)) && MeetsOwn(t, book)
    decreases |book|
  {
    hide Eligible, MeetsOwn;
    if book == [] || !Crosses(t.side, t.limit, book[0].price) {
      NoneMet(t, book);
    } else {
      MeetsOwnTail(t, book);
      EligibleCons(policy, t, book);
      if quantity == 0 {
      } else if Own(policy, t, book[0]) {
        OwnMet(t, book);
        if policy == CancelResting {
          StopsExactly(policy, t, book[1..], quantity);
        }
      } else {
        TotalCons(book[0], Eligible(policy, t, book[1..]));
        if book[0].remaining <= quantity {
          StopsExactly(policy, t, book[1..], quantity - book[0].remaining);
        }
      }
    }
  }

  lemma NoneMet(t: Taker, book: seq<Resting>)
    requires Sorted(Opposite(t.side), book)
    requires book == [] || !Crosses(t.side, t.limit, book[0].price)
    ensures !MeetsOwn(t, book)
  {
    if book != [] {
      MeetsOwnTail(t, book);
    }
  }

  lemma OwnMet(t: Taker, book: seq<Resting>)
    requires book != [] && Crosses(t.side, t.limit, book[0].price) && book[0].trader == t.trader
    ensures MeetsOwn(t, book)
  {
  }

  // ---- Conservation within one pass ----------------------------------------------------------------------------

  /** Quantity resting under the given ids. */
  ghost function TotalIn(orders: seq<Resting>, ids: iset<OrderId>): nat {
    if orders == [] then 0
    else (if orders[0].id in ids then orders[0].remaining else 0) + TotalIn(orders[1..], ids)
  }

  ghost function TradeIn(trade: Trade, ids: iset<OrderId>): nat {
    (if trade.takerId in ids then trade.quantity else 0) + (if trade.makerId in ids then trade.quantity else 0)
  }

  /** Quantity traded under the given ids, counting each side of a trade. */
  ghost function TradedIn(trades: seq<Trade>, ids: iset<OrderId>): nat {
    if trades == [] then 0 else TradeIn(trades[0], ids) + TradedIn(trades[1..], ids)
  }

  /** For any set of ids: what was resting, plus what the taker lost, is what was traded, removed or still rests. */
  lemma {:induction false} MatchConserves(policy: SelfTradePolicy, t: Taker, book: seq<Resting>, quantity: Quantity,
                                          ids: iset<OrderId>)
    ensures var m := Match(policy, t, book, quantity);
      TotalIn(book, ids) + (if t.id in ids then quantity - m.remaining else 0)
        == TradedIn(m.trades, ids) + TotalIn(m.removed, ids) + TotalIn(m.book, ids)
    decreases |book|
  {
    hide TotalIn, TradedIn, TradeIn, Crosses, Own, Match;
    EmptyIn(ids);
    MatchCases(policy, t, book, quantity);
    if quantity > 0 && book != [] && Crosses(t.side, t.limit, book[0].price) {
      var first, tail := book[0], book[1..];
      assert book == [first] + tail;
      TotalInCons(first, tail, ids);
      if Own(policy, t, first) {
        if policy == CancelResting {
          MatchConserves(policy, t, tail, quantity, ids);
          TotalInCons(first, Match(policy, t, tail, quantity).removed, ids);
        }
      } else {
        var traded := Min(quantity, first.remaining);
        if traded < first.remaining {
          TotalInCons(first.(remaining := first.remaining - traded), tail, ids);
          TradedInCons(Print(t, first, traded), [], ids);
        } else {
          MatchConserves(policy, t, tail, quantity - traded, ids);
          TradedInCons(Print(t, first, traded), Match(policy, t, tail, quantity - traded).trades, ids);
        }
      }
    }
  }

  /** The fold, case by case. */
  lemma MatchCases(policy: SelfTradePolicy, t: Taker, book: seq<Resting>, quantity: Quantity)
    ensures var m := Match(policy, t, book, quantity);
      if quantity == 0 || book == [] || !Crosses(t.side, t.limit, book[0].price) then
        m == MatchOut(book, [], [], quantity, false)
      else if Own(policy, t, book[0]) && policy == CancelResting then
        var rest := Match(policy, t, book[1..], quantity);
        m == rest.(removed := [book[0]] + rest.removed)
      else if Own(policy, t, book[0]) then
        m == MatchOut(book, [], [], quantity, true)
      else
        var traded := Min(quantity, book[0].remaining);
        if traded < book[0].remaining then
          m == MatchOut([book[0].(remaining := book[0].remaining - traded)] + book[1..],
                        [Print(t, book[0], traded)] + [], [], 0, false)
        else
          var rest := Match(policy, t, book[1..], quantity - traded);
          m == rest.(trades := [Print(t, book[0], traded)] + rest.trades)
  {
  }

  lemma EmptyIn(ids: iset<OrderId>)
    ensures TotalIn([], ids) == 0 && TradedIn([], ids) == 0
  {
  }

  lemma TotalInCons(o: Resting, orders: seq<Resting>, ids: iset<OrderId>)
    ensures TotalIn([o] + orders, ids) == (if o.id in ids then o.remaining else 0) + TotalIn(orders, ids)
  {
    assert ([o] + orders)[1..] == orders;
  }

  lemma TradedInCons(trade: Trade, trades: seq<Trade>, ids: iset<OrderId>)
    ensures TradedIn([trade] + trades, ids)
         == (if trade.takerId in ids then trade.quantity else 0) + (if trade.makerId in ids then trade.quantity else 0)
            + TradedIn(trades, ids)
  {
    assert ([trade] + trades)[1..] == trades;
  }
}
