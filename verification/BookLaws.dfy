/** Laws of the book over whole runs of submits and cancels. */
module BookLaws {
  import opened Types
  import opened BookSpec
  import opened MatchLaws

  predicate OrderOk(s: Side, o: Resting, nextSeq: nat) {
    o.side == s && 0 < o.remaining <= o.quantity && o.sequence < nextSeq
  }

  ghost predicate SideOk(s: Side, orders: seq<Resting>, nextSeq: nat) {
    && Sorted(s, orders)
    && (forall i :: 0 <= i < |orders| ==> OrderOk(s, orders[i], nextSeq))
    && (forall i, j :: 0 <= i < j < |orders| ==> orders[i].id != orders[j].id)
  }

  ghost predicate DistinctIds(xs: seq<Resting>, ys: seq<Resting>) {
    forall i, j :: 0 <= i < |xs| && 0 <= j < |ys| ==> xs[i].id != ys[j].id
  }

  ghost predicate Uncrossed(bids: seq<Resting>, asks: seq<Resting>) {
    forall i, j :: 0 <= i < |bids| && 0 <= j < |asks| ==> bids[i].price < asks[j].price
  }

  /** The invariant of every reachable book: both sides in strict price-time order, ids unique, every resting order
      live, and the book not crossed. */
  ghost predicate WellFormed(b: Book) {
    && SideOk(Buy, b.bids, b.nextSeq)
    && SideOk(Sell, b.asks, b.nextSeq)
    && DistinctIds(b.bids, b.asks)
    && Uncrossed(b.bids, b.asks)
  }

  function Empty(policy: SelfTradePolicy): Book {
    Book(policy, [], [], 1)
  }

  // ---- Insertion and removal -----------------------------------------------------------------------------------

  function InsertAt(s: Side, orders: seq<Resting>, o: Resting): nat {
    if orders == [] || Better(s, o.price, orders[0].price) then 0
    else 1 + InsertAt(s, orders[1..], o)
  }

  lemma {:induction false} InsertSplits(s: Side, orders: seq<Resting>, o: Resting)
    ensures var p := InsertAt(s, orders, o);
      && p <= |orders|
      && Insert(s, orders, o) == orders[..p] + [o] + orders[p..]
      && (forall i :: 0 <= i < p ==> !Better(s, o.price, orders[i].price))
      && (p < |orders| ==> Better(s, o.price, orders[p].price))
    decreases |orders|
  {
    hide Better;
    if orders != [] && !Better(s, o.price, orders[0].price) {
      InsertSplits(s, orders[1..], o);
      var p := InsertAt(s, orders[1..], o);
      SplitBehind(orders, p, o);
      assert forall i :: 0 < i < p + 1 ==> orders[i] == orders[1..][i - 1];
    }
  }

  lemma SplitBehind(orders: seq<Resting>, p: nat, o: Resting)
    requires orders != [] && p <= |orders| - 1
    ensures [orders[0]] + (orders[1..][..p] + [o] + orders[1..][p..]) == orders[..p + 1] + [o] + orders[p + 1..]
  {
  }

  lemma InsertKeepsSide(s: Side, orders: seq<Resting>, o: Resting, nextSeq: nat)
    requires SideOk(s, orders, nextSeq) && OrderOk(s, o, nextSeq + 1) && o.sequence == nextSeq
    requires !HasId(orders, o.id)
    ensures SideOk(s, Insert(s, orders, o), nextSeq + 1)
    ensures forall x :: x in Insert(s, orders, o) <==> x == o || x in orders
  {
    hide Insert, InsertAt;
    InsertSplits(s, orders, o);
    var p := InsertAt(s, orders, o);
    var r := Insert(s, orders, o);
    InsertIndexed(orders, p, o, r);
    forall i, j | 0 <= i < j < |r|
      ensures Precedes(s, r[i], r[j]) && r[i].id != r[j].id
    {
      if i == p && p < j - 1 {
        assert Precedes(s, orders[p], orders[j - 1]);
      }
    }
  }

  lemma InsertIndexed(orders: seq<Resting>, p: nat, o: Resting, r: seq<Resting>)
    requires p <= |orders| && r == orders[..p] + [o] + orders[p..]
    ensures |r| == |orders| + 1
    ensures forall i :: 0 <= i < |r| ==> r[i] == if i < p then orders[i] else if i == p then o else orders[i - 1]
    ensures forall x :: x in r <==> x == o || x in orders
  {
    assert orders == orders[..p] + orders[p..];
  }

  lemma {:induction false} RemoveAbsent(orders: seq<Resting>, id: OrderId)
    requires !HasId(orders, id)
    ensures RemoveId(orders, id) == orders
    decreases |orders|
  {
    hide HasId;
    HasIdTail(orders, id);
    if orders != [] {
      RemoveAbsent(orders[1..], id);
    }
  }

  lemma {:induction false} RemoveSplits(orders: seq<Resting>, id: OrderId) returns (i: nat)
    requires HasId(orders, id)
    ensures i < |orders| && orders[i].id == id
    ensures RemoveId(orders, id) == orders[..i] + orders[i + 1..]
    decreases |orders|
  {
    hide HasId;
    HasIdTail(orders, id);
    if orders[0].id == id {
      i := 0;
      assert orders[..0] + orders[1..] == orders[1..];
    } else {
      i := RemoveSplits(orders[1..], id);
      SplitCons(orders, i);
      i := i + 1;
    }
  }

  lemma SplitCons(orders: seq<Resting>, i: nat)
    requires i + 1 < |orders|
    ensures orders[1..][i] == orders[i + 1]
    ensures [orders[0]] + (orders[1..][..i] + orders[1..][i + 1..]) == orders[..i + 1] + orders[i + 2..]
  {
  }

  lemma HasIdTail(orders: seq<Resting>, id: OrderId)
    ensures HasId(orders, id) <==> orders != [] && (orders[0].id == id || HasId(orders[1..], id))
  {
    if HasId(orders, id) && orders[0].id != id {
      var j :| 0 <= j < |orders| && orders[j].id == id;
      assert orders[1..][j - 1].id == id;
    }
  }

  lemma WithoutKeepsSide(s: Side, orders: seq<Resting>, i: nat, nextSeq: nat)
    requires SideOk(s, orders, nextSeq) && i < |orders|
    ensures SideOk(s, orders[..i] + orders[i + 1..], nextSeq)
    ensures forall o :: o in orders[..i] + orders[i + 1..] <==> o in orders && o.id != orders[i].id
  {
    var r := orders[..i] + orders[i + 1..];
    assert forall x :: 0 <= x < |r| ==> r[x] == orders[if x < i then x else x + 1];
    forall o | o in orders && o.id != orders[i].id
      ensures o in r
    {
      var x :| 0 <= x < |orders| && orders[x] == o;
      assert r[if x < i then x else x - 1] == o;
    }
  }

  lemma RemoveKeepsSide(s: Side, orders: seq<Resting>, id: OrderId, nextSeq: nat)
    requires SideOk(s, orders, nextSeq)
    ensures SideOk(s, RemoveId(orders, id), nextSeq)
    ensures forall o :: o in RemoveId(orders, id) <==> o in orders && o.id != id
  {
    if HasId(orders, id) {
      var i := RemoveSplits(orders, id);
      WithoutKeepsSide(s, orders, i, nextSeq);
    } else {
      RemoveAbsent(orders, id);
    }
  }

  // ---- The invariant over runs ---------------------------------------------------------------------------------

  datatype Op = SubmitOp(taker: Taker, quantity: Quantity) | CancelOp(id: OrderId)

  function Step(b: Book, op: Op): Book {
    match op
    case SubmitOp(t, q) => Submit(b, t, q).book
    case CancelOp(id) => Cancel(b, id).0
  }

  function Run(b: Book, ops: seq<Op>): Book
    decreases |ops|
  {
    if ops == [] then b else Run(Step(b, ops[0]), ops[1..])
  }

  /** What is left of a side after a sweep is still a side, made of orders that were there, up to `remaining`. */
  lemma SweepKeepsSide(s: Side, orders: seq<Resting>, nextSeq: nat, policy: SelfTradePolicy, t: Taker,
                       m: MatchOut, k: nat, part: nat)
    requires SideOk(s, orders, nextSeq) && Sweeps(policy, t, orders, m, k, part)
    ensures SideOk(s, m.book, nextSeq)
    ensures |m.book| == |orders| - k
    ensures forall i :: 0 <= i < |m.book| ==> m.book[i].id == orders[k + i].id && m.book[i].price == orders[k + i].price
  {
    assert forall i :: 0 <= i < |m.book| ==> m.book[i] == orders[k + i].(remaining := m.book[i].remaining);
  }

  /** A side may be replaced by one whose orders were there before, up to `remaining`. */
  lemma SweptKeeps(b: Book, s: Side, swept: seq<Resting>, k: nat)
    requires WellFormed(b) && SideOk(s, swept, b.nextSeq)
    requires |swept| + k == |SideOf(b, s)|
    requires forall i :: 0 <= i < |swept| ==>
      swept[i].id == SideOf(b, s)[k + i].id && swept[i].price == SideOf(b, s)[k + i].price
    ensures WellFormed(WithSide(b, s, swept))
  {
  }

  lemma RestKeeps(b: Book, t: Taker, o: Resting)
    requires WellFormed(b) && !HasId(b.bids, t.id) && !HasId(b.asks, t.id)
    requires o.id == t.id && o.price == t.limit && o.sequence == b.nextSeq && OrderOk(t.side, o, b.nextSeq + 1)
    requires forall i :: 0 <= i < |SideOf(b, Opposite(t.side))| ==>
      !Crosses(t.side, t.limit, SideOf(b, Opposite(t.side))[i].price)
    ensures WellFormed(WithSide(b, t.side, Insert(t.side, SideOf(b, t.side), o)).(nextSeq := b.nextSeq + 1))
  {
    var near := SideOf(b, t.side);
    InsertKeepsSide(t.side, near, o, b.nextSeq);
    InsertedApart(t, near, SideOf(b, Opposite(t.side)), Insert(t.side, near, o), o);
  }

  lemma SubmitKeeps(b: Book, t: Taker, quantity: Quantity)
    requires WellFormed(b)
    ensures WellFormed(Submit(b, t, quantity).book)
  {
    hide Match, Insert, Sorted, DistinctIds, Uncrossed, HasId, Owned, Others, Prints;
    if quantity == 0 || Rests(b, t.id) {
      return;
    }
    var s := Opposite(t.side);
    var far := SideOf(b, s);
    var m := Match(b.policy, t, far, quantity);
    MatchShrinks(b.policy, t, far, quantity);
    var k, part := MatchSweeps(b.policy, t, far, quantity);
    SweepKeepsSide(s, far, b.nextSeq, b.policy, t, m, k, part);
    SweptKeeps(b, s, m.book, k);
    if m.remaining > 0 && !m.stopped {
      SweptIds(b.policy, t, far, quantity, t.id);
      var matched := WithSide(b, s, m.book);
      RemainderDoesNotCross(t, far, k);
      RestKeeps(matched, t, Resting(t.id, t.trader, t.side, t.limit, m.remaining, m.remaining, b.nextSeq));
    }
  }

  /** The outcome of a submit, from the book it meets alone: the amount filled is what is eligible, up to the quantity;
      the rest is dropped exactly when CancelAggressing blocks it, and rests otherwise. */
  lemma SubmitOutcome(b: Book, t: Taker, quantity: Quantity)
    requires WellFormed(b)
    ensures var out, far := Submit(b, t, quantity), SideOf(b, Opposite(t.side));
      var filled := Min(quantity, Total(Eligible(b.policy, t, far)));
      var blocked := b.policy == CancelAggressing && filled < quantity && MeetsOwn(t, far);
      if quantity == 0 || HasId(b.bids, t.id) || HasId(b.asks, t.id) then
        && out.result.status == Rejected && out.result.filled == out.result.resting == 0
        && out.trades == [] && out.book == b
      else
        && out.result.filled == filled
        && out.result.resting == (if blocked then 0 else quantity - filled)
        && out.result.status == (if blocked then CancelledBySelfTrade
                                 else if filled == quantity then FullyFilled
                                 else if filled > 0 then PartiallyFilled
                                 else Rested)
        && (HasId(SideOf(out.book, t.side), t.id) <==> out.result.resting > 0)
  {
    var far, near := SideOf(b, Opposite(t.side)), SideOf(b, t.side);
    if quantity > 0 && !Rests(b, t.id) {
      FillsExactly(b.policy, t, far, quantity);
      StopsExactly(b.policy, t, far, quantity);
      MatchShrinks(b.policy, t, far, quantity);
      var m := Match(b.policy, t, far, quantity);
      var o := Resting(t.id, t.trader, t.side, t.limit, m.remaining, m.remaining, b.nextSeq);
      InsertSplits(t.side, near, o);
      assert Insert(t.side, near, o)[InsertAt(t.side, near, o)] == o;
    }
  }

  /** The size an order shows at rest is the remainder it came to rest with. It is the submitted size exactly when the
      order met nothing it could trade with. */
  lemma SizeAtRest(b: Book, t: Taker, quantity: Quantity)
    requires WellFormed(b) && quantity > 0 && !Rests(b, t.id)
    ensures var out, far := Submit(b, t, quantity), SideOf(b, Opposite(t.side));
      out.result.resting > 0 ==>
        && (exists o :: o in SideOf(out.book, t.side) && o.id == t.id)
        && forall o :: o in SideOf(out.book, t.side) && o.id == t.id ==>
             && o.quantity == o.remaining == out.result.resting
             && (o.quantity == quantity <==> Total(Eligible(b.policy, t, far)) == 0)
  {
    var far, near := SideOf(b, Opposite(t.side)), SideOf(b, t.side);
    FillsExactly(b.policy, t, far, quantity);
    MatchShrinks(b.policy, t, far, quantity);
    var m := Match(b.policy, t, far, quantity);
    var o := Resting(t.id, t.trader, t.side, t.limit, m.remaining, m.remaining, b.nextSeq);
    InsertedMembers(t.side, near, o);
  }

  /** Matching and resting bring no id onto a side but the taker's. */
  lemma SweptIds(policy: SelfTradePolicy, t: Taker, far: seq<Resting>, quantity: Quantity, id: OrderId)
    requires !HasId(far, id)
    ensures !HasId(Match(policy, t, far, quantity).book, id)
  {
    hide Match;
    var k, part := MatchSweeps(policy, t, far, quantity);
    var swept := Match(policy, t, far, quantity).book;
    assert forall i :: 0 <= i < |swept| ==> swept[i].id == far[k + i].id;
  }

  lemma InsertedIds(s: Side, orders: seq<Resting>, o: Resting, id: OrderId)
    requires !HasId(orders, id) && o.id != id
    ensures !HasId(Insert(s, orders, o), id)
  {
    hide Insert;
    InsertedMembers(s, orders, o);
    var r := Insert(s, orders, o);
    forall i | 0 <= i < |r|
      ensures r[i].id != id
    {
      assert r[i] in r;
    }
  }

  lemma InsertedMembers(s: Side, orders: seq<Resting>, o: Resting)
    ensures forall x :: x in Insert(s, orders, o) <==> x == o || x in orders
  {
    InsertSplits(s, orders, o);
    InsertIndexed(orders, InsertAt(s, orders, o), o, Insert(s, orders, o));
  }

  /** A buy of 10 that trades 5 rests as an order of size 5. */
  lemma SizeAtRestIsNotOriginal(policy: SelfTradePolicy)
    ensures var b := Run(Empty(policy), [SubmitOp(Taker(1, 7, Sell, 100), 5), SubmitOp(Taker(2, 9, Buy, 100), 10)]);
      b.bids == [Resting(2, 9, Buy, 100, 5, 5, 2)]
  {
    var first, second := SubmitOp(Taker(1, 7, Sell, 100), 5), SubmitOp(Taker(2, 9, Buy, 100), 10);
    var ask := Resting(1, 7, Sell, 100, 5, 5, 1);
    var b := Step(Empty(policy), first);
    assert b == Book(policy, [], [ask], 2);
    assert [ask][1..] == [];
    assert Match(policy, second.taker, [ask], 10) == MatchOut([], [Print(second.taker, ask, 5)], [], 5, false);
    var ops := [first, second];
    assert ops[1..] == [second] && [second][1..] == [];
    assert Run(b, [second]) == Step(b, second);
  }

  /** The result counts the trades of the submit. */
  lemma SubmitCounts(b: Book, t: Taker, quantity: Quantity)
    ensures Submit(b, t, quantity).result.tradeCount == |Submit(b, t, quantity).trades|
  {
  }

  /** A remainder rests only once nothing on the far side crosses its limit. */
  lemma RemainderDoesNotCross(t: Taker, far: seq<Resting>, k: nat)
    requires Sorted(Opposite(t.side), far) && k <= |far|
    requires k == |far| || !Crosses(t.side, t.limit, far[k].price)
    ensures forall i :: k <= i < |far| ==> !Crosses(t.side, t.limit, far[i].price)
  {
    forall i | k < i < |far|
      ensures !Crosses(t.side, t.limit, far[i].price)
    {
      assert Precedes(Opposite(t.side), far[k], far[i]);
    }
  }

  lemma InsertedApart(t: Taker, near: seq<Resting>, far: seq<Resting>, near': seq<Resting>, o: Resting)
    requires forall x :: x in near' <==> x == o || x in near
    requires o.id == t.id && o.price == t.limit
    requires forall i :: 0 <= i < |far| ==> far[i].id != t.id && !Crosses(t.side, t.limit, far[i].price)
    requires if t.side == Buy then Uncrossed(near, far) && DistinctIds(near, far)
             else Uncrossed(far, near) && DistinctIds(far, near)
    ensures if t.side == Buy then Uncrossed(near', far) && DistinctIds(near', far)
            else Uncrossed(far, near') && DistinctIds(far, near')
  {
    forall i, j | 0 <= i < |near'| && 0 <= j < |far|
      ensures near'[i].id != far[j].id
      ensures if t.side == Buy then near'[i].price < far[j].price else far[j].price < near'[i].price
    {
      assert near'[i] == o || near'[i] in near;
    }
  }

  lemma CancelKeeps(b: Book, id: OrderId)
    requires WellFormed(b)
    ensures WellFormed(Cancel(b, id).0)
    ensures !Rests(Cancel(b, id).0, id)
  {
    RemoveKeepsSide(Buy, b.bids, id, b.nextSeq);
    RemoveKeepsSide(Sell, b.asks, id, b.nextSeq);
    var b' := Cancel(b, id).0;
    forall i, j | 0 <= i < |b'.bids| && 0 <= j < |b'.asks|
      ensures b'.bids[i].id != b'.asks[j].id && b'.bids[i].price < b'.asks[j].price
    {
      assert b'.bids[i] in b.bids && b'.asks[j] in b.asks;
    }
  }

  /** Every book any run can reach is well formed; in particular it is never crossed. */
  lemma {:induction false} RunKeeps(b: Book, ops: seq<Op>)
    requires WellFormed(b)
    ensures WellFormed(Run(b, ops))
    decreases |ops|
  {
    if ops != [] {
      match ops[0] {
        case SubmitOp(t, q) => SubmitKeeps(b, t, q);
        case CancelOp(id) => CancelKeeps(b, id);
      }
      RunKeeps(Step(b, ops[0]), ops[1..]);
    }
  }

  lemma NeverCrossed(policy: SelfTradePolicy, ops: seq<Op>)
    ensures var b := Run(Empty(policy), ops);
      b.bids != [] && b.asks != [] ==> BestPrice(b.bids).value < BestPrice(b.asks).value
  {
    RunKeeps(Empty(policy), ops);
  }
}
