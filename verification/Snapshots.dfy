/** How much of a book its snapshot determines. A snapshot shows neither the traders nor the next sequence number, and
    under self-trade prevention both matter for what the book does next. */
module Snapshots {
  import opened Types
  import opened BookSpec
  import MatchLaws
  import opened BookLaws

  /** What an observer sees of one operation. */
  datatype Seen =
    | Submitted(result: SubmitResult, trades: seq<Trade>, snapshot: seq<OrderSnapshot>)
    | Cancelled(present: bool, snapshot: seq<OrderSnapshot>)

  function See(b: Book, op: Op): Seen {
    match op
    case SubmitOp(t, q) =>
      var out := Submit(b, t, q);
      Submitted(out.result, out.trades, Snapshot(out.book))
    case CancelOp(id) => Cancelled(Cancel(b, id).1, Snapshot(Cancel(b, id).0))
  }

  function Watch(b: Book, ops: seq<Op>): (seen: seq<Seen>)
    ensures |seen| == |ops|
    decreases |ops|
  {
    if ops == [] then [] else [See(b, ops[0])] + Watch(Step(b, ops[0]), ops[1..])
  }

  /** What is seen of a run: of a submit its result, its trades and the book after it, of a cancel whether the order was
      there and the book after it, each time on the book that the operations before it left. */
  lemma {:induction false} WatchTerms(b: Book, ops: seq<Op>, i: nat)
    requires i < |ops|
    ensures var before := Run(b, ops[..i]);
      match ops[i]
      case SubmitOp(t, q) =>
        var out := Submit(before, t, q);
        Watch(b, ops)[i] == Submitted(out.result, out.trades, Snapshot(out.book))
      case CancelOp(id) =>
        var (left, present) := Cancel(before, id);
        Watch(b, ops)[i] == Cancelled(present, Snapshot(left))
    decreases |ops|
  {
    hide Submit, Cancel, Snapshot, Step;
    if i > 0 {
      WatchTerms(Step(b, ops[0]), ops[1..], i - 1);
      assert ops[..i][1..] == ops[1..][..i - 1] && ops[..i][0] == ops[0] && ops[1..][i - 1] == ops[i];
    } else {
      assert ops[..0] == [];
    }
  }

  /** No sequence of operations tells the two books apart. */
  ghost predicate SameFuture(a: Book, b: Book) {
    forall ops :: Watch(a, ops) == Watch(b, ops)
  }

  function Traders(orders: seq<Resting>): seq<TraderId> {
    seq(|orders|, i requires 0 <= i < |orders| => orders[i].trader)
  }

  // ---- Equal up to the quantity at rest ------------------------------------------------------------------------

  predicate AlikeOrder(x: Resting, y: Resting) {
    x.(quantity := 0) == y.(quantity := 0)
  }

  predicate AlikeSide(xs: seq<Resting>, ys: seq<Resting>) {
    |xs| == |ys| && forall i :: 0 <= i < |xs| ==> AlikeOrder(xs[i], ys[i])
  }

  predicate Alike(a: Book, b: Book) {
    a.policy == b.policy && a.nextSeq == b.nextSeq && AlikeSide(a.bids, b.bids) && AlikeSide(a.asks, b.asks)
  }

  lemma {:induction false} MatchAlike(policy: SelfTradePolicy, t: Taker, xs: seq<Resting>, ys: seq<Resting>,
                                      q: Quantity)
    requires AlikeSide(xs, ys)
    ensures var m, n := Match(policy, t, xs, q), Match(policy, t, ys, q);
      && AlikeSide(m.book, n.book) && m.trades == n.trades
      && m.remaining == n.remaining && m.stopped == n.stopped
    decreases |xs|
  {
    hide Match;
    MatchLaws.MatchCases(policy, t, xs, q);
    MatchLaws.MatchCases(policy, t, ys, q);
    if q == 0 || xs == [] || !Crosses(t.side, t.limit, xs[0].price) {
    } else {
      assert AlikeOrder(xs[0], ys[0]);
      assert AlikeSide(xs[1..], ys[1..]);
      if Own(policy, t, xs[0]) {
        if policy == CancelResting {
          MatchAlike(policy, t, xs[1..], ys[1..], q);
        }
      } else if xs[0].remaining <= q {
        MatchAlike(policy, t, xs[1..], ys[1..], q - xs[0].remaining);
      }
    }
  }

  lemma {:induction false} InsertAlike(s: Side, xs: seq<Resting>, ys: seq<Resting>, o: Resting)
    requires AlikeSide(xs, ys)
    ensures AlikeSide(Insert(s, xs, o), Insert(s, ys, o))
    decreases |xs|
  {
    if xs != [] {
      assert AlikeOrder(xs[0], ys[0]);
      if !Better(s, o.price, xs[0].price) {
        InsertAlike(s, xs[1..], ys[1..], o);
      }
    }
  }

  lemma {:induction false} RemoveAlike(xs: seq<Resting>, ys: seq<Resting>, id: OrderId)
    requires AlikeSide(xs, ys)
    ensures AlikeSide(RemoveId(xs, id), RemoveId(ys, id))
    ensures HasId(xs, id) <==> HasId(ys, id)
    decreases |xs|
  {
    assert forall i :: 0 <= i < |xs| ==> AlikeOrder(xs[i], ys[i]) && xs[i].id == ys[i].id;
    if xs != [] && xs[0].id != id {
      RemoveAlike(xs[1..], ys[1..], id);
    }
  }

  lemma SnapshotsAlike(xs: seq<Resting>, ys: seq<Resting>)
    requires AlikeSide(xs, ys)
    ensures Snapshots(xs) == Snapshots(ys)
  {
    forall i | 0 <= i < |xs|
      ensures SnapshotOf(xs[i]) == SnapshotOf(ys[i])
    {
      assert AlikeOrder(xs[i], ys[i]);
    }
  }

  lemma StepAlike(a: Book, b: Book, op: Op)
    requires Alike(a, b)
    ensures See(a, op) == See(b, op) && Alike(Step(a, op), Step(b, op))
  {
    hide Match, Insert, RemoveId, AlikeSide;
    match op {
      case SubmitOp(t, q) =>
        RemoveAlike(a.bids, b.bids, t.id);
        RemoveAlike(a.asks, b.asks, t.id);
        var far := Opposite(t.side);
        MatchAlike(a.policy, t, SideOf(a, far), SideOf(b, far), q);
        MatchShrinks(a.policy, t, SideOf(a, far), q);
        var m := Match(a.policy, t, SideOf(a, far), q);
        InsertAlike(t.side, SideOf(a, t.side), SideOf(b, t.side),
                    Resting(t.id, t.trader, t.side, t.limit, m.remaining, m.remaining, a.nextSeq));
      case CancelOp(id) =>
        RemoveAlike(a.bids, b.bids, id);
        RemoveAlike(a.asks, b.asks, id);
    }
    SnapshotsAlike(Step(a, op).bids, Step(b, op).bids);
    SnapshotsAlike(Step(a, op).asks, Step(b, op).asks);
  }

  lemma {:induction false} WatchAlike(a: Book, b: Book, ops: seq<Op>)
    requires Alike(a, b)
    ensures Watch(a, ops) == Watch(b, ops)
    decreases |ops|
  {
    if ops != [] {
      StepAlike(a, b, ops[0]);
      WatchAlike(Step(a, ops[0]), Step(b, ops[0]), ops[1..]);
    }
  }

  // ---- Telling books apart -------------------------------------------------------------------------------------

  lemma {:induction false} WatchConcat(b: Book, xs: seq<Op>, ys: seq<Op>)
    ensures Watch(b, xs + ys) == Watch(b, xs) + Watch(Run(b, xs), ys)
    decreases |xs|
  {
    hide See, Step;
    if xs == [] {
      assert xs + ys == ys;
    } else {
      WatchConcat(Step(b, xs[0]), xs[1..], ys);
      assert (xs + ys)[1..] == xs[1..] + ys;
    }
  }

  function Cancels(ids: seq<OrderId>): seq<Op> {
    if ids == [] then [] else [CancelOp(ids[0])] + Cancels(ids[1..])
  }

  lemma {:induction false} AfterCancels(b: Book, ids: seq<OrderId>)
    requires WellFormed(b)
    ensures var b' := Run(b, Cancels(ids));
      && WellFormed(b') && b'.policy == b.policy && b'.nextSeq == b.nextSeq
      && (forall o :: o in b'.bids <==> o in b.bids && o.id !in ids)
      && (forall o :: o in b'.asks <==> o in b.asks && o.id !in ids)
    decreases |ids|
  {
    if ids != [] {
      FirstCancel(b, ids);
      hide WellFormed, Cancels, Cancel, Run;
      AfterCancels(Cancel(b, ids[0]).0, ids[1..]);
    }
  }

  lemma FirstCancel(b: Book, ids: seq<OrderId>)
    requires WellFormed(b) && ids != []
    ensures var b', id := Cancel(b, ids[0]).0, ids[0];
      && WellFormed(b') && b'.policy == b.policy && b'.nextSeq == b.nextSeq
      && Run(b, Cancels(ids)) == Run(b', Cancels(ids[1..]))
      && (forall o :: o in b'.bids <==> o in b.bids && o.id != id)
      && (forall o :: o in b'.asks <==> o in b.asks && o.id != id)
      && (forall x :: x in ids <==> x == id || x in ids[1..])
  {
    RemoveKeepsSide(Buy, b.bids, ids[0], b.nextSeq);
    RemoveKeepsSide(Sell, b.asks, ids[0], b.nextSeq);
    CancelKeeps(b, ids[0]);
    hide WellFormed, RemoveId;
    assert Cancels(ids)[1..] == Cancels(ids[1..]);
    assert ids == [ids[0]] + ids[1..];
  }

  /** The ids a snapshot shows, but for `keep`. */
  function IdsBut(snapshot: seq<OrderSnapshot>, keep: Option<OrderId>): seq<OrderId> {
    if snapshot == [] then []
    else (if keep == Some(snapshot[0].id) then [] else [snapshot[0].id]) + IdsBut(snapshot[1..], keep)
  }

  lemma {:induction false} IdsButHas(snapshot: seq<OrderSnapshot>, keep: Option<OrderId>)
    ensures forall i :: 0 <= i < |snapshot| ==>
              (snapshot[i].id in IdsBut(snapshot, keep) <==> keep != Some(snapshot[i].id))
    ensures keep.Some? ==> keep.value !in IdsBut(snapshot, keep)
    decreases |snapshot|
  {
    if snapshot != [] {
      IdsButHas(snapshot[1..], keep);
      assert forall i :: 0 < i < |snapshot| ==> snapshot[i] == snapshot[1..][i - 1];
    }
  }

  lemma ShownIds(b: Book, o: Resting)
    requires o in b.bids || o in b.asks
    ensures exists i :: 0 <= i < |Snapshot(b)| && Snapshot(b)[i].id == o.id
  {
    if o in b.bids {
      var i :| 0 <= i < |b.bids| && b.bids[i] == o;
      assert Snapshot(b)[i] == SnapshotOf(o);
    } else {
      var i :| 0 <= i < |b.asks| && b.asks[i] == o;
      assert Snapshot(b)[|b.bids| + i] == SnapshotOf(o);
    }
  }

  lemma OnlyOne(s: Side, orders: seq<Resting>, keep: Option<Resting>, nextSeq: nat)
    requires SideOk(s, orders, nextSeq)
    requires forall o :: o in orders ==> keep == Some(o)
    ensures orders == [] || (orders == [orders[0]] && keep == Some(orders[0]) && orders[0].side == s)
  {
    forall i | 0 <= i < |orders|
      ensures orders[i].id == (if keep.Some? then keep.value.id else 0) && keep == Some(orders[i])
    {
      assert orders[i] in orders;
    }
    var last := |orders| - 1;
    assert last >= 0 ==> orders[last].id == orders[0].id;
  }

  /** Cancelling every other id leaves a book with one order, or none. */
  lemma Isolate(b: Book, keep: Option<Resting>)
    requires WellFormed(b)
    requires keep.Some? ==> keep.value in b.bids || keep.value in b.asks
    ensures var id := if keep.Some? then Some(keep.value.id) else None;
      var b' := Run(b, Cancels(IdsBut(Snapshot(b), id)));
      && b'.policy == b.policy && b'.nextSeq == b.nextSeq
      && b'.bids == (if keep.Some? && keep.value.side == Buy then [keep.value] else [])
      && b'.asks == (if keep.Some? && keep.value.side == Sell then [keep.value] else [])
  {
    hide Step, IdsBut, Snapshot, MatchLaws.Sorted;
    var id := if keep.Some? then Some(keep.value.id) else None;
    var ids := IdsBut(Snapshot(b), id);
    var b' := Run(b, Cancels(ids));
    IdsButHas(Snapshot(b), id);
    AfterCancels(b, ids);
    forall o | o in b'.bids || o in b'.asks
      ensures keep == Some(o)
    {
      ShownIds(b, o);
      assert id == Some(o.id);
    }
    assert keep.Some? ==> keep.value in b'.bids || keep.value in b'.asks;
    OnlyOne(Buy, b'.bids, keep, b.nextSeq);
    OnlyOne(Sell, b'.asks, keep, b.nextSeq);
  }

  /** After the same cancels, one more operation that looks different tells the books apart. */
  lemma ToldApart(a: Book, b: Book, xs: seq<Op>, op: Op)
    requires See(Run(a, xs), op) != See(Run(b, xs), op)
    ensures !SameFuture(a, b)
  {
    WatchConcat(a, xs, [op]);
    WatchConcat(b, xs, [op]);
    assert Watch(Run(a, xs), [op]) == [See(Run(a, xs), op)];
    assert Watch(a, xs + [op])[|xs|] != Watch(b, xs + [op])[|xs|];
  }

  /** The taker that exposes the trader of a lone order: it crosses it in its owner's name. */
  function Probe(o: Resting): Op {
    SubmitOp(Taker(if o.id == 0 then 1 else 0, o.trader, Opposite(o.side), o.price), 1)
  }

  lemma ProbeTells(a: Book, b: Book, o: Resting, p: Resting)
    requires a.policy == b.policy && o.side == p.side && o.id == p.id && o.price == p.price
    requires o.trader != p.trader && o.remaining > 0 && p.remaining > 0
    requires a.bids == (if o.side == Buy then [o] else []) && a.asks == (if o.side == Buy then [] else [o])
    requires b.bids == (if o.side == Buy then [p] else []) && b.asks == (if o.side == Buy then [] else [p])
    ensures See(a, Probe(o)) != See(b, Probe(o))
  {
    hide Match, Snapshot;
    var t := Probe(o).taker;
    LoneMatch(a.policy, t, o);
    LoneMatch(b.policy, t, p);
    assert SideOf(a, o.side) == [o] && SideOf(b, o.side) == [p];
    assert !Rests(a, t.id) && !Rests(b, t.id);
  }

  /** What a unit taker trades against a lone order that it crosses. */
  lemma LoneMatch(policy: SelfTradePolicy, t: Taker, o: Resting)
    requires Crosses(t.side, t.limit, o.price) && o.remaining > 0
    ensures Match(policy, t, [o], 1).trades == if Own(policy, t, o) then [] else [Print(t, o, 1)]
  {
    assert [o][1..] == [];
    assert Match(policy, t, [], 1).trades == [] && Match(policy, t, [], 0).trades == [];
  }

  /** Equal snapshots split into equal sides. */
  lemma SnapshotsSplit(a: Book, b: Book)
    requires WellFormed(a) && WellFormed(b) && Snapshot(a) == Snapshot(b)
    ensures |a.bids| == |b.bids| && |a.asks| == |b.asks|
    ensures forall i :: 0 <= i < |a.bids| ==> SnapshotOf(a.bids[i]) == SnapshotOf(b.bids[i])
    ensures forall i :: 0 <= i < |a.asks| ==> SnapshotOf(a.asks[i]) == SnapshotOf(b.asks[i])
  {
    FirstAsk(a, b);
    FirstAsk(b, a);
    forall i | 0 <= i < |a.bids|
      ensures SnapshotOf(a.bids[i]) == SnapshotOf(b.bids[i])
    {
      assert Snapshot(a)[i] == Snapshot(b)[i];
    }
    forall i | 0 <= i < |a.asks|
      ensures SnapshotOf(a.asks[i]) == SnapshotOf(b.asks[i])
    {
      assert Snapshot(a)[|a.bids| + i] == Snapshot(b)[|b.bids| + i];
    }
  }

  lemma FirstAsk(a: Book, b: Book)
    requires WellFormed(a) && WellFormed(b) && Snapshot(a) == Snapshot(b)
    ensures |a.bids| <= |b.bids|
  {
    if a.bids != [] {
      SideAt(a, |a.bids| - 1);
      SideAt(b, |a.bids| - 1);
    }
  }

  lemma SideAt(b: Book, i: nat)
    requires WellFormed(b) && i < |Snapshot(b)|
    ensures Snapshot(b)[i].side == if i < |b.bids| then Buy else Sell
  {
    if i < |b.bids| {
      assert Snapshot(b)[i] == SnapshotOf(b.bids[i]);
    } else {
      assert Snapshot(b)[i] == SnapshotOf(b.asks[i - |b.bids|]);
    }
  }

  lemma DifferentTraderTold(a: Book, b: Book, o: Resting, p: Resting)
    requires WellFormed(a) && WellFormed(b) && a.policy == b.policy && Snapshot(a) == Snapshot(b)
    requires SnapshotOf(o) == SnapshotOf(p) && o.trader != p.trader
    requires (o in a.bids && p in b.bids) || (o in a.asks && p in b.asks)
    ensures !SameFuture(a, b)
  {
    var xs := Cancels(IdsBut(Snapshot(a), Some(o.id)));
    Isolate(a, Some(o));
    Isolate(b, Some(p));
    ProbeTells(Run(a, xs), Run(b, xs), o, p);
    ToldApart(a, b, xs, Probe(o));
  }

  lemma DifferentSequenceTold(a: Book, b: Book)
    requires WellFormed(a) && WellFormed(b) && a.policy == b.policy && Snapshot(a) == Snapshot(b)
    requires a.nextSeq != b.nextSeq
    ensures !SameFuture(a, b)
  {
    hide See, Run, Snapshot, Cancels, IdsBut, SameFuture, WellFormed;
    var xs := Cancels(IdsBut(Snapshot(a), None));
    Isolate(a, None);
    Isolate(b, None);
    LoneBuy(Run(a, xs));
    LoneBuy(Run(b, xs));
    ToldApart(a, b, xs, SubmitOp(Taker(0, 0, Buy, 0), 1));
  }

  /** A submit to an empty book shows the next sequence number. */
  lemma LoneBuy(b: Book)
    requires b.bids == [] && b.asks == []
    ensures var seen := See(b, SubmitOp(Taker(0, 0, Buy, 0), 1));
      seen.Submitted? && |seen.snapshot| == 1 && seen.snapshot[0].sequence == b.nextSeq
  {
    var t := Taker(0, 0, Buy, 0);
    assert !Rests(b, 0);
    assert Match(b.policy, t, [], 1) == MatchOut([], [], [], 1, false);
    var o := Resting(0, 0, Buy, 0, 1, 1, b.nextSeq);
    assert Insert(Buy, [], o) == [o] + [] == [o];
    assert Submit(b, t, 1).book == b.(bids := [o], nextSeq := b.nextSeq + 1);
    assert Snapshot(Submit(b, t, 1).book) == [SnapshotOf(o)] + [];
  }

  lemma TradersTold(a: Book, b: Book, xs: seq<Resting>, ys: seq<Resting>)
    requires WellFormed(a) && WellFormed(b) && a.policy == b.policy && Snapshot(a) == Snapshot(b)
    requires (xs == a.bids && ys == b.bids) || (xs == a.asks && ys == b.asks)
    requires |xs| == |ys| && forall i :: 0 <= i < |xs| ==> SnapshotOf(xs[i]) == SnapshotOf(ys[i])
    requires SameFuture(a, b)
    ensures Traders(xs) == Traders(ys)
  {
    forall i | 0 <= i < |xs|
      ensures xs[i].trader == ys[i].trader
    {
      if xs[i].trader != ys[i].trader {
        DifferentTraderTold(a, b, xs[i], ys[i]);
      }
    }
  }

  /** Equal snapshots do not make equal books: two well-formed books of one policy with the same snapshot behave alike
      for ever exactly when they also agree on the next sequence number and on who owns each order. */
  lemma SnapshotPlusTradersIsState(a: Book, b: Book)
    requires WellFormed(a) && WellFormed(b) && a.policy == b.policy && Snapshot(a) == Snapshot(b)
    ensures SameFuture(a, b)
       <==> a.nextSeq == b.nextSeq && Traders(a.bids) == Traders(b.bids) && Traders(a.asks) == Traders(b.asks)
  {
    SnapshotsSplit(a, b);
    if SameFuture(a, b) {
      if a.nextSeq != b.nextSeq {
        DifferentSequenceTold(a, b);
      }
      TradersTold(a, b, a.bids, b.bids);
      TradersTold(a, b, a.asks, b.asks);
    }
    if a.nextSeq == b.nextSeq && Traders(a.bids) == Traders(b.bids) && Traders(a.asks) == Traders(b.asks) {
      TradersAlike(a.bids, b.bids);
      TradersAlike(a.asks, b.asks);
      forall ops
        ensures Watch(a, ops) == Watch(b, ops)
      {
        WatchAlike(a, b, ops);
      }
    }
  }

  lemma TradersAlike(xs: seq<Resting>, ys: seq<Resting>)
    requires |xs| == |ys| && forall i :: 0 <= i < |xs| ==> SnapshotOf(xs[i]) == SnapshotOf(ys[i])
    requires Traders(xs) == Traders(ys)
    ensures AlikeSide(xs, ys)
  {
    forall i | 0 <= i < |xs|
      ensures AlikeOrder(xs[i], ys[i])
    {
      assert Traders(xs)[i] == Traders(ys)[i];
    }
  }

  /** Two books, one submit from empty, that the snapshot cannot tell apart although their next submit ends
      differently. */
  lemma SnapshotIsNotState()
    ensures var a := Run(Empty(CancelResting), [SubmitOp(Taker(1, 7, Buy, 100), 10)]);
      var b := Run(Empty(CancelResting), [SubmitOp(Taker(1, 9, Buy, 100), 10)]);
      Snapshot(a) == Snapshot(b) && a.nextSeq == b.nextSeq && !SameFuture(a, b)
  {
    var o := Resting(1, 7, Buy, 100, 10, 10, 1);
    OneBuy(7);
    OneBuy(9);
    var a, b := Book(CancelResting, [o], [], 2), Book(CancelResting, [o.(trader := 9)], [], 2);
    assert Snapshot(a) == [SnapshotOf(o)] == Snapshot(b);
    DifferentTraderTold(a, b, o, o.(trader := 9));
  }

  lemma OneBuy(trader: TraderId)
    ensures Run(Empty(CancelResting), [SubmitOp(Taker(1, trader, Buy, 100), 10)])
         == Book(CancelResting, [Resting(1, trader, Buy, 100, 10, 10, 1)], [], 2)
  {
    var ops := [SubmitOp(Taker(1, trader, Buy, 100), 10)];
    assert ops[1..] == [];
    assert Run(Empty(CancelResting), ops) == Step(Empty(CancelResting), ops[0]);
  }
}
