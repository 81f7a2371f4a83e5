/** One side of the book: the ordered map from price to price level, trusted to keep its levels best price first. */
module BookSides {
  import opened Types
  import opened BookSpec
  import opened Levels

  function Flatten(views: seq<seq<Resting>>): seq<Resting> {
    if views == [] then [] else views[0] + Flatten(views[1..])
  }

  lemma {:induction false} FlattenConcat(xs: seq<seq<Resting>>, ys: seq<seq<Resting>>)
    ensures Flatten(xs + ys) == Flatten(xs) + Flatten(ys)
    decreases |xs|
  {
    if xs == [] {
      assert xs + ys == ys;
    } else {
      FlattenConcat(xs[1..], ys);
      assert (xs + ys)[1..] == xs[1..] + ys;
    }
  }

  /** The flat list around level `k`. */
  lemma FlattenSplit(views: seq<seq<Resting>>, k: nat)
    requires k < |views|
    ensures Flatten(views) == Flatten(views[..k]) + views[k] + Flatten(views[k + 1..])
  {
    assert views == views[..k] + views[k..];
    assert views[k..][1..] == views[k + 1..];
    FlattenConcat(views[..k], views[k..]);
  }

  lemma FlattenUpdate(views: seq<seq<Resting>>, k: nat, view: seq<Resting>)
    requires k < |views|
    ensures Flatten(views[k := view]) == Flatten(views[..k]) + view + Flatten(views[k + 1..])
  {
    FlattenSplit(views[k := view], k);
    assert views[k := view][..k] == views[..k];
    assert views[k := view][k + 1..] == views[k + 1..];
  }

  lemma FlattenInsertEmpty(views: seq<seq<Resting>>, k: nat)
    requires k <= |views|
    ensures Flatten(With(views, k, [])) == Flatten(views)
  {
    hide Flatten;
    var xs, ys := views[..k], views[k..];
    FlattenAroundEmpty(xs, ys);
    Halves(views, k);
  }

  lemma Halves(views: seq<seq<Resting>>, k: nat)
    requires k <= |views|
    ensures views == views[..k] + views[k..]
    ensures With(views, k, []) == views[..k] + [[]] + views[k..]
  {
  }

  lemma FlattenAroundEmpty(xs: seq<seq<Resting>>, ys: seq<seq<Resting>>)
    ensures Flatten(xs + [[]] + ys) == Flatten(xs + ys)
  {
    FlattenOne([]);
    hide Flatten;
    FlattenConcat(xs + [[]], ys);
    FlattenConcat(xs, [[]]);
    FlattenConcat(xs, ys);
  }

  lemma FlattenOne(view: seq<Resting>)
    ensures Flatten([view]) == view
  {
    assert [view][1..] == [];
  }

  lemma FlattenEraseEmpty(views: seq<seq<Resting>>, k: nat)
    requires k < |views| && views[k] == []
    ensures Flatten(Without(views, k)) == Flatten(views)
  {
    FlattenSplit(views, k);
    FlattenConcat(views[..k], views[k + 1..]);
  }

  lemma {:induction false} FlattenMember(views: seq<seq<Resting>>, r: Resting) returns (k: nat, i: nat)
    requires r in Flatten(views)
    ensures k < |views| && i < |views[k]| && views[k][i] == r
    decreases |views|
  {
    if r in views[0] {
      k := 0;
      i :| 0 <= i < |views[0]| && views[0][i] == r;
    } else {
      k, i := FlattenMember(views[1..], r);
      k := k + 1;
    }
  }

  lemma MemberFlatten(views: seq<seq<Resting>>, k: nat, i: nat)
    requires k < |views| && i < |views[k]|
    ensures views[k][i] in Flatten(views)
  {
    FlattenSplit(views, k);
    assert Flatten(views)[|Flatten(views[..k])| + i] == views[k][i];
  }

  /** Taking entry `i` out of level `k` takes one entry out of the flat list. */
  lemma FlattenWithout(views: seq<seq<Resting>>, k: nat, i: nat) returns (p: nat)
    requires k < |views| && i < |views[k]|
    ensures p < |Flatten(views)| && Flatten(views)[p] == views[k][i]
    ensures Flatten(views[k := Without(views[k], i)]) == Without(Flatten(views), p)
    ensures k == 0 && i == 0 ==> p == 0
  {
    FlattenSplit(views, k);
    FlattenUpdate(views, k, Without(views[k], i));
    p := |Flatten(views[..k])| + i;
  }

  /** Replacing or dropping the first entry of the first view. */
  lemma FlattenUpdateFirst(views: seq<seq<Resting>>, r: Resting)
    requires views != [] && views[0] != []
    ensures Flatten(views) == [views[0][0]] + Flatten(views)[1..]
    ensures Flatten(views[0 := views[0][0 := r]]) == [r] + Flatten(views)[1..]
    ensures Flatten(views[0 := Without(views[0], 0)]) == Flatten(views)[1..]
  {
    hide Flatten;
    var first, rest := views[0], Flatten(views[1..]);
    FlattenFirst(views, first);
    assert views[0 := first] == views;
    FlattenFirst(views, first[0 := r]);
    FlattenFirst(views, Without(first, 0));
    FirstOf(first, rest, r);
  }

  lemma FlattenFirst(views: seq<seq<Resting>>, first: seq<Resting>)
    requires views != []
    ensures Flatten(views[0 := first]) == first + Flatten(views[1..])
  {
    assert views[0 := first][1..] == views[1..];
  }

  lemma FirstOf(first: seq<Resting>, rest: seq<Resting>, r: Resting)
    requires first != []
    ensures first + rest == [first[0]] + (first + rest)[1..]
    ensures first[0 := r] + rest == [r] + (first + rest)[1..]
    ensures Without(first, 0) + rest == (first + rest)[1..]
  {
    var all, tail := first + rest, first[1..];
    assert first == [first[0]] + tail && first[0 := r] == [r] + tail && Without(first, 0) == tail;
    assert all[1..] == tail + rest;
    assert [first[0]] + (tail + rest) == ([first[0]] + tail) + rest;
    assert [r] + (tail + rest) == ([r] + tail) + rest;
  }

  /** Stable insertion between the orders as good and the orders worse. */
  lemma {:induction false} InsertMiddle(s: Side, xs: seq<Resting>, ys: seq<Resting>, o: Resting)
    requires forall i :: 0 <= i < |xs| ==> !Better(s, o.price, xs[i].price)
    requires ys == [] || Better(s, o.price, ys[0].price)
    ensures Insert(s, xs + ys, o) == xs + [o] + ys
    decreases |xs|
  {
    if xs == [] {
      assert xs + ys == ys;
    } else {
      InsertMiddle(s, xs[1..], ys, o);
      assert (xs + ys)[1..] == xs[1..] + ys;
    }
  }

  lemma {:induction false} AtConcat(xs: seq<Resting>, ys: seq<Resting>, price: Price)
    ensures At(xs + ys, price) == At(xs, price) + At(ys, price)
    decreases |xs|
  {
    if xs == [] {
      assert xs + ys == ys;
    } else {
      AtConcat(xs[1..], ys, price);
      assert (xs + ys)[1..] == xs[1..] + ys;
    }
  }

  lemma {:induction false} AtUniform(orders: seq<Resting>, price: Price, same: bool)
    requires forall i :: 0 <= i < |orders| ==> (orders[i].price == price) == same
    ensures At(orders, price) == if same then orders else []
    decreases |orders|
  {
    if orders != [] {
      AtUniform(orders[1..], price, same);
    }
  }

  function SnapshotsAt(side: Side, price: Price, orders: seq<Resting>): seq<OrderSnapshot> {
    seq(|orders|, i requires 0 <= i < |orders| =>
      OrderSnapshot(side, price, orders[i].id, orders[i].remaining, orders[i].sequence))
  }

  lemma NothingShown()
    ensures Snapshots(Flatten([])) == []
  {
  }

  /** One more level of the walk. */
  lemma LevelShown(side: Side, price: Price, views: seq<seq<Resting>>, j: nat)
    requires j < |views|
    requires forall k :: 0 <= k < |views[j]| ==> views[j][k].price == price && views[j][k].side == side
    ensures Snapshots(Flatten(views[..j + 1])) == Snapshots(Flatten(views[..j])) + SnapshotsAt(side, price, views[j])
  {
    hide Flatten;
    assert views[..j + 1] == views[..j] + [views[j]];
    FlattenConcat(views[..j], [views[j]]);
    FlattenOne(views[j]);
    SnapshotsConcat(Flatten(views[..j]), views[j]);
    assert SnapshotsAt(side, price, views[j]) == Snapshots(views[j]);
  }

  lemma SnapshotsConcat(xs: seq<Resting>, ys: seq<Resting>)
    ensures Snapshots(xs + ys) == Snapshots(xs) + Snapshots(ys)
  {
  }

  /** Levels strictly ordered by price, best first. */
  ghost predicate Rungs(side: Side, levels: seq<PriceLevel>) {
    forall i, j :: 0 <= i < j < |levels| ==> Better(side, levels[i].price, levels[j].price)
  }

  lemma RungsWith(side: Side, levels: seq<PriceLevel>, j: nat, level: PriceLevel)
    requires Rungs(side, levels) && j <= |levels|
    requires forall i :: 0 <= i < j ==> Better(side, levels[i].price, level.price)
    requires forall i :: j <= i < |levels| ==> Better(side, level.price, levels[i].price)
    ensures Rungs(side, With(levels, j, level))
  {
    hide With, Better;
    var r := With(levels, j, level);
    forall a, b | 0 <= a < b < |r|
      ensures Better(side, r[a].price, r[b].price)
    {
      assert r[a] == (if a < j then levels[a] else if a == j then level else levels[a - 1]);
      assert r[b] == (if b < j then levels[b] else if b == j then level else levels[b - 1]);
    }
  }

  lemma RungsWithout(side: Side, levels: seq<PriceLevel>, k: nat)
    requires Rungs(side, levels) && k < |levels|
    ensures Rungs(side, Without(levels, k))
  {
    hide Without, Better;
  }

  lemma RungsDistinct(side: Side, levels: seq<PriceLevel>, j: nat, k: nat)
    requires Rungs(side, levels) && j < |levels| && k < |levels| && levels[j].price == levels[k].price
    ensures j == k
  {
  }

  /** The views show orders of side `side`, each at the price of its level. */
  ghost predicate Priced(side: Side, levels: seq<PriceLevel>, views: seq<seq<Resting>>)
    requires |views| == |levels|
  {
    forall i, k :: 0 <= i < |views| && 0 <= k < |views[i]| ==>
      views[i][k].price == levels[i].price && views[i][k].side == side
  }

  lemma PricedUpdate(side: Side, levels: seq<PriceLevel>, views: seq<seq<Resting>>, k: nat, view: seq<Resting>)
    requires |views| == |levels| && Priced(side, levels, views) && k < |views|
    requires forall i :: 0 <= i < |view| ==> view[i].price == levels[k].price && view[i].side == side
    ensures Priced(side, levels, views[k := view])
  {
  }

  lemma PricedWith(side: Side, levels: seq<PriceLevel>, views: seq<seq<Resting>>, j: nat, level: PriceLevel)
    requires |views| == |levels| && Priced(side, levels, views) && j <= |views|
    ensures Priced(side, With(levels, j, level), With(views, j, []))
  {
    hide With;
    var r: seq<seq<Resting>> := With(views, j, []);
    var l := With(levels, j, level);
    forall i, k | 0 <= i < |r| && 0 <= k < |r[i]|
      ensures r[i][k].price == l[i].price && r[i][k].side == side
    {
      if i < j {
        assert r[i] == views[i] && l[i] == levels[i];
      } else {
        assert r[i] == views[i - 1] && l[i] == levels[i - 1];
      }
    }
  }

  lemma PricedWithout(side: Side, levels: seq<PriceLevel>, views: seq<seq<Resting>>, k: nat)
    requires |views| == |levels| && Priced(side, levels, views) && k < |views|
    ensures Priced(side, Without(levels, k), Without(views, k))
  {
    hide Without;
  }

  lemma RungsDiffer(side: Side, levels: seq<PriceLevel>, k: nat)
    requires Rungs(side, levels) && k < |levels|
    ensures forall i :: 0 <= i < |levels| && i != k ==> levels[i] != levels[k]
  {
  }

  class BookSide {
    const side: Side
    var levels: seq<PriceLevel>
    ghost var views: seq<seq<Resting>>
    ghost var nodes: set<Order>

    /** Levels are strictly ordered by price. */
    ghost predicate Ladder()
      reads `levels, `views
    {
      |views| == |levels| && Rungs(side, levels)
    }

    /** Each level is a valid queue, and `nodes` are exactly the orders queued in them. */
    ghost predicate Queued()
      reads `levels, `nodes, levels, nodes
    {
      && (forall l :: l in levels ==> (forall n :: n in l.queue ==> n in nodes))
      && (forall l :: l in levels ==> l.Valid())
      && (forall n :: n in nodes ==> n.level != null && n.level in levels && n in n.level.queue)
    }

    /** `views` shows what the queues hold: orders of this side, at the price of their level. */
    ghost predicate Shown()
      reads `levels, `views, levels`view
      requires |views| == |levels|
    {
      && (forall i :: 0 <= i < |levels| ==> levels[i].view == views[i])
      && Priced(side, levels, views)
    }

    /** Levels may be empty. */
    ghost predicate Valid()
      reads this, levels, nodes
    {
      Ladder() && Queued() && Shown()
    }

    /** No level is empty. */
    ghost predicate Dense()
      reads this
    {
      forall i :: 0 <= i < |views| ==> views[i] != []
    }

    /** The resting orders in price-time order. */
    ghost function Flat(): seq<Resting>
      reads this
    {
      Flatten(views)
    }

    constructor (side: Side)
      ensures Valid() && Dense() && this.side == side
      ensures levels == [] && nodes == {} && Flat() == []
    {
      this.side := side;
      levels, views, nodes := [], [], {};
    }

    /** Where a queued order is. */
    lemma Locate(n: Order) returns (k: nat, i: nat)
      requires Valid() && n in nodes
      ensures k < |levels| && levels[k] == n.level && i < |levels[k].queue| && levels[k].queue[i] == n
      ensures i < |views[k]| && views[k][i] == n.Value()
    {
      k :| 0 <= k < |levels| && levels[k] == n.level;
      i :| 0 <= i < |levels[k].queue| && levels[k].queue[i] == n;
    }

    /** The order a shown entry stands for. */
    lemma NodeAt(k: nat, i: nat)
      requires Valid() && k < |views| && i < |views[k]|
      ensures i < |levels[k].queue| && levels[k].queue[i] in nodes && levels[k].queue[i].Value() == views[k][i]
    {
      levels[k].Facts();
      assert levels[k].view == views[k];
    }

    lemma NodeHasId(n: Order)
      requires Valid() && n in nodes
      ensures HasId(Flat(), n.id)
    {
      var k, i := Locate(n);
      MemberFlatten(views, k, i);
      var p :| 0 <= p < |Flat()| && Flat()[p] == views[k][i];
    }

    lemma IdHasNode(id: OrderId) returns (n: Order)
      requires Valid() && HasId(Flat(), id)
      ensures n in nodes && n.id == id
    {
      var p :| 0 <= p < |Flat()| && Flat()[p].id == id;
      var k, i := FlattenMember(views, Flat()[p]);
      NodeAt(k, i);
      n := levels[k].queue[i];
    }

    /** Every queue of this side is made of its nodes. */
    lemma QueueInNodes(k: nat)
      requires Valid() && k < |levels|
      ensures |views| == |levels| && |views[k]| == |levels[k].queue|
      ensures levels[k].Valid() && (levels[k].head == null <==> views[k] == [])
      ensures forall i :: 0 <= i < |levels[k].queue| ==>
                levels[k].queue[i] in nodes && levels[k].queue[i].level == levels[k]
                && levels[k].queue[i].Value() == views[k][i]
    {
      levels[k].Facts();
    }

    /** The front of the best level is the first order of the flat list. */
    lemma Front()
      requires Valid() && levels != []
      ensures |views| == |levels|
      ensures views[0] == [] <==> levels[0].head == null
      ensures var maker := levels[0].head;
        maker != null ==>
          && levels[0].queue != [] && levels[0].queue[0] == maker && maker in nodes
          && maker.price == levels[0].price
          && views[0][0] == maker.Value()
          && Flat() == [maker.Value()] + Flat()[1..]
    {
      levels[0].Facts();
      if views[0] != [] {
        FlattenUpdateFirst(views, views[0][0]);
      }
    }

    /** Queues of different levels share no order. */
    lemma QueuesApart(level: PriceLevel)
      requires Valid() && level in levels
      ensures forall l, i, j :: l in levels && l != level && 0 <= i < |l.queue| && 0 <= j < |level.queue| ==>
                l.queue[i] != level.queue[j]
    {
      level.Facts();
      forall l, i, j | l in levels && l != level && 0 <= i < |l.queue| && 0 <= j < |level.queue|
        ensures l.queue[i] != level.queue[j]
      {
        l.Facts();
      }
    }

    /** Nothing ahead of the end of a level is worse than its price, and what follows the level is. */
    lemma BetterAhead(k: nat, o: Resting)
      requires Valid() && k < |levels| && o.price == levels[k].price
      ensures var ahead := Flatten(views[..k]) + views[k];
        forall i :: 0 <= i < |ahead| ==> !Better(side, o.price, ahead[i].price)
    {
      hide Flatten, Queued;
      var before := Flatten(views[..k]);
      forall i | 0 <= i < |before + views[k]|
        ensures !Better(side, o.price, (before + views[k])[i].price)
      {
        if i < |before| {
          var k', i' := FlattenMember(views[..k], before[i]);
          assert before[i] == views[k'][i'];
        } else {
          assert views[k][i - |before|].price == o.price;
        }
      }
    }

    lemma WorseBehind(k: nat, o: Resting)
      requires Valid() && k < |levels| && o.price == levels[k].price
      ensures var after := Flatten(views[k + 1..]); after == [] || Better(side, o.price, after[0].price)
    {
      hide Flatten, Queued;
      var after := Flatten(views[k + 1..]);
      if after != [] {
        var k', i' := FlattenMember(views[k + 1..], after[0]);
        assert after[0] == views[k + 1 + k'][i'];
      }
    }

    /** Appending to the level of its price is the stable insertion into the flat list. */
    lemma EnqueueIsInsert(k: nat, o: Resting)
      requires Valid() && k < |levels| && o.price == levels[k].price
      ensures Flatten(views[k := views[k] + [o]]) == Insert(side, Flat(), o)
    {
      hide Flatten, Better, Queued;
      var before, after := Flatten(views[..k]), Flatten(views[k + 1..]);
      FlattenSplit(views, k);
      FlattenUpdate(views, k, views[k] + [o]);
      BetterAhead(k, o);
      WorseBehind(k, o);
      InsertMiddle(side, before + views[k], after, o);
      assert before + (views[k] + [o]) + after == (before + views[k]) + [o] + after;
    }

    /** The queues hold exactly `nodes`, and those other than that of `level` are valid. */
    ghost predicate Holding(level: PriceLevel, nodes: set<Order>)
      reads `levels, levels, nodes
    {
      && (forall l :: l in levels ==> (forall n :: n in l.queue ==> n in nodes))
      && (forall l :: l in levels && l != level ==> l.Valid())
      && (forall n :: n in nodes ==> n.level != null && n.level in levels && n in n.level.queue)
    }

    /** A queue and what its level shows are consistent with the rest of the side, which has not changed. */
    lemma Rejoin(level: PriceLevel, k: nat)
      requires Ladder() && k < |levels| && levels[k] == level && level.Valid()
      requires Holding(level, nodes)
      requires forall i :: 0 <= i < |levels| ==> levels[i].view == views[i]
      requires Priced(side, levels, views)
      ensures Valid()
    {
      hide PriceLevel.Valid, Rungs, Priced;
    }

    /** Takes the order at `i` off the queue of level `k`; the other levels keep theirs. */
    method UnlinkQueue(level: PriceLevel, order: Order, ghost k: nat, ghost i: nat)
      requires Valid() && k < |levels| && levels[k] == level
      requires i < |level.queue| && level.queue[i] == order
      modifies level, level.queue`level, level.queue`prev, level.queue`next
      ensures level.Valid() && level.queue == Without(old(level.queue), i) && level.view == Without(old(level.view), i)
      ensures forall l :: l in levels && l != level ==> l.Valid() && l.queue == old(l.queue) && l.view == old(l.view)
      ensures forall n :: n in nodes && n != order ==> n.level == old(n.level)
    {
      hide PriceLevel.Valid, Ladder, Shown, Without, Distinct, PriceLevel.Linked, Order.Value;
      QueuesApart(level);
      level.Facts();
      level.Unlink(order, i);
      level.Facts();
      WithoutMembers(old(level.queue), i);
    }

    method UnlinkAt(level: PriceLevel, order: Order, ghost k: nat, ghost i: nat)
      requires Valid() && k < |levels| && levels[k] == level
      requires i < |level.queue| && level.queue[i] == order
      modifies level, level.queue`level, level.queue`prev, level.queue`next
      ensures level.Valid() && level.view == Without(old(level.view), i)
      ensures forall l :: l in levels && l != level ==> l.view == old(l.view)
      ensures Holding(level, nodes - {order})
    {
      hide PriceLevel.Valid, Ladder, Shown, Without, Distinct;
      ghost var was := level.queue;
      QueuesApart(level);
      level.Facts();
      DistinctWithout(was, i);
      WithoutMembers(was, i);
      UnlinkQueue(level, order, k, i);
    }

    /** Takes an order off its level. */
    method Unlink(level: PriceLevel, order: Order, ghost k: nat, ghost i: nat)
      requires Valid() && k < |levels| && levels[k] == level
      requires i < |level.queue| && level.queue[i] == order
      modifies `views, `nodes, level, level.queue`level, level.queue`prev, level.queue`next
      ensures Valid() && nodes == old(nodes) - {order}
      ensures views == old(views)[k := Without(old(views)[k], i)]
    {
      hide PriceLevel.Valid, Rungs, Flatten, Without, Priced, Queued, Holding;
      RungsDiffer(side, levels, k);
      QueueInNodes(k);
      UnlinkAt(level, order, k, i);
      ViewWithout(k, i);
      views := views[k := level.view];
      nodes := nodes - {order};
      Rejoin(level, k);
    }

    lemma ViewWithout(k: nat, i: nat)
      requires |views| == |levels| && Priced(side, levels, views) && k < |views| && i < |views[k]|
      ensures Priced(side, levels, views[k := Without(views[k], i)])
    {
      PricedUpdate(side, levels, views, k, Without(views[k], i));
    }

    /** Executes part of the order at `i` of level `k`; the other levels are as they were. */
    method FillAt(level: PriceLevel, order: Order, traded: Quantity, ghost k: nat, ghost i: nat)
      requires Valid() && k < |levels| && levels[k] == level
      requires i < |level.queue| && level.queue[i] == order && traded <= order.remaining
      modifies level`total, level`view, order`remaining
      ensures level.Valid() && level.view == old(level.view)[i := order.Value()]
      ensures order.Value() == old(order.Value()).(remaining := old(order.remaining) - traded)
      ensures forall l :: l in levels && l != level ==> l.view == old(l.view)
      ensures Holding(level, nodes)
    {
      hide PriceLevel.Valid, Ladder, Shown, Without, Distinct;
      QueuesApart(level);
      level.Facts();
      level.Execute(order, traded, i);
    }

    /** Takes `traded` units off an order and off the running total of its level. */
    method Fill(level: PriceLevel, order: Order, traded: Quantity, ghost k: nat, ghost i: nat)
      requires Valid() && k < |levels| && levels[k] == level
      requires i < |level.queue| && level.queue[i] == order && traded <= order.remaining
      modifies `views, level`total, level`view, order`remaining
      ensures Valid() && order.remaining == old(order.remaining) - traded
      ensures views == old(views)[k := old(views)[k][i := order.Value()]]
      ensures order.Value() == old(order.Value()).(remaining := order.remaining)
    {
      hide PriceLevel.Valid, Rungs, Flatten, Priced, Queued, Holding;
      RungsDiffer(side, levels, k);
      QueueInNodes(k);
      FillAt(level, order, traded, k, i);
      ViewFilled(k, i, order.Value());
      views := views[k := level.view];
      Rejoin(level, k);
    }

    lemma ViewFilled(k: nat, i: nat, o: Resting)
      requires |views| == |levels| && Priced(side, levels, views) && k < |views| && i < |views[k]|
      requires o.price == views[k][i].price && o.side == views[k][i].side
      ensures Priced(side, levels, views[k := views[k][i := o]])
    {
      PricedUpdate(side, levels, views, k, views[k][i := o]);
    }

    /** Appends the order to the queue of level `k`; the other levels keep theirs. */
    method EnqueueQueue(level: PriceLevel, order: Order, ghost k: nat)
      requires Valid() && k < |levels| && levels[k] == level && order !in nodes
      modifies level, order`level, order`prev, order`next, level.queue`next
      ensures level.Valid() && level.queue == old(level.queue) + [order]
      ensures level.view == old(level.view) + [order.Value()]
      ensures forall l :: l in levels && l != level ==> l.Valid() && l.queue == old(l.queue) && l.view == old(l.view)
    {
      hide PriceLevel.Valid, Ladder, Shown, Distinct, PriceLevel.Linked;
      QueuesApart(level);
      level.Facts();
      level.Enqueue(order);
    }

    method EnqueueAt(level: PriceLevel, order: Order, ghost k: nat)
      requires Valid() && k < |levels| && levels[k] == level && order !in nodes
      modifies level, order`level, order`prev, order`next, level.queue`next
      ensures level.Valid() && level.view == old(level.view) + [order.Value()]
      ensures forall l :: l in levels && l != level ==> l.view == old(l.view)
      ensures Holding(level, nodes + {order})
    {
      hide PriceLevel.Valid, Ladder, Shown, Distinct, Order.Value;
      level.Facts();
      EnqueueQueue(level, order, k);
      level.Facts();
    }

    /** Appends an order to the queue of its price. */
    method Enqueue(level: PriceLevel, order: Order, ghost k: nat)
      requires Valid() && k < |levels| && levels[k] == level
      requires order !in nodes && order.price == level.price && order.side == side
      modifies `views, `nodes, level, order`level, order`prev, order`next, level.queue`next
      ensures Valid() && nodes == old(nodes) + {order}
      ensures views == old(views)[k := old(views)[k] + [order.Value()]]
    {
      hide PriceLevel.Valid, Rungs, Flatten, Priced, Queued, Holding;
      RungsDiffer(side, levels, k);
      QueueInNodes(k);
      EnqueueAt(level, order, k);
      ViewSnoc(k, order.Value());
      views := views[k := level.view];
      nodes := nodes + {order};
      Rejoin(level, k);
    }

    lemma ViewSnoc(k: nat, o: Resting)
      requires |views| == |levels| && Priced(side, levels, views) && k < |views|
      requires o.price == levels[k].price && o.side == side
      ensures Priced(side, levels, views[k := views[k] + [o]])
    {
      PricedUpdate(side, levels, views, k, views[k] + [o]);
    }

    /** The level of a price, created empty if there is none. */
    method TryEmplace(price: Price) returns (level: PriceLevel, ghost k: nat)
      requires Valid()
      modifies `levels, `views
      ensures Valid() && k < |levels| && levels[k] == level && level.price == price
      ensures level in old(levels) || fresh(level)
      ensures forall l :: l in levels ==> l == level || l in old(levels)
      ensures Flat() == old(Flat())
      ensures forall i :: 0 <= i < |views| && i != k ==> views[i] in old(views)
    {
      hide PriceLevel.Valid, PriceLevel.Linked, Threaded, Shows, Total, Wrap;
      var j := 0;
      while j < |levels| && Better(side, levels[j].price, price)
        invariant j <= |levels|
        invariant forall i :: 0 <= i < j ==> Better(side, levels[i].price, price)
      {
        j := j + 1;
      }
      k := j;
      if j < |levels| && levels[j].price == price {
        level := levels[j];
        return;
      }
      level := new PriceLevel(price);
      InsertLevel(j, level);
    }

    /** Puts a new empty level between its neighbours. */
    method InsertLevel(j: nat, level: PriceLevel)
      requires Valid() && j <= |levels|
      requires level.Valid() && level.queue == [] && level.view == [] && level !in levels
      requires forall i :: 0 <= i < j ==> Better(side, levels[i].price, level.price)
      requires forall i :: j <= i < |levels| ==> Better(side, level.price, levels[i].price)
      modifies `levels, `views
      ensures Valid() && Flat() == old(Flat())
      ensures levels == With(old(levels), j, level)
      ensures views == With(old(views), j, [])
    {
      hide PriceLevel.Valid, Rungs, Better, Flatten, With, Without, Priced;
      FlattenInsertEmpty(views, j);
      RungsWith(side, levels, j, level);
      PricedWith(side, levels, views, j, level);
      WithMembers(levels, j, level);
      levels := With(levels, j, level);
      views := With(views, j, []);
    }

    /** Erases an empty level. */
    method Erase(price: Price, ghost k: nat)
      requires Valid() && k < |levels| && levels[k].price == price && views[k] == []
      modifies `levels, `views
      ensures Valid() && levels == Without(old(levels), k) && views == Without(old(views), k)
      ensures Flat() == old(Flat())
    {
      hide PriceLevel.Valid, Rungs, Better, Flatten, Without, Priced;
      var j := 0;
      while levels[j].price != price
        invariant j <= k
        decreases k - j
      {
        j := j + 1;
      }
      levels[k].Facts();
      WithoutMembers(levels, k);
      RungsDistinct(side, levels, j, k);
      RungsWithout(side, levels, k);
      PricedWithout(side, levels, views, k);
      FlattenEraseEmpty(views, k);
      levels := Without(levels, j);
      views := Without(views, j);
    }

    /** The orders at a price are the view of its level, or none. */
    lemma {:induction false} LevelHolds(price: Price, n: nat)
      requires Valid() && n <= |levels|
      ensures (forall i :: 0 <= i < n ==> levels[i].price != price) ==> At(Flatten(views[..n]), price) == []
      ensures forall k :: 0 <= k < n && levels[k].price == price ==> At(Flatten(views[..n]), price) == views[k]
      decreases n
    {
      if n > 0 {
        LevelHolds(price, n - 1);
        assert views[..n] == views[..n - 1] + [views[n - 1]];
        FlattenConcat(views[..n - 1], [views[n - 1]]);
        assert [views[n - 1]][1..] == [];
        assert Flatten([views[n - 1]]) == views[n - 1];
        AtConcat(Flatten(views[..n - 1]), views[n - 1], price);
        AtUniform(views[n - 1], price, levels[n - 1].price == price);
      }
    }

    /** The running total of the level of a price, 0 if there is none. */
    method QuantityAt(price: Price) returns (quantity: Quantity)
      requires Valid()
      ensures quantity == Total(At(Flat(), price)) % TWO_64
    {
      LevelHolds(price, |levels|);
      assert views[..|levels|] == views;
      var j := 0;
      while j < |levels|
        invariant j <= |levels|
        invariant forall i :: 0 <= i < j ==> levels[i].price != price
      {
        if levels[j].price == price {
          assert levels[j].Valid();
          return levels[j].total;
        }
        j := j + 1;
      }
      return 0;
    }

    /** Walks the levels best first and each queue oldest first. */
    method Snapshot() returns (out: seq<OrderSnapshot>)
      requires Valid()
      ensures out == Snapshots(Flat())
    {
      hide PriceLevel.Valid, Rungs, Flatten, Snapshots, SnapshotsAt;
      out := [];
      NothingShown();
      for j := 0 to |levels|
        invariant out == Snapshots(Flatten(views[..j]))
      {
        levels[j].Facts();
        var orders := levels[j].ForEach();
        LevelShown(side, levels[j].price, views, j);
        out := out + SnapshotsAt(side, levels[j].price, orders);
      }
      assert views[..|levels|] == views;
    }
  }
}
