/** Order objects, the intrusive FIFO queue of one price level, and the free-list pool the orders come from. */
module Levels {
  import opened Types
  import Bits
  import opened BookSpec

  /** One pool slot. While live it is an order and a list node; while dead it is a link of the free list. */
  class Order {
    var prev: Order?
    var next: Order?
    var level: PriceLevel?
    var id: OrderId
    var trader: TraderId
    var side: Side
    var price: Price
    var quantity: Quantity
    var remaining: Quantity
    var sequence: nat
    var nextFree: Order?

    /** Raw storage. */
    constructor Slot()
      ensures nextFree == null
    {
      prev, next, level, nextFree := null, null, null, null;
      id, trader, side, price, quantity, remaining, sequence := 0, 0, Buy, 0, 0, 0, 0;
    }

    function Value(): Resting
      reads `id, `trader, `side, `price, `quantity, `remaining, `sequence
    {
      Resting(id, trader, side, price, quantity, remaining, sequence)
    }

    /** Construction in place: a fresh, unlinked order. */
    method Construct(id: OrderId, trader: TraderId, side: Side, price: Price, quantity: Quantity)
      modifies `prev, `next, `level, `id, `trader, `side, `price, `quantity, `remaining, `sequence
      ensures prev == null && next == null && level == null
      ensures Value() == Resting(id, trader, side, price, quantity, quantity, 0)
    {
      prev, next, level := null, null, null;
      this.id, this.trader, this.side, this.price := id, trader, side, price;
      this.quantity, remaining, sequence := quantity, quantity, 0;
    }

    /** Takes up to `amount` units off the order and says how many. */
    method Fill(amount: Quantity) returns (traded: Quantity)
      modifies `remaining
      ensures traded == Min(amount, old(remaining)) && remaining == old(remaining) - traded
    {
      traded := if amount < remaining then amount else remaining;
      remaining := remaining - traded;
    }
  }

  lemma {:induction false} TotalConcat(xs: seq<Resting>, ys: seq<Resting>)
    ensures Total(xs + ys) == Total(xs) + Total(ys)
    decreases |xs|
  {
    if xs == [] {
      assert xs + ys == ys;
    } else {
      TotalConcat(xs[1..], ys);
      assert (xs + ys)[1..] == xs[1..] + ys;
    }
  }

  lemma TotalWithout(xs: seq<Resting>, i: nat)
    requires i < |xs|
    ensures Total(Without(xs, i)) == Total(xs) - xs[i].remaining
  {
    TotalConcat(xs[..i], xs[i + 1..]);
    TotalConcat(xs[..i], xs[i..]);
    assert xs == xs[..i] + xs[i..];
    assert xs[i..][1..] == xs[i + 1..];
  }

  lemma TotalSnoc(xs: seq<Resting>, o: Resting)
    ensures Total(xs + [o]) == Total(xs) + o.remaining
  {
    TotalConcat(xs, [o]);
    assert [o][1..] == [];
  }

  function Wrap(x: int): U64 {
    x % TWO_64
  }

  lemma WrapSub(x: int, y: int)
    ensures Wrap(Wrap(x) - y) == Wrap(x - y)
  {
  }

  lemma WrapSnoc(view: seq<Resting>, o: Resting)
    ensures Wrap(Wrap(Total(view)) + o.remaining) == Wrap(Total(view + [o]))
  {
    TotalSnoc(view, o);
  }

  lemma WrapWithout(view: seq<Resting>, i: nat)
    requires i < |view|
    ensures Wrap(Wrap(Total(view)) - view[i].remaining) == Wrap(Total(Without(view, i)))
  {
    TotalWithout(view, i);
    WrapSub(Total(view), view[i].remaining);
  }

  ghost function Neighbour(queue: seq<Order>, i: int): Order? {
    if 0 <= i < |queue| then queue[i] else null
  }

  /** Neighbours once the order at `i` is gone. */
  lemma Bypassed(queue: seq<Order>, i: nat, k: int)
    requires i < |queue|
    ensures Neighbour(Without(queue, i), k) == if k < i then Neighbour(queue, k) else Neighbour(queue, k + 1)
  {
    var rest := Without(queue, i);
    if 0 <= k < |rest| {
      assert rest[k] == queue[if k < i then k else k + 1];
    }
  }

  /** The links of all orders but the one at `i`, and the ends, bypass that one. */
  ghost predicate Bypasses(queue: seq<Order>, i: nat, head: Order?, tail: Order?)
    reads queue`prev, queue`next
  {
    && head == Neighbour(queue, if i == 0 then 1 else 0)
    && tail == Neighbour(queue, if i + 1 == |queue| then i - 1 else |queue| - 1)
    && (forall k {:trigger queue[k].prev} :: 0 <= k < |queue| && k != i ==>
          queue[k].prev == Neighbour(queue, if k == i + 1 then i - 1 else k - 1))
    && (forall k {:trigger queue[k].next} :: 0 <= k < |queue| && k != i ==>
          queue[k].next == Neighbour(queue, if k + 1 == i then i + 1 else k + 1))
  }

  lemma ThreadedSnoc(queue: seq<Order>, order: Order, head: Order?)
    requires order.prev == Neighbour(queue, |queue| - 1) && order.next == null
    requires head == if queue == [] then order else Neighbour(queue, 0)
    requires forall k {:trigger queue[k].prev} :: 0 <= k < |queue| ==> queue[k].prev == Neighbour(queue, k - 1)
    requires forall k {:trigger queue[k].next} :: 0 <= k < |queue| ==>
      queue[k].next == if k + 1 == |queue| then order else Neighbour(queue, k + 1)
    ensures Threaded(queue + [order], head, order)
  {
    var longer := queue + [order];
    assert forall k :: 0 <= k < |queue| ==> longer[k] == queue[k];
  }

  lemma DistinctSnoc(queue: seq<Order>, order: Order)
    requires Distinct(queue) && order !in queue
    ensures Distinct(queue + [order])
  {
  }

  lemma ThreadedWithout(queue: seq<Order>, i: nat, head: Order?, tail: Order?)
    requires i < |queue| && Bypasses(queue, i, head, tail)
    ensures Threaded(Without(queue, i), head, tail)
  {
    hide Neighbour, Without;
    var rest := Without(queue, i);
    Bypassed(queue, i, 0);
    Bypassed(queue, i, |rest| - 1);
    forall k | 0 <= k < |rest|
      ensures rest[k].prev == Neighbour(rest, k - 1) && rest[k].next == Neighbour(rest, k + 1)
    {
      Bypassed(queue, i, k - 1);
      Bypassed(queue, i, k + 1);
      assert rest[k] == queue[if k < i then k else k + 1];
    }
  }

  /** The links thread `queue` in both directions between the ends `head` and `tail`. */
  ghost predicate Threaded(queue: seq<Order>, head: Order?, tail: Order?)
    reads queue`prev, queue`next
  {
    && head == Neighbour(queue, 0)
    && tail == Neighbour(queue, |queue| - 1)
    && (forall i {:trigger queue[i].prev} :: 0 <= i < |queue| ==> queue[i].prev == Neighbour(queue, i - 1))
    && (forall i {:trigger queue[i].next} :: 0 <= i < |queue| ==> queue[i].next == Neighbour(queue, i + 1))
  }

  ghost predicate Shows(queue: seq<Order>, view: seq<Resting>)
    reads queue`id, queue`trader, queue`side, queue`price, queue`quantity, queue`remaining, queue`sequence
  {
    && |queue| == |view|
    && forall i :: 0 <= i < |queue| ==> queue[i].Value() == view[i]
  }

  ghost predicate Distinct(queue: seq<Order>) {
    forall i, j :: 0 <= i < j < |queue| ==> queue[i] != queue[j]
  }

  function Without<T>(s: seq<T>, i: nat): (r: seq<T>)
    requires i < |s|
    ensures |r| == |s| - 1
    ensures forall k :: 0 <= k < |r| ==> r[k] == s[if k < i then k else k + 1]
  {
    s[..i] + s[i + 1..]
  }

  function With<T>(s: seq<T>, i: nat, x: T): (r: seq<T>)
    requires i <= |s|
    ensures |r| == |s| + 1 && r[i] == x
    ensures forall k :: 0 <= k < i ==> r[k] == s[k]
    ensures forall k :: i < k < |r| ==> r[k] == s[k - 1]
  {
    s[..i] + [x] + s[i..]
  }

  lemma WithMembers<T>(s: seq<T>, i: nat, x: T)
    requires i <= |s|
    ensures forall y :: y in With(s, i, x) <==> y == x || y in s
  {
    assert s == s[..i] + s[i..];
  }

  lemma WithoutMembers<T>(s: seq<T>, i: nat)
    requires i < |s|
    ensures forall y :: y in Without(s, i) ==> y in s
    ensures forall y :: y in s ==> y == s[i] || y in Without(s, i)
  {
    forall y | y in s && y != s[i]
      ensures y in Without(s, i)
    {
      var k :| 0 <= k < |s| && s[k] == y;
      assert y == Without(s, i)[if k < i then k else k - 1];
    }
  }

  lemma DistinctWithout(queue: seq<Order>, i: nat)
    requires Distinct(queue) && i < |queue|
    ensures Distinct(Without(queue, i)) && queue[i] !in Without(queue, i)
    ensures forall o :: o in queue ==> o == queue[i] || o in Without(queue, i)
  {
    WithoutMembers(queue, i);
  }

  lemma ShowsWithout(queue: seq<Order>, view: seq<Resting>, i: nat)
    requires Shows(queue, view) && i < |queue|
    ensures Shows(Without(queue, i), Without(view, i))
  {
  }

  lemma WrapFill(view: seq<Resting>, i: nat, traded: Quantity)
    requires i < |view| && traded <= view[i].remaining
    ensures Wrap(Wrap(Total(view)) - traded)
         == Wrap(Total(view[i := view[i].(remaining := view[i].remaining - traded)]))
  {
    var view' := view[i := view[i].(remaining := view[i].remaining - traded)];
    TotalWithout(view, i);
    TotalWithout(view', i);
    assert Without(view', i) == Without(view, i);
    WrapSub(Total(view), traded);
  }

  /** All resting orders at one price, oldest first. The running total is kept in 64-bit arithmetic. */
  class PriceLevel {
    const price: Price
    var head: Order?
    var tail: Order?
    var count: nat
    var total: Quantity
    ghost var queue: seq<Order>
    ghost var view: seq<Resting>

    /** The links describe `queue` without cycles, and its orders point back here. */
    ghost predicate Linked()
      reads `head, `tail, `count, `queue, queue`level, queue`prev, queue`next
    {
      && count == |queue|
      && Threaded(queue, head, tail)
      && Distinct(queue)
      && (forall o :: o in queue ==> o.level == this)
    }

    /** Besides, `view` is what the queued orders hold, and the running total is their sum. */
    ghost predicate Valid()
      reads this, queue
    {
      Linked() && Shows(queue, view) && total == Wrap(Total(view))
    }

    constructor (price: Price)
      ensures Valid() && queue == [] && view == [] && this.price == price
    {
      this.price := price;
      head, tail, count, total := null, null, 0, 0;
      queue, view := [], [];
    }

    lemma Facts()
      requires Valid()
      ensures Linked() && Shows(queue, view) && total == Wrap(Total(view))
      ensures |queue| == |view| && Distinct(queue)
      ensures head == Neighbour(queue, 0)
      ensures forall o :: o in queue ==> o.level == this
      ensures forall i :: 0 <= i < |queue| ==> queue[i].Value() == view[i]
    {
    }

    predicate IsEmpty()
      reads this
    {
      head == null
    }

    /** Appends an order at the tail. */
    method Enqueue(order: Order)
      requires Valid() && order !in queue
      modifies this, order`level, order`prev, order`next, queue`next
      ensures Valid()
      ensures queue == old(queue) + [order] && view == old(view) + [order.Value()]
    {
      hide Linked, Threaded, Distinct, Total, Wrap;
      WrapSnoc(view, order.Value());
      order.level := this;
      Attach(order);
      total := Wrap(total + order.remaining);
      view := view + [order.Value()];
    }

    /** Splices out the order at position `i`. */
    method Unlink(order: Order, ghost i: nat)
      requires Valid() && i < |queue| && queue[i] == order
      modifies this, queue`level, queue`prev, queue`next
      ensures Valid()
      ensures queue == Without(old(queue), i) && view == Without(old(view), i)
      ensures order.prev == null && order.next == null && order.level == null
    {
      hide Linked, Threaded, Distinct, Shows, Total, Wrap, Without, Neighbour;
      Facts();
      WrapWithout(view, i);
      ShowsWithout(queue, view, i);
      Detach(order, i);
      total := Wrap(total - order.remaining);
      view := Without(view, i);
    }

    /** The pointer surgery: the order becomes the tail. */
    method Attach(order: Order)
      requires Linked() && order !in queue && order.level == this
      modifies `head, `tail, `count, `queue, order`prev, order`next, queue`next
      ensures Linked() && queue == old(queue) + [order]
    {
      hide Shows, Total;
      order.prev := tail;
      order.next := null;
      if tail != null {
        tail.next := order;
      } else {
        head := order;
      }
      tail := order;
      ThreadedSnoc(queue, order, head);
      DistinctSnoc(queue, order);
      count := count + 1;
      queue := queue + [order];
    }

    /** Takes the order at `i` off the list. */
    method Detach(order: Order, ghost i: nat)
      requires Linked() && i < |queue| && queue[i] == order
      modifies `head, `tail, `count, `queue, queue`level, queue`prev, queue`next
      ensures Linked() && queue == Without(old(queue), i)
      ensures order.prev == null && order.next == null && order.level == null
    {
      hide Threaded, Distinct, Without;
      Splice(order, i);
      DistinctWithout(queue, i);
      order.level := null;
      count := count - 1;
      queue := Without(queue, i);
    }

    /** The pointer surgery: the neighbours of the order at `i`, or the ends of the list, bypass it. */
    method Splice(order: Order, ghost i: nat)
      requires Linked() && i < |queue| && queue[i] == order
      modifies `head, `tail, queue`prev, queue`next
      ensures Threaded(Without(queue, i), head, tail)
      ensures order.prev == null && order.next == null
    {
      hide Distinct, Neighbour, Without;
      Bypass(order, i);
      ThreadedWithout(queue, i, head, tail);
    }

    /** The links of the neighbours, and of the order itself. */
    method Bypass(order: Order, ghost i: nat)
      requires Linked() && i < |queue| && queue[i] == order
      modifies `head, `tail, queue`prev, queue`next
      ensures order.prev == null && order.next == null
      ensures Bypasses(queue, i, head, tail)
    {
      assert order.prev == Neighbour(queue, i - 1) && order.next == Neighbour(queue, i + 1);
      if order.prev != null {
        order.prev.next := order.next;
      } else {
        head := order.next;
      }
      if order.next != null {
        order.next.prev := order.prev;
      } else {
        tail := order.prev;
      }
      order.prev, order.next := null, null;
    }

    /** Takes `traded` units, which the order at `i` has already given up, off the running total. */
    method OnFill(traded: Quantity, ghost i: nat)
      requires Linked() && total == Wrap(Total(view))
      requires i < |queue| && |view| == |queue| && traded <= view[i].remaining
      requires Shows(queue, view[i := view[i].(remaining := view[i].remaining - traded)])
      modifies `total, `view
      ensures Valid() && view == old(view)[i := queue[i].Value()]
    {
      hide Linked, Threaded, Distinct, Total, Wrap;
      WrapFill(view, i, traded);
      total := Wrap(total - traded);
      view := view[i := view[i].(remaining := view[i].remaining - traded)];
    }

    /** Executes `traded` units of the order at `i`. */
    method Execute(order: Order, traded: Quantity, ghost i: nat)
      requires Valid() && i < |queue| && queue[i] == order && traded <= order.remaining
      modifies `total, `view, order`remaining
      ensures Valid() && view == old(view)[i := order.Value()]
      ensures order.Value() == old(order.Value()).(remaining := old(order.remaining) - traded)
    {
      var filled := order.Fill(traded);
      OnFill(traded, i);
    }

    /** Walks the queue along the forward links, oldest first. */
    method ForEach() returns (seen: seq<Resting>)
      requires Valid()
      ensures seen == view
    {
      seen := [];
      var o := head;
      while o != null
        invariant |seen| <= |queue| && o == Neighbour(queue, |seen|)
        invariant seen == view[..|seen|]
        decreases |queue| - |seen|
      {
        assert o == queue[|seen|] && o.Value() == view[|seen|];
        seen := seen + [o.Value()];
        assert o.next == Neighbour(queue, |seen|);
        o := o.next;
      }
    }
  }

  // ---- The pool ------------------------------------------------------------------------------------------------

  /** The slots of all blocks. */
  ghost function SlotsOf(blocks: seq<seq<Order>>): set<Order> {
    set b, o | b in blocks && o in b :: o
  }

  /** The free list runs through `free` from `head`. */
  ghost predicate FreeChain(free: seq<Order>, head: Order?)
    reads free`nextFree
  {
    && head == Neighbour(free, 0)
    && forall i {:trigger free[i].nextFree} :: 0 <= i < |free| ==> free[i].nextFree == Neighbour(free, i + 1)
  }

  /** Every slot is either live or on the free list, once. */
  ghost predicate Partition(slots: set<Order>, live: set<Order>, free: seq<Order>) {
    && Distinct(free)
    && live <= slots
    && (forall o :: o in free ==> o in slots && o !in live)
    && (forall o :: o in slots ==> o in live || o in free)
  }

  lemma PartitionPop(slots: set<Order>, live: set<Order>, free: seq<Order>)
    requires Partition(slots, live, free) && free != []
    ensures Partition(slots, live + {free[0]}, free[1..])
  {
    assert free == [free[0]] + free[1..];
  }

  lemma PartitionPush(slots: set<Order>, live: set<Order>, free: seq<Order>, o: Order)
    requires Partition(slots, live, free) && o in live
    ensures Partition(slots, live - {o}, [o] + free)
  {
  }

  ghost predicate SameElements(xs: seq<Order>, ys: seq<Order>) {
    (forall o :: o in xs ==> o in ys) && (forall o :: o in ys ==> o in xs)
  }

  /** The slots of a new block join the free list. */
  lemma PartitionGrow(blocks: seq<seq<Order>>, live: set<Order>, free: seq<Order>, block: seq<Order>, more: seq<Order>)
    requires Partition(SlotsOf(blocks), live, free)
    requires Distinct(more + free) && SameElements(more, block) && (forall o :: o in more ==> o !in live)
    ensures Partition(SlotsOf(blocks + [block]), live, more + free)
    ensures SlotsOf(blocks + [block]) == SlotsOf(blocks) + (set o | o in block)
  {
    var grown := SlotsOf(blocks + [block]);
    forall o
      ensures o in grown <==> o in SlotsOf(blocks) || o in block
    {
      if o in block {
        assert block in blocks + [block];
      } else if o in SlotsOf(blocks) {
        var b :| b in blocks && o in b;
        assert b in blocks + [block];
      }
    }
  }

  /** The size of block `k`, and of the first `k` blocks together. */
  function BlockSize(first: nat, k: nat): nat {
    if k == 0 then first else 2 * BlockSize(first, k - 1)
  }

  function PoolSize(first: nat, k: nat): nat {
    if k == 0 then 0 else PoolSize(first, k - 1) + BlockSize(first, k - 1)
  }

  /** After `k` blocks the pool has first * (2^k - 1) slots. */
  lemma {:induction false} PoolGrowsGeometrically(first: nat, k: nat)
    ensures BlockSize(first, k) == first * Bits.Pow2(k)
    ensures PoolSize(first, k) == first * (Bits.Pow2(k) - 1)
    decreases k
  {
    if k > 0 {
      PoolGrowsGeometrically(first, k - 1);
      Distribute(first, Bits.Pow2(k - 1));
    }
  }

  lemma Distribute(first: nat, p: nat)
    ensures first * (2 * p) == 2 * (first * p)
    ensures first * (2 * p - 1) == first * (p - 1) + first * p
  {
  }

  /** A LIFO free list over geometrically growing blocks. */
  class MemoryPool {
    const initialBlock: nat
    var blocks: seq<seq<Order>>
    var freeList: Order?
    var slotsPerBlock: nat
    var capacity: nat
    var liveCount: nat
    ghost var free: seq<Order>
    ghost var live: set<Order>
    ghost var slots: set<Order>

    /** The free list is acyclic and shares the slots with the live set. */
    ghost predicate Valid()
      reads `blocks, `freeList, `slotsPerBlock, `capacity, `liveCount, `free, `live, `slots, free`nextFree
    {
      && FreeChain(free, freeList)
      && slots == SlotsOf(blocks)
      && Partition(slots, live, free)
      && liveCount == |live|
      && liveCount + |free| == capacity
      && initialBlock >= 1 && slotsPerBlock >= 1
      && slotsPerBlock == BlockSize(initialBlock, |blocks|)
      && capacity == PoolSize(initialBlock, |blocks|)
    }

    constructor (initialCapacity: nat)
      ensures Valid() && live == {} && fresh(slots)
      ensures initialBlock == (if initialCapacity == 0 then 1 else initialCapacity) && |blocks| == 1
    {
      initialBlock := if initialCapacity == 0 then 1 else initialCapacity;
      slotsPerBlock := if initialCapacity == 0 then 1 else initialCapacity;
      blocks, freeList, capacity, liveCount := [], null, 0, 0;
      free, live, slots := [], {}, {};
      new;
      Grow();
    }

    /** Threads the slots of a new block onto the front of the free list; the next block will be twice as large. */
    method Grow()
      requires Valid()
      modifies `blocks, `freeList, `slotsPerBlock, `capacity, `free, `slots
      ensures Valid() && |free| > |old(free)| && (forall o :: o in free ==> o in old(free) || fresh(o))
      ensures |blocks| == |old(blocks)| + 1
      ensures old(slots) <= slots && fresh(slots - old(slots))
    {
      hide FreeChain, Neighbour;
      var n := slotsPerBlock;
      ghost var more;
      ghost var free0 := free;
      var block;
      block, more := ThreadBlock(n);
      PartitionGrow(blocks, live, free0, block, more);
      blocks := blocks + [block];
      slots := SlotsOf(blocks);
      capacity := capacity + n;
      slotsPerBlock := slotsPerBlock * 2;
    }

    /** Allocates `n` slots and pushes each on the free list. */
    method ThreadBlock(n: nat) returns (block: seq<Order>, ghost more: seq<Order>)
      requires FreeChain(free, freeList) && Distinct(free)
      modifies `freeList, `free
      ensures FreeChain(free, freeList) && Distinct(free)
      ensures |block| == |more| == n && free == more + old(free) && SameElements(more, block)
      ensures forall o :: o in block ==> fresh(o)
    {
      hide FreeChain, Distinct, Neighbour;
      block, more := [], [];
      while |block| < n
        invariant |block| == |more| <= n && free == more + old(free)
        invariant SameElements(more, block) && (forall o :: o in block ==> fresh(o))
        invariant FreeChain(free, freeList) && Distinct(free)
      {
        var node := new Order.Slot();
        node.nextFree := freeList;
        FreshFront(node);
        freeList := node;
        free, more := [node] + free, [node] + more;
        block := block + [node];
      }
    }

    /** A slot linked in front of the free list extends its chain. */
    lemma FreshFront(node: Order)
      requires FreeChain(free, freeList) && Distinct(free)
      requires node !in free && node.nextFree == freeList
      ensures FreeChain([node] + free, node) && Distinct([node] + free)
    {
    }

    /** Takes the slot at the head of the free list, growing first if there is none, and constructs an order in it. */
    method Acquire(id: OrderId, trader: TraderId, side: Side, price: Price, quantity: Quantity) returns (order: Order)
      requires Valid()
      modifies this, free
      ensures Valid() && live == old(live) + {order} && order !in old(live)
      ensures old(freeList) != null ==> order == old(freeList) && blocks == old(blocks)
      ensures order in old(free) || fresh(order)
      ensures old(slots) <= slots && fresh(slots - old(slots))
      ensures order.prev == null && order.next == null && order.level == null
      ensures order.Value() == Resting(id, trader, side, price, quantity, quantity, 0)
    {
      hide FreeChain, Partition, SlotsOf, BlockSize, PoolSize;
      Refill();
      assert free[0] in free;
      order := Pop();
      order.Construct(id, trader, side, price, quantity);
    }

    /** Grows if there is no free slot. */
    method Refill()
      requires Valid()
      modifies `blocks, `freeList, `slotsPerBlock, `capacity, `free, `slots
      ensures Valid() && |free| > 0 && (forall o :: o in free ==> o in old(free) || fresh(o))
      ensures old(freeList) != null ==> freeList == old(freeList) && blocks == old(blocks)
      ensures old(slots) <= slots && fresh(slots - old(slots))
    {
      hide Partition, BlockSize, PoolSize;
      if freeList == null {
        Grow();
      }
    }

    method Pop() returns (slot: Order)
      requires Valid() && |free| > 0
      modifies `freeList, `liveCount, `free, `live
      ensures Valid() && live == old(live) + {slot} && slot !in old(live) && free == old(free)[1..]
      ensures slot == old(freeList) && slot == old(free)[0]
    {
      PartitionPop(slots, live, free);
      assert freeList.nextFree == Neighbour(free, 1);
      slot := freeList;
      freeList := slot.nextFree;
      liveCount := liveCount + 1;
      live, free := live + {slot}, free[1..];
    }

    /** Returns a live order's slot to the head of the free list; null is ignored. */
    method Release(order: Order?)
      requires Valid() && (order != null ==> order in live)
      modifies this, (if order == null then {} else {order})`nextFree
      ensures Valid() && blocks == old(blocks) && slots == old(slots)
      ensures order == null ==> live == old(live) && free == old(free)
      ensures order != null ==> live == old(live) - {order} && freeList == order && free == [order] + old(free)
    {
      if order == null {
        return;
      }
      Push(order);
    }

    method Push(slot: Order)
      requires Valid() && slot in live
      modifies `freeList, `liveCount, `free, `live, slot`nextFree
      ensures Valid() && live == old(live) - {slot} && freeList == slot && free == [slot] + old(free)
    {
      PartitionPush(slots, live, free, slot);
      slot.nextFree := freeList;
      freeList := slot;
      liveCount := liveCount - 1;
      live, free := live - {slot}, [slot] + free;
    }
  }
}
