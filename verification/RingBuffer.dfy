/** The single-producer single-consumer ring as a two-thread transition system: every load, slot access and store is a
    step of its own, acquire loads may be stale, and the published indices are 64-bit words that wrap. */
module RingBuffer {
  import opened Types
  import opened Bits

  /** Where the producer is inside `push`, with its locals. */
  datatype Producer<T> =
    | Idle
    | GotTail(value: T, tail: U64)
    | Admitted(value: T, tail: U64)
    | Constructed(value: T, tail: U64)

  /** Where the consumer is inside `pop`, with its locals. */
  datatype Consumer<T> =
    | Waiting
    | GotHead(head: U64)
    | NonEmpty(head: U64)
    | MovedOut(head: U64, out: T)
    | Destroyed(head: U64, out: T)

  /** `head`, `tail`, `slots` and the two program points are the machine; `headStores` and `tailStores` are every word
      ever stored to an index, the initial one first, from which an acquire load may read. The rest is bookkeeping: how
      often each index was stored since (`heads`, `tails`), the latest of those stores each thread has observed on the
      other's index, the values pushed and popped so far, and whether a step ever constructed into a live slot or read
      or destroyed a dead one. */
  datatype Ring<T> = Ring(capacity: nat, head: U64, tail: U64, slots: seq<Option<T>>,
                          producer: Producer<T>, consumer: Consumer<T>,
                          headStores: seq<U64>, tailStores: seq<U64>,
                          heads: nat, tails: nat, seenHead: nat, seenTail: nat,
                          pushed: seq<T>, popped: seq<T>, fault: bool)

  /** One step of one thread. `seen` names the store an acquire load reads from. */
  datatype Action<T> =
    | StartPush(value: T)
    | CheckFull(seen: nat)
    | Construct
    | PublishTail
    | StartPop
    | CheckEmpty(seen: nat)
    | MoveOut
    | Destroy
    | PublishHead

  function Word(counter: int): U64 {
    counter % TWO_64
  }

  function SlotOf(s: Ring, index: U64): nat
    requires s.capacity > 0
  {
    And(index, s.capacity - 1)
  }

  /** The full test, on words. */
  predicate Full(capacity: nat, tail: U64, head: U64) {
    Word(Word(tail + 1) - head) > capacity
  }

  /** Program order, plus coherence: a thread's acquire loads of one index never go back, and never run ahead. */
  predicate Enabled<T>(s: Ring<T>, a: Action<T>) {
    match a
    case StartPush(_) => s.producer.Idle?
    case CheckFull(seen) => s.producer.GotTail? && s.seenHead <= seen < |s.headStores|
    case Construct => s.producer.Admitted?
    case PublishTail => s.producer.Constructed?
    case StartPop => s.consumer.Waiting?
    case CheckEmpty(seen) => s.consumer.GotHead? && s.seenTail <= seen < |s.tailStores|
    case MoveOut => s.consumer.NonEmpty?
    case Destroy => s.consumer.MovedOut?
    case PublishHead => s.consumer.Destroyed?
  }

  predicate Sized(s: Ring) {
    s.capacity == |s.slots| > 0
  }

  function Step<T>(s: Ring<T>, a: Action<T>): (r: Ring<T>)
    requires Enabled(s, a) && Sized(s)
    ensures Sized(r)
  {
    match a
    case StartPush(v) => s.(producer := GotTail(v, s.tail))
    case CheckFull(seen) =>
      var p := s.producer;
      s.(seenHead := seen,
         producer := if Full(s.capacity, p.tail, s.headStores[seen]) then Idle else Admitted(p.value, p.tail))
    case Construct =>
      var p := s.producer;
      var i := SlotOf(s, p.tail);
      s.(slots := s.slots[i := Some(p.value)], producer := Constructed(p.value, p.tail),
         fault := s.fault || s.slots[i].Some?)
    case PublishTail =>
      var p := s.producer;
      s.(tail := Word(p.tail + 1), tailStores := s.tailStores + [Word(p.tail + 1)], tails := s.tails + 1,
         pushed := s.pushed + [p.value], producer := Idle)
    case StartPop => s.(consumer := GotHead(s.head))
    case CheckEmpty(seen) =>
      var c := s.consumer;
      s.(seenTail := seen, consumer := if c.head == s.tailStores[seen] then Waiting else NonEmpty(c.head))
    case MoveOut =>
      var c := s.consumer;
      var slot := s.slots[SlotOf(s, c.head)];
      if slot.Some? then s.(consumer := MovedOut(c.head, slot.value)) else s.(fault := true)
    case Destroy =>
      var c := s.consumer;
      var i := SlotOf(s, c.head);
      s.(slots := s.slots[i := None], consumer := Destroyed(c.head, c.out), fault := s.fault || s.slots[i].None?)
    case PublishHead =>
      var c := s.consumer;
      s.(head := Word(c.head + 1), headStores := s.headStores + [Word(c.head + 1)], heads := s.heads + 1,
         popped := s.popped + [c.out], consumer := Waiting)
  }

  function Init<T>(capacity: nat): Ring<T> {
    Ring(capacity, 0, 0, seq(capacity, _ => None), Idle, Waiting, [0], [0], 0, 0, 0, 0, [], [], false)
  }

  // ---- The invariant -------------------------------------------------------------------------------------------

  predicate Holding<T>(p: Producer<T>) {
    p.Admitted? || p.Constructed?
  }

  predicate Taking<T>(c: Consumer<T>) {
    c.NonEmpty? || c.MovedOut? || c.Destroyed?
  }

  /** The first counter whose slot is still constructed, and the first whose slot is not. */
  function FirstLive(s: Ring): nat {
    if s.consumer.Destroyed? then s.heads + 1 else s.heads
  }

  function FirstDead(s: Ring): nat {
    if s.producer.Constructed? then s.tails + 1 else s.tails
  }

  ghost predicate Shape(s: Ring) {
    IsPow2(s.capacity) && 2 <= s.capacity <= TWO_63 && |s.slots| == s.capacity
  }

  /** Indices are the counters modulo 2^64; each thread's knowledge lags behind by less than a lap. */
  ghost predicate Indices(s: Ring) {
    && s.head == Word(s.heads) && s.tail == Word(s.tails)
    && s.seenHead <= s.heads <= s.seenTail <= s.tails <= s.seenHead + s.capacity
    && |s.pushed| == s.tails && s.popped == s.pushed[..s.heads]
  }

  ghost predicate Locals(s: Ring) {
    && (!s.producer.Idle? ==> s.producer.tail == s.tail)
    && (Holding(s.producer) ==> s.tails < s.seenHead + s.capacity)
    && (!s.consumer.Waiting? ==> s.consumer.head == s.head)
    && (Taking(s.consumer) ==> s.heads < s.seenTail)
    && (s.consumer.MovedOut? || s.consumer.Destroyed? ==> s.heads < |s.pushed| && s.consumer.out == s.pushed[s.heads])
  }

  /** The slot of a counter. */
  function Lap(capacity: nat, c: nat): (i: nat)
    requires capacity > 0
    ensures i < capacity
  {
    c % capacity
  }

  function ValueAt<T>(s: Ring<T>, c: nat): Option<T> {
    if c < |s.pushed| then Some(s.pushed[c])
    else if s.producer.Constructed? then Some(s.producer.value)
    else None
  }

  /** The slots hold the pushed and not yet popped values, in a window of at most one lap; the rest of the lap
      is dead. */
  ghost predicate Contents(s: Ring) {
    && |s.slots| == s.capacity > 0
    && (forall c: nat :: FirstLive(s) <= c < FirstDead(s) ==> s.slots[Lap(s.capacity, c)] == ValueAt(s, c))
    && (forall c: nat :: FirstDead(s) <= c < FirstLive(s) + s.capacity ==> s.slots[Lap(s.capacity, c)] == None)
  }

  /** The k-th store to an index, counting the initial word as number 0, wrote k modulo 2^64. */
  ghost predicate Counts(stores: seq<U64>, n: nat) {
    |stores| == n + 1 && forall k :: 0 <= k < |stores| ==> stores[k] == Word(k)
  }

  ghost predicate Stored(s: Ring) {
    Counts(s.headStores, s.heads) && Counts(s.tailStores, s.tails)
  }

  ghost predicate Inv(s: Ring) {
    Shape(s) && Indices(s) && Stored(s) && Locals(s) && Contents(s) && !s.fault
  }

  // ---- Words and laps ------------------------------------------------------------------------------------------

  /** Counters less than one lap apart use different slots. */
  lemma LapsApart(capacity: nat, c: nat, d: nat)
    requires c < d < c + capacity
    ensures Lap(capacity, c) != Lap(capacity, d)
  {
    var q, r := c / capacity, c % capacity;
    assert c == q * capacity + r;
    if r + (d - c) < capacity {
      DivModUnique(d, capacity, q, r + (d - c));
    } else {
      assert (q + 1) * capacity == q * capacity + capacity;
      DivModUnique(d, capacity, q + 1, r + (d - c) - capacity);
    }
  }

  lemma NextLap(capacity: nat, c: nat)
    requires capacity > 0
    ensures Lap(capacity, c + capacity) == Lap(capacity, c)
  {
    var q, r := c / capacity, c % capacity;
    assert c == q * capacity + r;
    assert (q + 1) * capacity == q * capacity + capacity;
    DivModUnique(c + capacity, capacity, q + 1, r);
  }

  /** A power of two up to 2^63 divides 2^64. */
  lemma {:induction false} DividesWord(n: nat, m: nat)
    requires n <= m
    ensures exists k: nat :: Pow2(m) == k * Pow2(n)
    decreases m
  {
    if n == m {
      assert Pow2(m) == 1 * Pow2(n);
    } else {
      DividesWord(n, m - 1);
      var k: nat :| Pow2(m - 1) == k * Pow2(n);
      assert Pow2(m) == 2 * (k * Pow2(n)) == (2 * k) * Pow2(n);
    }
  }

  lemma Distribute(q: nat, k: nat, capacity: nat, q': nat)
    ensures q * (k * capacity) + q' * capacity == (q * k + q') * capacity
  {
    assert q * (k * capacity) == (q * k) * capacity;
  }

  lemma Nested(x: nat, q: nat, m: nat, w: nat, k: nat, capacity: nat, q': nat, r: nat)
    requires x == q * m + w && m == k * capacity && w == q' * capacity + r
    ensures x == (q * k + q') * capacity + r
  {
    Distribute(q, k, capacity, q');
  }

  lemma Remainder(x: nat, capacity: nat, q: nat, r: nat)
    requires x == q * capacity + r && r < capacity
    ensures x % capacity == r
  {
    DivModUnique(x, capacity, q, r);
  }

  lemma ModOfMod(x: nat, m: nat, k: nat, capacity: nat)
    requires m == k * capacity && m > 0 && capacity > 0
    ensures x % m % capacity == x % capacity
  {
    var q, w := x / m, x % m;
    DivMod(x, m);
    RestMod(x, q, m, w, k, capacity);
  }

  lemma RestMod(x: nat, q: nat, m: nat, w: nat, k: nat, capacity: nat)
    requires x == q * m + w && m == k * capacity && capacity > 0
    ensures w % capacity == x % capacity
  {
    var q', r := w / capacity, w % capacity;
    DivMod(w, capacity);
    Nested(x, q, m, w, k, capacity, q', r);
    Remainder(x, capacity, q * k + q', r);
  }

  /** Masking a wrapped index finds the slot of its counter, through any number of overflows. */
  lemma MaskedIndex(capacity: nat, counter: nat)
    requires IsPow2(capacity) && capacity <= TWO_63
    ensures And(Word(counter), capacity - 1) == Lap(capacity, counter)
  {
    var n: nat :| capacity == Pow2(n);
    Pow2Of64();
    if n > 63 {
      Pow2Monotone(64, n);
    }
    DividesWord(n, 64);
    var k: nat :| Pow2(64) == k * Pow2(n);
    MaskIsMod(Word(counter), n, capacity);
    ModOfMod(counter, TWO_64, k, capacity);
  }

  /** The full test on words decides the full test on counters, for any load that is less than a lap behind. */
  lemma FullIsExact(capacity: nat, tails: nat, seen: nat)
    requires capacity <= TWO_63 && seen <= tails <= seen + capacity
    ensures Full(capacity, Word(tails), Word(seen)) <==> tails + 1 - seen > capacity
  {
    hide Word;
    NextWord(tails);
    WordSub(tails + 1, seen);
    SmallWord(tails + 1 - seen);
  }

  /** Likewise the empty test. */
  lemma EmptyIsExact(capacity: nat, heads: nat, seen: nat)
    requires capacity <= TWO_63 && heads <= seen <= heads + capacity
    ensures Word(heads) == Word(seen) <==> heads == seen
  {
    hide Word;
    WordSub(seen, heads);
    SmallWord(seen - heads);
    SmallWord(0);
  }

  lemma NextWord(counter: nat)
    ensures Word(Word(counter) + 1) == Word(counter + 1)
  {
    var q := counter / TWO_64;
    assert Word(counter) + 1 == counter + 1 + (-q) * TWO_64;
    WordShift(counter + 1, -q);
  }

  lemma WordShift(x: int, q: int)
    ensures Word(x + q * TWO_64) == Word(x)
  {
  }

  lemma WordSub(x: int, y: int)
    ensures Word(Word(x) - Word(y)) == Word(x - y)
  {
    var p, q := x / TWO_64, y / TWO_64;
    assert Word(x) - Word(y) == (x - y) + (q - p) * TWO_64;
    WordShift(x - y, q - p);
  }

  lemma SmallWord(x: int)
    requires 0 <= x < TWO_64
    ensures Word(x) == x
  {
  }

  // ---- Every step keeps the invariant --------------------------------------------------------------------------

  lemma InitHolds<T>(capacity: nat)
    requires IsPow2(capacity) && 2 <= capacity <= TWO_63
    ensures Inv(Init<T>(capacity))
  {
  }

  lemma ConstructKeeps<T>(s: Ring<T>)
    requires Inv(s) && s.producer.Admitted?
    ensures Inv(Step(s, Construct))
  {
    hide Lap, Full, And, Pow2;
    var s' := Step(s, Construct);
    MaskedIndex(s.capacity, s.tails);
    forall c: nat | FirstLive(s) <= c < FirstLive(s) + s.capacity && c != s.tails
      ensures Lap(s.capacity, c) != Lap(s.capacity, s.tails)
    {
      if c < s.tails {
        LapsApart(s.capacity, c, s.tails);
      } else {
        LapsApart(s.capacity, s.tails, c);
      }
    }
  }

  /** Destroying the oldest value frees its slot for the last counter of the next lap. */
  lemma DestroyEmpties<T>(s: Ring<T>)
    requires Inv(s) && s.consumer.MovedOut?
    ensures s.slots[SlotOf(s, s.consumer.head)].Some?
    ensures Contents(Step(s, Destroy))
  {
    hide Lap, Full, And, Pow2, Counts;
    var s' := Step(s, Destroy);
    MaskedIndex(s.capacity, s.heads);
    forall c: nat | s.heads < c < s.heads + s.capacity
      ensures Lap(s.capacity, c) != Lap(s.capacity, s.heads)
    {
      LapsApart(s.capacity, s.heads, c);
    }
    NextLap(s.capacity, s.heads);
  }

  lemma DestroyKeeps<T>(s: Ring<T>)
    requires Inv(s) && s.consumer.MovedOut?
    ensures Inv(Step(s, Destroy))
  {
    hide SlotOf, Contents, Counts;
    DestroyEmpties(s);
  }

  lemma StartPopKeeps<T>(s: Ring<T>)
    requires Inv(s) && s.consumer.Waiting?
    ensures Inv(Step(s, StartPop))
  {
    hide Counts, Lap;
    ContentsFramed(s, Step(s, StartPop));
  }

  lemma CheckEmptyKeeps<T>(s: Ring<T>, seen: nat)
    requires Inv(s) && Enabled(s, CheckEmpty(seen))
    ensures Inv(Step(s, CheckEmpty(seen)))
  {
    hide Lap, Word;
    EmptyIsExact(s.capacity, s.heads, seen);
    ContentsFramed(s, Step(s, CheckEmpty(seen)));
  }

  lemma MoveOutKeeps<T>(s: Ring<T>)
    requires Inv(s) && s.consumer.NonEmpty?
    ensures Inv(Step(s, MoveOut))
  {
    hide Counts, Lap, Full, And, Pow2;
    MaskedIndex(s.capacity, s.heads);
    ContentsFramed(s, Step(s, MoveOut));
  }

  lemma StartPushKeeps<T>(s: Ring<T>, a: Action<T>)
    requires Inv(s) && a.StartPush? && s.producer.Idle?
    ensures Inv(Step(s, a))
  {
    hide Counts, Lap;
  }

  lemma StepKeeps<T>(s: Ring<T>, a: Action<T>)
    requires Inv(s) && Enabled(s, a)
    ensures Inv(Step(s, a))
  {
    hide Inv, Step;
    match a
    case StartPush(_) => StartPushKeeps(s, a);
    case CheckFull(seen) => CheckFullKeeps(s, seen);
    case Construct => ConstructKeeps(s);
    case PublishTail => PublishTailKeeps(s);
    case StartPop => StartPopKeeps(s);
    case CheckEmpty(seen) => CheckEmptyKeeps(s, seen);
    case MoveOut => MoveOutKeeps(s);
    case Destroy => DestroyKeeps(s);
    case PublishHead => PublishHeadKeeps(s);
  }

  lemma CheckFullKeeps<T>(s: Ring<T>, seen: nat)
    requires Inv(s) && Enabled(s, CheckFull(seen))
    ensures Inv(Step(s, CheckFull(seen)))
  {
    hide Lap, And, Pow2;
    FullIsExact(s.capacity, s.tails, seen);
  }

  lemma PublishHeadKeeps<T>(s: Ring<T>)
    requires Inv(s) && s.consumer.Destroyed?
    ensures Inv(Step(s, PublishHead))
  {
    hide Lap, Full, And, Pow2, Word;
    NextWord(s.heads);
    ContentsFramed(s, Step(s, PublishHead));
  }

  /** The slots agree with the counters as long as neither the slots nor the constructed window changes. */
  lemma ContentsFramed<T>(s: Ring<T>, s': Ring<T>)
    requires Contents(s) && s'.slots == s.slots && s'.capacity == s.capacity && s'.pushed == s.pushed
    requires s'.producer == s.producer && FirstLive(s') == FirstLive(s) && FirstDead(s') == FirstDead(s)
    ensures Contents(s')
  {
  }

  lemma PublishTailKeeps<T>(s: Ring<T>)
    requires Inv(s) && s.producer.Constructed?
    ensures Inv(Step(s, PublishTail))
  {
    hide Lap, Full, And, Pow2, Word;
    NextWord(s.tails);
  }

  // ---- Runs ----------------------------------------------------------------------------------------------------

  predicate Legal<T>(s: Ring<T>, actions: seq<Action<T>>)
    requires Sized(s)
    decreases |actions|
  {
    actions == [] || (Enabled(s, actions[0]) && Legal(Step(s, actions[0]), actions[1..]))
  }

  function Run<T>(s: Ring<T>, actions: seq<Action<T>>): (r: Ring<T>)
    requires Sized(s) && Legal(s, actions)
    ensures Sized(r)
    decreases |actions|
  {
    if actions == [] then s else Run(Step(s, actions[0]), actions[1..])
  }

  lemma {:induction false} RunKeeps<T>(s: Ring<T>, actions: seq<Action<T>>)
    requires Inv(s) && Legal(s, actions)
    ensures Inv(Run(s, actions))
    decreases |actions|
  {
    if actions != [] {
      StepKeeps(s, actions[0]);
      RunKeeps(Step(s, actions[0]), actions[1..]);
    }
  }

  /** Safety of every interleaving with every admissible stale load. What was popped is a prefix of what was pushed;
      at most `capacity` values are in flight; no step touched a slot in the wrong state; and while both threads are at
      work on a slot, it is not the same one. A thread inside its critical section has acquired the store that hands the
      slot over: the consumer the tail that published the value, the producer the head that freed the slot. */
  lemma SpscSafe<T>(capacity: nat, actions: seq<Action<T>>)
    requires IsPow2(capacity) && 2 <= capacity <= TWO_63
    requires Legal(Init<T>(capacity), actions)
    ensures var s := Run(Init<T>(capacity), actions);
      && s.popped <= s.pushed
      && |s.pushed| - |s.popped| <= capacity
      && !s.fault
      && (Holding(s.producer) && Taking(s.consumer) ==> SlotOf(s, s.producer.tail) != SlotOf(s, s.consumer.head))
      && (forall k :: 0 <= k < |s.headStores| ==> s.headStores[k] == Word(k))
      && (forall k :: 0 <= k < |s.tailStores| ==> s.tailStores[k] == Word(k))
      && (Taking(s.consumer) ==> |s.popped| < s.seenTail)
      && (Holding(s.producer) ==> |s.pushed| < s.seenHead + capacity)
  {
    hide And;
    InitHolds<T>(capacity);
    RunKeeps(Init<T>(capacity), actions);
    CapacityFixed(Init<T>(capacity), actions);
    var s := Run(Init<T>(capacity), actions);
    MaskedIndex(capacity, s.tails);
    MaskedIndex(capacity, s.heads);
    if Holding(s.producer) && Taking(s.consumer) {
      LapsApart(capacity, s.heads, s.tails);
    }
  }

  lemma {:induction false} CapacityFixed<T>(s: Ring<T>, actions: seq<Action<T>>)
    requires Sized(s) && Legal(s, actions)
    ensures Run(s, actions).capacity == s.capacity
    decreases |actions|
  {
    if actions != [] {
      CapacityFixed(Step(s, actions[0]), actions[1..]);
    }
  }
}
