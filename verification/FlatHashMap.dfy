/** The open-addressing id index: linear probing, backward-shift deletion and rehashing, refining a finite map for every
    hash function. The three vectors are fields of type `seq`, since rehashing replaces them. */
module FlatHashMaps {
  import opened Types
  import opened Bits

  /** How many forward steps lead from slot `a` to slot `b` of a ring of `n` slots. */
  function Dist(n: nat, a: nat, b: nat): nat
    requires a < n && b < n
  {
    if a <= b then b - a else b + n - a
  }

  function HomeOf<K>(hash: K -> U64, n: nat, key: K): (h: nat)
    requires n > 0
    ensures h < n
  {
    And(hash(key), n - 1)
  }

  /** Slot `x` lies on the probe path of `key` up to, but not including, slot `s`. */
  predicate OnPath<K>(hash: K -> U64, n: nat, key: K, x: nat, s: nat)
    requires x < n && s < n
  {
    Dist(n, HomeOf(hash, n, key), x) < Dist(n, HomeOf(hash, n, key), s)
  }

  /** The probe-chain invariant: the path of every stored key is fully occupied, except perhaps for the slot `hole`. */
  ghost predicate Chained<K>(hash: K -> U64, keys: seq<K>, used: seq<bool>, hole: nat)
    requires |keys| == |used|
  {
    forall s, x :: 0 <= s < |keys| && 0 <= x < |keys| && used[s] && x != hole && OnPath(hash, |keys|, keys[s], x, s)
      ==> used[x]
  }

  /** `slots` says where each stored key is: every key exactly once. */
  ghost predicate Stored<K>(keys: seq<K>, used: seq<bool>, slots: map<K, nat>) {
    && |keys| == |used|
    && (forall k :: k in slots ==> slots[k] < |keys| && used[slots[k]] && keys[slots[k]] == k)
    && (forall s :: 0 <= s < |keys| && used[s] ==> keys[s] in slots && slots[keys[s]] == s)
  }

  lemma StoredSizes<K>(keys: seq<K>, used: seq<bool>, slots: map<K, nat>)
    requires Stored(keys, used, slots)
    ensures |keys| == |used|
    ensures forall k :: k in slots ==> slots[k] < |keys|
  {
  }

  /** The finite map a table stands for. */
  ghost function ContentsOf<K, V>(values: seq<V>, slots: map<K, nat>): map<K, V>
    requires forall k :: k in slots ==> slots[k] < |values|
  {
    map k | k in slots :: values[slots[k]]
  }

  lemma Overwrite<K, V>(keys: seq<K>, values: seq<V>, used: seq<bool>, slots: map<K, nat>, i: nat, value: V)
    requires Stored(keys, used, slots) && |values| == |keys|
    requires i < |keys| && used[i]
    ensures ContentsOf(values[i := value], slots) == ContentsOf(values, slots)[keys[i] := value]
  {
  }

  lemma StoreNew<K, V>(keys: seq<K>, values: seq<V>, used: seq<bool>, slots: map<K, nat>, i: nat, key: K, value: V)
    requires Stored(keys, used, slots) && |values| == |keys|
    requires i < |keys| && !used[i] && key !in slots
    ensures Stored(keys[i := key], used[i := true], slots[key := i])
    ensures ContentsOf(values[i := value], slots[key := i]) == ContentsOf(values, slots)[key := value]
    ensures |slots[key := i]| == |slots| + 1
  {
  }

  lemma Drop<K, V>(keys: seq<K>, values: seq<V>, used: seq<bool>, slots: map<K, nat>, i: nat)
    requires Stored(keys, used, slots) && |values| == |keys|
    requires i < |keys| && used[i]
    ensures Stored(keys, used[i := false], slots - {keys[i]})
    ensures ContentsOf(values, slots - {keys[i]}) == ContentsOf(values, slots) - {keys[i]}
    ensures |slots - {keys[i]}| == |slots| - 1
  {
    var rest := slots - {keys[i]};
    assert slots == rest[keys[i] := i];
  }

  lemma Move<K, V>(keys: seq<K>, values: seq<V>, used: seq<bool>, slots: map<K, nat>, i: nat, j: nat)
    requires Stored(keys, used, slots) && |values| == |keys|
    requires i < |keys| && j < |keys| && !used[i] && used[j]
    ensures Stored(keys[i := keys[j]], used[i := true][j := false], slots[keys[j] := i])
    ensures ContentsOf(values[i := values[j]], slots[keys[j] := i]) == ContentsOf(values, slots)
    ensures |slots[keys[j] := i]| == |slots|
  {
    assert slots[keys[j] := i].Keys == slots.Keys;
    assert |slots[keys[j] := i].Keys| == |slots.Keys|;
  }

  lemma SameSize<K, V>(values: seq<V>, slots: map<K, nat>)
    requires forall k :: k in slots ==> slots[k] < |values|
    ensures |ContentsOf(values, slots)| == |slots|
  {
    assert ContentsOf(values, slots).Keys == slots.Keys;
    assert |ContentsOf(values, slots).Keys| == |slots.Keys|;
  }

  /** The part of a table's map that is stored below slot `n`. */
  ghost function Upto<K, V>(values: seq<V>, slots: map<K, nat>, n: nat): map<K, V>
    requires forall k :: k in slots ==> slots[k] < |values|
  {
    map k | k in slots && slots[k] < n :: values[slots[k]]
  }

  lemma UptoStep<K, V>(keys: seq<K>, values: seq<V>, used: seq<bool>, slots: map<K, nat>, n: nat)
    requires Stored(keys, used, slots) && |values| == |keys| && n < |keys|
    ensures used[n] ==> Upto(values, slots, n + 1) == Upto(values, slots, n)[keys[n] := values[n]]
    ensures used[n] ==> |Upto(values, slots, n)| + 1 <= |slots|
    ensures !used[n] ==> Upto(values, slots, n + 1) == Upto(values, slots, n)
  {
    if used[n] {
      UptoSmaller(values, slots, n, keys[n]);
    }
  }

  lemma UptoSmaller<K, V>(values: seq<V>, slots: map<K, nat>, n: nat, key: K)
    requires forall k :: k in slots ==> slots[k] < |values|
    requires key in slots && slots[key] == n
    ensures |Upto(values, slots, n)| + 1 <= |slots|
  {
    var some := Upto(values, slots, n).Keys;
    Subset(some + {key}, slots.Keys);
    assert |some + {key}| == |some| + 1;
  }

  lemma Subset<K>(a: set<K>, b: set<K>)
    requires a <= b
    ensures |a| <= |b|
  {
    assert b == a + (b - a);
  }

  /** A table with fewer keys than slots has an empty slot. */
  lemma SomeEmpty<K>(keys: seq<K>, used: seq<bool>, slots: map<K, nat>) returns (e: nat)
    requires Stored(keys, used, slots) && |slots| < |keys|
    ensures e < |keys| && !used[e]
  {
    if forall s :: 0 <= s < |keys| ==> used[s] {
      Pigeonhole(keys, slots, |keys|);
    }
    e :| 0 <= e < |keys| && !used[e];
  }

  lemma {:induction false} Pigeonhole<K>(keys: seq<K>, slots: map<K, nat>, n: nat)
    requires n <= |keys|
    requires forall s :: 0 <= s < n ==> keys[s] in slots && slots[keys[s]] == s
    ensures |slots| >= n
    decreases n
  {
    if n > 0 {
      var rest := slots - {keys[n - 1]};
      Pigeonhole(keys, rest, n - 1);
      assert slots == rest[keys[n - 1] := n - 1];
    }
  }

  /** A probe that reached the free slot `i` without meeting `key` proves it absent. */
  lemma ProbeMisses<K>(hash: K -> U64, keys: seq<K>, used: seq<bool>, slots: map<K, nat>, key: K, i: nat)
    requires Stored(keys, used, slots) && Chained(hash, keys, used, |keys|)
    requires i < |keys| && !used[i]
    requires forall x :: 0 <= x < |keys| && OnPath(hash, |keys|, key, x, i) ==> keys[x] != key
    ensures key !in slots
  {
    forall k | k in slots
      ensures k != key
    {
      var s := slots[k];
      if OnPath(hash, |keys|, key, s, i) {
        assert keys[s] != key;
      } else {
        assert !OnPath(hash, |keys|, keys[s], i, s);
      }
    }
  }

  /** Occupying the free end of a key's path keeps the invariant. */
  lemma FillKeepsChains<K>(hash: K -> U64, keys: seq<K>, used: seq<bool>, key: K, i: nat)
    requires |keys| == |used| && Chained(hash, keys, used, |keys|)
    requires i < |keys| && !used[i]
    requires forall x :: 0 <= x < |keys| && OnPath(hash, |keys|, key, x, i) ==> used[x]
    ensures Chained(hash, keys[i := key], used[i := true], |keys|)
  {
  }

  // ---- Backward-shift deletion ---------------------------------------------------------------------------------

  /** The state of the shifting loop with the hole at `i` and the scan at `j`: chains are whole but for the hole, every
      slot the scan passed is occupied, and no entry it left behind has the hole on its path. */
  ghost predicate Shifting<K>(hash: K -> U64, keys: seq<K>, used: seq<bool>, i: nat, j: nat)
    requires |keys| == |used|
  {
    var n := |keys|;
    && i < n && j < n
    && !used[i]
    && Chained(hash, keys, used, i)
    && (forall s :: 0 <= s < n && 0 < Dist(n, i, s) <= Dist(n, i, j) ==>
          used[s] && !OnPath(hash, n, keys[s], i, s))
  }

  /** Emptying a slot of a whole table starts the shift there. */
  lemma FirstHole<K>(hash: K -> U64, keys: seq<K>, used: seq<bool>, i: nat)
    requires |keys| == |used| && i < |keys| && Chained(hash, keys, used, |keys|)
    ensures Shifting(hash, keys, used[i := false], i, i)
  {
  }

  /** The scan met an empty slot: every chain is whole again. */
  lemma ShiftEnds<K>(hash: K -> U64, keys: seq<K>, used: seq<bool>, i: nat, j: nat, j': nat)
    requires |keys| == |used| && Shifting(hash, keys, used, i, j)
    requires j' < |keys| && Dist(|keys|, i, j') == Dist(|keys|, i, j) + 1 && !used[j']
    ensures Chained(hash, keys, used, |keys|)
  {
    var n := |keys|;
    forall s | 0 <= s < n && used[s]
      ensures !OnPath(hash, n, keys[s], i, s)
    {
      if Dist(n, i, s) > Dist(n, i, j') {
        assert !OnPath(hash, n, keys[s], j', s);
      } else {
        assert s != j';
      }
    }
  }

  /** The entry at the scan stays: the hole is not on its path. */
  lemma ShiftSkips<K>(hash: K -> U64, keys: seq<K>, used: seq<bool>, i: nat, j: nat, j': nat)
    requires |keys| == |used| && Shifting(hash, keys, used, i, j)
    requires j' < |keys| && Dist(|keys|, i, j') == Dist(|keys|, i, j) + 1 && used[j']
    requires !OnPath(hash, |keys|, keys[j'], i, j')
    ensures Shifting(hash, keys, used, i, j')
  {
    var n := |keys|;
    forall s | 0 <= s < n && 0 < Dist(n, i, s) <= Dist(n, i, j')
      ensures used[s] && !OnPath(hash, n, keys[s], i, s)
    {
      assert Dist(n, i, s) == Dist(n, i, j') ==> s == j';
    }
  }

  /** The entry at the scan moves back into the hole, and leaves the next hole behind. */
  lemma ShiftMoves<K>(hash: K -> U64, keys: seq<K>, used: seq<bool>, i: nat, j: nat)
    requires |keys| == |used| && i < |keys| && j < |keys| && i != j
    requires !used[i] && used[j] && Chained(hash, keys, used, i)
    requires OnPath(hash, |keys|, keys[j], i, j)
    ensures Shifting(hash, keys[i := keys[j]], used[i := true][j := false], j, j)
  {
    var n, keys', used' := |keys|, keys[i := keys[j]], used[i := true][j := false];
    forall s, x | 0 <= s < n && 0 <= x < n && used'[s] && x != j && OnPath(hash, n, keys'[s], x, s)
      ensures used'[x]
    {
      if x != i && s == i {
        assert OnPath(hash, n, keys[j], x, j);
      }
    }
  }

  lemma StepCloser(n: nat, i: nat, j: nat, e: nat, j': nat)
    requires i < n && j < n && e < n && j' == if j + 1 == n then 0 else j + 1
    requires Dist(n, i, j) < Dist(n, i, e)
    ensures Dist(n, i, j') == Dist(n, i, j) + 1
    ensures Dist(n, j', e) < Dist(n, j, e)
    ensures j' != e ==> Dist(n, i, j') < Dist(n, i, e)
  {
  }

  /** The interval test for leaving an entry in place, of FlatHashMap.hpp:144-145: the home `k` is cyclically in (i, j]
      exactly when the hole `i` is not on the path from it to `j`. */
  lemma CannotMoveIsOffPath(n: nat, i: nat, j: nat, k: nat)
    requires i < n && j < n && k < n && i != j
    ensures (if i <= j then k > i && k <= j else k > i || k <= j) <==> !(Dist(n, k, i) < Dist(n, k, j))
  {
  }

  class FlatHashMap<K(==), V> {
    const hash: K -> U64
    const noKey: K
    const noValue: V
    var keys: seq<K>
    var values: seq<V>
    var used: seq<bool>
    var capacity: nat
    var mask: nat
    var size: nat
    ghost var slots: map<K, nat>

    /** Every key is stored once, at the slot `slots` names. */
    ghost predicate Holds()
      reads this
    {
      && |values| == |keys|
      && Stored(keys, used, slots)
    }

    ghost predicate Valid()
      reads this
    {
      && Holds()
      && |keys| == capacity && IsPow2(capacity) && mask == capacity - 1
      && size == |slots|
      && size * 8 < capacity * 7
      && Chained(hash, keys, used, |keys|)
    }

    ghost function Contents(): map<K, V>
      reads this
      requires Valid()
    {
      ContentsOf(values, slots)
    }

    /** An empty table. A capacity beyond 2^63 rounds to 0: such a table has no slot at all. */
    constructor (initialCapacity: U64, hash: K -> U64, noKey: K, noValue: V)
      ensures initialCapacity <= TWO_63 ==> Valid() && Contents() == map[]
      ensures initialCapacity <= TWO_63 ==>
                && IsPow2(capacity) && capacity >= 8 && capacity >= initialCapacity
                && forall p: nat :: IsPow2(p) && p >= 8 && p >= initialCapacity ==> capacity <= p
      ensures initialCapacity > TWO_63 ==> keys == [] && values == [] && used == [] && mask == TWO_64 - 1
      ensures this.hash == hash && this.noValue == noValue
    {
      this.hash, this.noKey, this.noValue := hash, noKey, noValue;
      keys, values, used := [], [], [];
      capacity, mask, size, slots := 0, 0, 0, map[];
      new;
      var c := RoundUpPow2(if initialCapacity < 8 then 8 else initialCapacity);
      if c > 0 {
        Rehash(c);
      } else {
        mask := TWO_64 - 1;
      }
    }

    function Home(key: K): (h: nat)
      reads this
      requires mask + 1 == |keys|
      ensures h == HomeOf(hash, |keys|, key)
    {
      And(hash(key), mask)
    }

    /** The slot of `key`, or the free slot where its probe ends. */
    method Probe(key: K) returns (i: nat)
      requires Valid()
      ensures i < |keys| == |used| == |values|
      ensures used[i] <==> key in slots
      ensures used[i] ==> slots[key] == i && keys[i] == key
      ensures forall x :: 0 <= x < |keys| && OnPath(hash, |keys|, key, x, i) ==> used[x]
    {
      hide Chained, HomeOf, IsPow2, And;
      ghost var e := SomeEmpty(keys, used, slots);
      ghost var h := HomeOf(hash, |keys|, key);
      i := Home(key);
      while used[i] && keys[i] != key
        invariant i < |keys|
        invariant Dist(|keys|, h, i) <= Dist(|keys|, h, e)
        invariant forall x :: 0 <= x < |keys| && OnPath(hash, |keys|, key, x, i) ==> used[x] && keys[x] != key
        decreases Dist(|keys|, h, e) - Dist(|keys|, h, i)
      {
        i := Next(i);
      }
      if !used[i] {
        ProbeMisses(hash, keys, used, slots, key, i);
      }
    }

    /** (i + 1) & mask. */
    function Next(i: nat): (j: nat)
      reads this
      requires mask + 1 == |keys| && IsPow2(|keys|) && i < |keys|
      ensures j < |keys|
      ensures j == if i + 1 == |keys| then 0 else i + 1
    {
      NextIsMasked(|keys|, i);
      And(i + 1, mask)
    }

    method Find(key: K) returns (r: Option<V>)
      requires Valid()
      ensures r == if key in Contents() then Some(Contents()[key]) else None
    {
      var i := Probe(key);
      r := if used[i] then Some(values[i]) else None;
    }

    predicate Crowded()
      reads this
    {
      (size + 1) * 8 >= capacity * 7
    }

    /** Adds or overwrites. The table is rebuilt only when one more entry would reach the load limit. */
    method Insert(key: K, value: V)
      requires Valid()
      modifies this
      ensures Valid() && Contents() == old(Contents())[key := value]
      ensures var crowded := (|old(Contents())| + 1) * 8 >= old(capacity) * 7;
        capacity == if crowded then 2 * old(capacity) else old(capacity)
      decreases if Crowded() then 2 else 0
    {
      HasRoom();
      if Crowded() {
        Doubling(capacity);
        Rehash(capacity * 2);
      }
      Put(key, value);
    }

    /** Insertion into a table with room. */
    method Put(key: K, value: V)
      requires Valid() && !Crowded()
      modifies this
      ensures Valid() && Contents() == old(Contents())[key := value]
      ensures capacity == old(capacity)
    {
      hide Chained, HomeOf, OnPath, IsPow2, Stored, ContentsOf;
      var i := Probe(key);
      if used[i] {
        Overwrite(keys, values, used, slots, i, value);
        values := values[i := value];
      } else {
        FillKeepsChains(hash, keys, used, key, i);
        StoreNew(keys, values, used, slots, i, key, value);
        keys, values, used, slots := keys[i := key], values[i := value], used[i := true], slots[key := i];
        size := size + 1;
      }
    }

    method Erase(key: K) returns (present: bool)
      requires Valid()
      modifies this
      ensures Valid() && Contents() == old(Contents()) - {key}
      ensures present <==> key in old(Contents())
      ensures capacity == old(capacity)
    {
      var i := Probe(key);
      present := used[i];
      if present {
        EraseAt(i);
      }
    }

    /** Everything but the hole at `i` is in order, the scan is at `j`, and it stops at the empty slot `e` at the
        latest. */
    ghost predicate Erasing(i: nat, j: nat, e: nat, content: map<K, V>)
      reads this
    {
      && Holds() && ContentsOf(values, slots) == content
      && |keys| == capacity && IsPow2(capacity) && mask == capacity - 1
      && size == |slots| && size * 8 < capacity * 7
      && Shifting(hash, keys, used, i, j)
      && e < |keys| && !used[e] && Dist(|keys|, i, j) < Dist(|keys|, i, e)
    }

    /** Empties slot `hole` and slides back the entries whose probe path runs through it. */
    method EraseAt(hole: nat)
      requires Valid() && hole < |keys| && used[hole]
      modifies this
      ensures Valid() && Contents() == old(Contents()) - {old(keys[hole])}
      ensures capacity == old(capacity)
    {
      ghost var e := SomeEmpty(keys, used, slots);
      ghost var content := Contents() - {keys[hole]};
      var i, j := hole, hole;
      Punch(i, e);
      while true
        invariant Erasing(i, j, e, content) && capacity == old(capacity)
        decreases Dist(|keys|, j, e)
      {
        ghost var j0 := j;
        j := Next(j);
        StepCloser(|keys|, i, j0, e, j);
        if !used[j] {
          ShiftEnds(hash, keys, used, i, j0, j);
          return;
        }
        var k := Home(keys[j]);
        CannotMoveIsOffPath(|keys|, i, j, k);
        var cannotMove := if i <= j then k > i && k <= j else k > i || k <= j;
        if cannotMove {
          ShiftSkips(hash, keys, used, i, j0, j);
        } else {
          Slide(i, j, j0, e, content);
          i := j;
        }
      }
    }

    /** Empties the occupied slot `i`; no entry has moved yet. */
    method Punch(i: nat, ghost e: nat)
      requires Valid() && i < |keys| && used[i] && e < |keys| && !used[e]
      modifies this
      ensures Erasing(i, i, e, old(Contents()) - {old(keys[i])}) && capacity == old(capacity)
    {
      hide Chained, HomeOf, ContentsOf;
      Drop(keys, values, used, slots, i);
      FirstHole(hash, keys, used, i);
      used, slots := used[i := false], slots - {keys[i]};
      size := size - 1;
    }

    /** Moves the entry at `j` into the hole at `i`. */
    method Slide(i: nat, j: nat, ghost j0: nat, ghost e: nat, ghost content: map<K, V>)
      requires Erasing(i, j0, e, content)
      requires j < |keys| && used[j] && Dist(|keys|, i, j) == Dist(|keys|, i, j0) + 1
      requires OnPath(hash, |keys|, keys[j], i, j)
      modifies this
      ensures Erasing(j, j, e, content) && |keys| == |old(keys)| && capacity == old(capacity)
    {
      hide ContentsOf, Chained, OnPath, HomeOf, IsPow2, Stored;
      StoredSizes(keys, used, slots);
      ShiftMoves(hash, keys, used, i, j);
      Move(keys, values, used, slots, i, j);
      keys, values, used, slots := keys[i := keys[j]], values[i := values[j]], used[i := true][j := false],
        slots[keys[j] := i];
    }

    /** Empties the table and gives it `newCapacity` slots. */
    method Reset(newCapacity: nat)
      requires IsPow2(newCapacity) && newCapacity >= 2
      modifies this
      ensures Valid() && capacity == newCapacity && Contents() == map[]
    {
      capacity, mask := newCapacity, newCapacity - 1;
      keys := seq(newCapacity, _ => noKey);
      values := seq(newCapacity, _ => noValue);
      used := seq(newCapacity, _ => false);
      size, slots := 0, map[];
    }

    /** How full the table is, in terms of what it holds. */
    lemma HasRoom()
      requires Valid()
      ensures size == |Contents()|
      ensures Crowded() <==> (|Contents()| + 1) * 8 >= capacity * 7
    {
      SameSize(values, slots);
    }

    /** Rebuilds the table with `newCapacity` slots. The insertions it makes never rebuild again. */
    method Rehash(newCapacity: nat)
      requires Holds() && IsPow2(newCapacity) && newCapacity >= 2 && |slots| * 8 < newCapacity * 7
      modifies this
      ensures Valid() && capacity == newCapacity && Contents() == ContentsOf(old(values), old(slots))
      ensures size == |old(slots)|
      decreases 1
    {
      var oldKeys, oldValues, oldUsed := keys, values, used;
      ghost var oldSlots := slots;
      Reset(newCapacity);
      hide Valid, Contents, Crowded;
      for s := 0 to |oldUsed|
        invariant Valid() && capacity == newCapacity
        invariant Contents() == Upto(oldValues, oldSlots, s)
      {
        UptoStep(oldKeys, oldValues, oldUsed, oldSlots, s);
        if oldUsed[s] {
          HasRoom();
          Insert(oldKeys[s], oldValues[s]);
        }
      }
      assert Contents() == ContentsOf(oldValues, oldSlots);
      HasRoom();
      SameSize(oldValues, oldSlots);
    }

    /** Makes room for `n` entries: inserting up to `n` keys will not rebuild the table. The 64-bit product wraps from
        n = 2^61 on, where the promise is kept only by a table that was large enough before. */
    method Reserve(n: U64)
      requires Valid()
      modifies this
      ensures Valid() && Contents() == old(Contents())
      ensures capacity >= old(capacity) && capacity >= (n * 8) % TWO_64 / 7 + 1
      ensures capacity != old(capacity) ==>
                IsPow2(capacity)
                && forall p: nat :: IsPow2(p) && p >= 2 && p >= (n * 8) % TWO_64 / 7 + 1 ==> capacity <= p
      ensures n * 8 < capacity * 7 <==> n < TWO_61 || n * 8 < old(capacity) * 7
    {
      hide IsPow2, ContentsOf, Chained, Stored;
      StoredSizes(keys, used, slots);
      var need := RoundUpPow2((n * 8) % TWO_64 / 7 + 1);
      RoomFor(n, need);
      if need > capacity {
        Rehash(need);
      }
    }
  }

  const TWO_61: int := 0x2000_0000_0000_0000

  /** The table size that reserving computes has room for `n` entries exactly when the product does not wrap. */
  lemma RoomFor(n: U64, need: nat)
    requires IsPow2(need) && need >= (n * 8) % TWO_64 / 7 + 1
    requires forall p: nat :: IsPow2(p) && p >= 2 && p >= (n * 8) % TWO_64 / 7 + 1 ==> need <= p
    ensures n < TWO_61 ==> n * 8 < need * 7
    ensures n >= TWO_61 ==> need * 7 <= n * 8
  {
    var wrapped: nat := (n * 8) % TWO_64;
    if n < TWO_61 {
      assert wrapped == n * 8;
    } else {
      Powers();
      assert wrapped <= n * 8 - TWO_64;
      assert wrapped / 7 + 1 <= 2 * TWO_61;
      if wrapped < 7 * TWO_61 {
        assert wrapped / 7 + 1 <= TWO_61;
      }
    }
  }

  lemma Powers()
    ensures IsPow2(TWO_61) && IsPow2(2 * TWO_61)
  {
    Pow2Of64();
    assert Pow2(62) == 2 * TWO_61;
    assert Pow2(61) == TWO_61;
  }

  /** The load test on 64-bit words agrees with the exact one, whatever the table holds, exactly up to 2^61 slots. */
  lemma LoadTestExact(capacity: nat)
    requires IsPow2(capacity) && 2 <= capacity <= TWO_63
    ensures (forall size: nat :: size * 8 < capacity * 7 ==>
              (WordCrowded(size, capacity) <==> (size + 1) * 8 >= capacity * 7))
       <==> capacity <= TWO_61
  {
    if capacity > TWO_61 {
      LargePowers(capacity);
      var size: nat := if capacity == 2 * TWO_61 then 3 * TWO_61 / 4 - 1 else TWO_61 / 2 - 1;
      EarlyAlarm(size, capacity);
    } else {
      forall size: nat | size * 8 < capacity * 7
        ensures WordCrowded(size, capacity) <==> (size + 1) * 8 >= capacity * 7
      {
        NoWrap((size + 1) * 8, capacity * 7);
      }
    }
  }

  lemma EarlyAlarm(size: nat, capacity: nat)
    requires (capacity == 2 * TWO_61 && size == 3 * TWO_61 / 4 - 1)
          || (capacity == 4 * TWO_61 && size == TWO_61 / 2 - 1)
    ensures WordCrowded(size, capacity) && size * 8 < capacity * 7 && (size + 1) * 8 < capacity * 7
  {
  }

  lemma NoWrap(x: nat, y: nat)
    requires x < TWO_64 && y < TWO_64
    ensures x % TWO_64 == x && y % TWO_64 == y
  {
  }

  predicate WordCrowded(size: nat, capacity: nat) {
    (size + 1) * 8 % TWO_64 >= capacity * 7 % TWO_64
  }

  lemma LargePowers(p: nat)
    requires IsPow2(p) && TWO_61 < p <= TWO_63
    ensures p == 2 * TWO_61 || p == 4 * TWO_61
  {
    var n: nat :| p == Pow2(n);
    Pow2Of64();
    assert Pow2(61) == TWO_61 && Pow2(62) == 2 * TWO_61 && Pow2(63) == 4 * TWO_61;
    if n <= 61 {
      Pow2Monotone(n, 61);
    } else if n >= 64 {
      Pow2Monotone(64, n);
    }
  }

  lemma Doubling(p: nat)
    requires IsPow2(p)
    ensures IsPow2(2 * p)
  {
    var n: nat :| p == Pow2(n);
    assert Pow2(n + 1) == 2 * p;
  }

  lemma NextIsMasked(n: nat, i: nat)
    requires IsPow2(n) && i < n
    ensures And(i + 1, n - 1) == if i + 1 == n then 0 else i + 1
  {
    var m: nat :| n == Pow2(m);
    MaskIsMod(i + 1, m, n);
    if i + 1 == n {
      DivModUnique(i + 1, n, 1, 0);
    } else {
      DivModUnique(i + 1, n, 0, i + 1);
    }
  }
}
