/** A cache with least-recently-used eviction, and the inclusion property: a larger cache always
    holds what a smaller one holds. */
module LruCache {
  import opened Wrappers
  import opened Digraph

  /** The order without one key (`VecDeque::retain`). */
  function Without<K(==)>(order: seq<K>, key: K): seq<K> {
    if order == [] then []
    else (if order[0] == key then [] else [order[0]]) + Without(order[1..], key)
  }

  /** The cache as a value; `order` runs from the least to the most recently used key. */
  datatype Lru<K, V> = Lru(capacity: nat, entries: map<K, V>, order: seq<K>)

  ghost predicate Valid<K(!new), V>(c: Lru<K, V>) {
    && NoDup(c.order)
    && Elems(c.order) == c.entries.Keys
    && |c.order| <= c.capacity
  }

  function Touch<K(==), V>(c: Lru<K, V>, key: K): Lru<K, V> {
    c.(order := Without(c.order, key) + [key])
  }

  function Get<K(==), V>(c: Lru<K, V>, key: K): (Lru<K, V>, Option<V>) {
    if key in c.entries then (Touch(c, key), Some(c.entries[key])) else (c, None)
  }

  /** What was there under the key, or else what had to be evicted. */
  function Insert<K(==), V>(c: Lru<K, V>, key: K, value: V): (Lru<K, V>, Option<V>) {
    var stored := c.(entries := c.entries[key := value]);
    if key in c.entries then (Touch(stored, key), Some(c.entries[key]))
    else
      var order := c.order + [key];
      if |order| <= c.capacity then (stored.(order := order), None)
      else
        var evicted := order[0];
        (Lru(c.capacity, stored.entries - {evicted}, order[1..]),
         if evicted in stored.entries then Some(stored.entries[evicted]) else None)
  }

  class LruCache<K(==, !new), V> {
    const capacity: nat
    var entries: map<K, V>
    var order: seq<K>

    function View(): Lru<K, V>
      reads this
    {
      Lru(capacity, entries, order)
    }

    constructor (capacity: nat)
      ensures View() == Lru(capacity, map[], []) && Valid(View())
    {
      this.capacity := capacity;
      entries, order := map[], [];
    }

    method GetEntry(key: K) returns (value: Option<V>)
      requires Valid(View())
      modifies this
      ensures (View(), value) == Get(old(View()), key)
      ensures Valid(View())
    {
      StepKeepsValid(View(), Op.Lookup(key));
      if key in entries {
        TouchKey(key);
        value := Some(entries[key]);
      } else {
        value := None;
      }
    }

    method InsertEntry(key: K, value: V) returns (previous: Option<V>)
      requires Valid(View())
      modifies this
      ensures (View(), previous) == Insert(old(View()), key, value)
      ensures Valid(View())
    {
      StepKeepsValid(View(), Op.Store(key, value));
      if key in entries {
        previous := Some(entries[key]);
        entries := entries[key := value];
        TouchKey(key);
      } else {
        entries := entries[key := value];
        order := order + [key];
        previous := None;
        if |order| > capacity {
          var evicted := order[0];
          order := order[1..];
          if evicted in entries {
            previous := Some(entries[evicted]);
          }
          entries := entries - {evicted};
        }
      }
    }

    method TouchKey(key: K)
      modifies this`order
      ensures View() == Touch(old(View()), key)
    {
      order := Without(order, key);
      order := order + [key];
    }
  }

  // ---- Traces ----

  datatype Op<K, V> = Lookup(key: K) | Store(key: K, value: V)

  function Step<K(==), V>(c: Lru<K, V>, op: Op<K, V>): (Lru<K, V>, Option<V>) {
    match op
    case Lookup(key) => Get(c, key)
    case Store(key, value) => Insert(c, key, value)
  }

  function Run<K(==), V>(c: Lru<K, V>, ops: seq<Op<K, V>>): Lru<K, V>
    decreases |ops|
  {
    if ops == [] then c else Run(Step(c, ops[0]).0, ops[1..])
  }

  function New<K, V>(capacity: nat): Lru<K, V> {
    Lru(capacity, map[], [])
  }

  lemma {:induction false} WithoutMembers<K(!new)>(order: seq<K>, key: K)
    ensures forall x :: x in Without(order, key) <==> x in order && x != key
    ensures key !in order ==> Without(order, key) == order
  {
    if order != [] {
      WithoutMembers(order[1..], key);
    }
  }

  lemma {:induction false} WithoutKeepsDistinct<K(!new)>(order: seq<K>, key: K)
    requires NoDup(order)
    ensures NoDup(Without(order, key))
    ensures |Without(order, key)| == |order| - if key in order then 1 else 0
  {
    if order != [] {
      var rest := Without(order[1..], key);
      WithoutKeepsDistinct(order[1..], key);
      WithoutMembers(order[1..], key);
      assert order[0] !in order[1..];
      assert order[0] !in rest;
      assert Without(order, key) == if order[0] == key then rest else [order[0]] + rest;
    }
  }

  lemma TouchKeepsValid<K(!new), V>(c: Lru<K, V>, key: K)
    requires Valid(c) && key in c.entries
    ensures Valid(Touch(c, key)) && |Touch(c, key).order| == |c.order|
  {
    assert key in Elems(c.order);
    WithoutMembers(c.order, key);
    WithoutKeepsDistinct(c.order, key);
    var rest := Without(c.order, key);
    forall x ensures x in rest + [key] <==> x in Elems(c.order) {}
  }

  lemma InsertNewKeepsValid<K(!new), V>(c: Lru<K, V>, key: K, value: V)
    requires Valid(c) && key !in c.entries
    ensures Valid(Insert(c, key, value).0)
  {
    assert key !in Elems(c.order);
    var order := c.order + [key];
    assert NoDup(order);
    assert Elems(order) == c.entries.Keys + {key};
    if |order| > c.capacity {
      assert order == [order[0]] + order[1..];
      assert Elems(order[1..]) == Elems(order) - {order[0]};
    }
  }

  /** Keys and order stay the same duplicate-free set, and the size stays within the capacity. */
  lemma StepKeepsValid<K(!new), V>(c: Lru<K, V>, op: Op<K, V>)
    requires Valid(c)
    ensures Valid(Step(c, op).0) && Step(c, op).0.capacity == c.capacity
  {
    match op
    case Lookup(key) =>
      if key in c.entries { TouchKeepsValid(c, key); }
    case Store(key, value) =>
      if key in c.entries {
        TouchKeepsValid(c.(entries := c.entries[key := value]), key);
      } else {
        InsertNewKeepsValid(c, key, value);
      }
  }

  lemma {:induction false} RunKeepsValid<K(!new), V>(c: Lru<K, V>, ops: seq<Op<K, V>>)
    requires Valid(c)
    ensures Valid(Run(c, ops)) && Run(c, ops).capacity == c.capacity
    decreases |ops|
  {
    if ops != [] {
      StepKeepsValid(c, ops[0]);
      RunKeepsValid(Step(c, ops[0]).0, ops[1..]);
    }
  }

  // ---- Recency ----

  /** The position (counted from 1) of the last operation of the trace that names the key. */
  function LastUse<K(==), V>(ops: seq<Op<K, V>>, key: K): nat {
    if ops == [] then 0
    else if ops[|ops| - 1].key == key then |ops|
    else LastUse(ops[..|ops| - 1], key)
  }

  ghost predicate SortedByUse<K(!new), V>(order: seq<K>, ops: seq<Op<K, V>>) {
    forall i, j :: 0 <= i < j < |order| ==> LastUse(ops, order[i]) < LastUse(ops, order[j])
  }

  lemma {:induction false} LastUseBound<K(!new), V>(ops: seq<Op<K, V>>, key: K)
    ensures LastUse(ops, key) <= |ops|
  {
    if ops != [] && ops[|ops| - 1].key != key {
      LastUseBound(ops[..|ops| - 1], key);
    }
  }

  lemma {:induction false} RunAppend<K(!new), V>(c: Lru<K, V>, ops: seq<Op<K, V>>, op: Op<K, V>)
    ensures Run(c, ops + [op]) == Step(Run(c, ops), op).0
    decreases |ops|
  {
    if ops == [] {
      assert ([] + [op])[1..] == [];
    } else {
      assert (ops + [op])[1..] == ops[1..] + [op];
      RunAppend(Step(c, ops[0]).0, ops[1..], op);
    }
  }

  /** After any trace the order is the order of last use, so that what is evicted is indeed the
      least recently used entry. */
  lemma {:induction false} OrderIsRecency<K(!new), V>(capacity: nat, ops: seq<Op<K, V>>)
    ensures SortedByUse(Run(New<K, V>(capacity), ops).order, ops)
    decreases |ops|
  {
    if ops != [] {
      var front, op := ops[..|ops| - 1], ops[|ops| - 1];
      assert ops == front + [op];
      OrderIsRecency(capacity, front);
      RunAppend(New<K, V>(capacity), front, op);
      var c := Run(New<K, V>(capacity), front);
      RunKeepsValid(New<K, V>(capacity), front);
      UseMovesToEnd(c, front, op);
    }
  }

  lemma LastUseStep<K(!new), V>(front: seq<Op<K, V>>, op: Op<K, V>, x: K)
    ensures LastUse(front + [op], x) == if x == op.key then |front| + 1 else LastUse(front, x)
  {
    assert (front + [op])[..|front|] == front;
  }

  lemma UseMovesToEnd<K(!new), V>(c: Lru<K, V>, front: seq<Op<K, V>>, op: Op<K, V>)
    requires Valid(c) && SortedByUse(c.order, front)
    ensures SortedByUse(Step(c, op).0.order, front + [op])
  {
    var rest := Without(c.order, op.key);
    WithoutMembers(c.order, op.key);
    WithoutSorted(c.order, op.key, front);
    UsedLastIsSorted(rest, front, op);
    if op.key !in c.entries {
      assert op.key !in Elems(c.order);
      assert rest == c.order;
    }
  }

  lemma UsedLastIsSorted<K(!new), V>(rest: seq<K>, front: seq<Op<K, V>>, op: Op<K, V>)
    requires SortedByUse(rest, front) && op.key !in rest
    ensures SortedByUse(rest, front + [op]) && SortedByUse(rest + [op.key], front + [op])
    ensures SortedByUse((rest + [op.key])[1..], front + [op])
  {
    forall x | x in rest || x == op.key
      ensures LastUse(front + [op], x) == if x == op.key then |front| + 1 else LastUse(front, x)
      ensures LastUse(front, x) <= |front|
    {
      LastUseStep(front, op, x);
      LastUseBound(front, x);
    }
  }

  lemma {:induction false} WithoutSorted<K(!new), V>(order: seq<K>, key: K, ops: seq<Op<K, V>>)
    requires SortedByUse(order, ops)
    ensures SortedByUse(Without(order, key), ops)
  {
    if order != [] {
      var tail, rest := order[1..], Without(order[1..], key);
      WithoutSorted(tail, key, ops);
      WithoutMembers(tail, key);
      if order[0] == key {
        assert Without(order, key) == rest;
      } else {
        assert Without(order, key) == [order[0]] + rest;
        forall x | x in rest ensures LastUse(ops, order[0]) < LastUse(ops, x) {
          UsedLater(order, tail, ops, x);
        }
        PrependSorted(order[0], rest, ops);
      }
    }
  }

  lemma UsedLater<K(!new), V>(order: seq<K>, tail: seq<K>, ops: seq<Op<K, V>>, x: K)
    requires SortedByUse(order, ops) && order != [] && tail == order[1..] && x in tail
    ensures LastUse(ops, order[0]) < LastUse(ops, x)
  {
    var i :| 0 <= i < |tail| && tail[i] == x;
    assert order[i + 1] == x;
  }

  lemma PrependSorted<K(!new), V>(first: K, rest: seq<K>, ops: seq<Op<K, V>>)
    requires SortedByUse(rest, ops) && forall x :: x in rest ==> LastUse(ops, first) < LastUse(ops, x)
    ensures SortedByUse([first] + rest, ops)
  {
  }

  // ---- Inclusion ----

  /** The entries of the sequence that are in the set, in their order. */
  function Keep<K(==)>(order: seq<K>, keys: set<K>): seq<K> {
    if order == [] then []
    else (if order[0] in keys then [order[0]] else []) + Keep(order[1..], keys)
  }

  /** The smaller cache holds some of the larger one's entries, in the larger one's order; and it
      holds all of them as long as it has not filled up. */
  ghost predicate Included<K(!new), V>(small: Lru<K, V>, large: Lru<K, V>) {
    && small.capacity <= large.capacity
    && small.order == Keep(large.order, small.entries.Keys)
    && (forall k :: k in small.entries ==> k in large.entries && large.entries[k] == small.entries[k])
    && (|small.order| < small.capacity ==> small.entries == large.entries && small.order == large.order)
  }

  lemma {:induction false} KeepAppend<K(!new)>(a: seq<K>, b: seq<K>, keys: set<K>)
    ensures Keep(a + b, keys) == Keep(a, keys) + Keep(b, keys)
  {
    if a == [] {
      assert a + b == b;
    } else {
      assert (a + b)[1..] == a[1..] + b && (a + b)[0] == a[0];
      KeepAppend(a[1..], b, keys);
      var first := if a[0] in keys then [a[0]] else [];
      assert first + (Keep(a[1..], keys) + Keep(b, keys)) == (first + Keep(a[1..], keys)) + Keep(b, keys);
    }
  }

  /** Only membership of the sequence's own elements matters. */
  lemma {:induction false} KeepSame<K(!new)>(order: seq<K>, a: set<K>, b: set<K>)
    requires forall x :: x in order ==> (x in a <==> x in b)
    ensures Keep(order, a) == Keep(order, b)
  {
    if order != [] {
      KeepSame(order[1..], a, b);
    }
  }

  lemma {:induction false} KeepAll<K(!new)>(order: seq<K>, keys: set<K>)
    requires Elems(order) <= keys
    ensures Keep(order, keys) == order
  {
    if order != [] {
      assert forall x :: x in order[1..] ==> x in Elems(order);
      assert order[0] in Elems(order);
      KeepAll(order[1..], keys);
    }
  }

  lemma {:induction false} KeepWithout<K(!new)>(order: seq<K>, key: K, keys: set<K>)
    ensures Keep(Without(order, key), keys) == Without(Keep(order, keys), key)
    ensures key !in keys ==> Keep(Without(order, key), keys) == Keep(order, keys)
  {
    if order != [] {
      KeepWithout(order[1..], key, keys);
      var rest := Without(order[1..], key);
      assert Without(order, key) == if order[0] == key then rest else [order[0]] + rest;
      assert order[0] != key ==> ([order[0]] + rest)[1..] == rest;
      var kept := Keep(order[1..], keys);
      assert order[0] in keys ==> ([order[0]] + kept)[1..] == kept;
      assert Keep(order, keys) == if order[0] in keys then [order[0]] + kept else kept;
    }
  }

  /** Dropping the oldest of the kept elements. */
  lemma {:induction false} KeepDropsFirst<K(!new)>(order: seq<K>, keys: set<K>)
    requires NoDup(order) && Keep(order, keys) != []
    ensures Keep(order, keys)[0] in order && Keep(order, keys)[0] in keys
    ensures Keep(order, keys)[1..] == Keep(order, keys - {Keep(order, keys)[0]})
  {
    var first := Keep(order, keys)[0];
    if order[0] in keys {
      assert first == order[0];
      KeepSame(order[1..], keys, keys - {first});
      assert Keep(order, keys)[1..] == Keep(order[1..], keys);
    } else {
      assert Keep(order, keys) == Keep(order[1..], keys);
      KeepDropsFirst(order[1..], keys);
    }
  }

  /** A key that both caches hold, used in both. */
  lemma TouchKeepsIncluded<K(!new), V>(small: Lru<K, V>, large: Lru<K, V>, key: K)
    requires Valid(small) && Valid(large) && Included(small, large) && key in small.entries
    ensures Included(Touch(small, key), Touch(large, key))
  {
    KeepWithout(large.order, key, small.entries.Keys);
    KeepAppend(Without(large.order, key), [key], small.entries.Keys);
    assert Keep([key], small.entries.Keys) == [key];
    TouchKeepsValid(small, key);
  }

  /** A key that only the larger cache holds, used there: the smaller one is full. */
  lemma TouchLargeKeepsIncluded<K(!new), V>(small: Lru<K, V>, large: Lru<K, V>, key: K)
    requires Valid(small) && Valid(large) && Included(small, large)
    requires key !in small.entries && key in large.entries
    ensures |small.order| == small.capacity
    ensures Included(small, Touch(large, key))
  {
    KeepWithout(large.order, key, small.entries.Keys);
    KeepAppend(Without(large.order, key), [key], small.entries.Keys);
    assert Keep([key], small.entries.Keys) == [];
  }

  lemma GetKeepsIncluded<K(!new), V>(small: Lru<K, V>, large: Lru<K, V>, key: K)
    requires Valid(small) && Valid(large) && Included(small, large)
    ensures Included(Get(small, key).0, Get(large, key).0)
    ensures Get(small, key).1.Some? ==> Get(large, key).1 == Get(small, key).1
  {
    if key in small.entries {
      TouchKeepsIncluded(small, large, key);
    } else if key in large.entries {
      TouchLargeKeepsIncluded(small, large, key);
    }
  }

  lemma KeepNewest<K(!new)>(order: seq<K>, front: seq<K>, key: K, keys: set<K>)
    requires order == front + [key] && key !in front && key !in keys
    ensures Keep(order, keys + {key}) == Keep(order, keys) + [key]
  {
    KeepAppend(front, [key], keys + {key});
    KeepAppend(front, [key], keys);
    KeepSame(front, keys, keys + {key});
    assert Keep([key], keys + {key}) == [key] && Keep([key], keys) == [];
  }

  lemma LastIsNew<K(!new)>(order: seq<K>, front: seq<K>, key: K)
    requires order == front + [key] && NoDup(order)
    ensures key !in front
  {
    forall i | 0 <= i < |front| ensures front[i] != key {
      assert order[i] == front[i] && order[|front|] == key;
    }
  }

  /** A new key in a full cache drives out the oldest one. */
  lemma InsertEvicts<K(!new), V>(c: Lru<K, V>, key: K, value: V, evicted: K)
    requires key !in c.entries && |c.order| == c.capacity && evicted == (c.order + [key])[0]
    ensures var stored := c.entries[key := value];
            Insert(c, key, value).0 == Lru(c.capacity, stored - {evicted}, (c.order + [key])[1..])
  {
  }

  /** What is left of a full cache when one of the entries it shares with a larger one is gone. */
  lemma FullIsIncluded<K(!new), V>(small: Lru<K, V>, large: Lru<K, V>, stored: map<K, V>, evicted: K)
    requires small.capacity <= large.capacity && |small.order| == small.capacity
    requires forall k :: k in stored ==> k in large.entries && large.entries[k] == stored[k]
    requires small.entries == stored - {evicted} && small.order == Keep(large.order, stored.Keys - {evicted})
    ensures Included(small, large)
  {
    assert small.entries.Keys == stored.Keys - {evicted};
  }

  /** A full cache that takes in a new key gives up its oldest one (possibly the new key itself). */
  lemma EvictionKeepsIncluded<K(!new), V>(small: Lru<K, V>, large: Lru<K, V>, key: K, value: V)
    requires Valid(small) && Included(small, large) && NoDup(large.order)
    requires key in large.entries && large.entries[key] == value && key !in small.entries
    requires |small.order| == small.capacity
    requires large.order != [] && large.order[|large.order| - 1] == key
    ensures Included(Insert(small, key, value).0, large)
  {
    var held, front := small.entries.Keys, large.order[..|large.order| - 1];
    var order, stored := small.order + [key], small.entries[key := value];
    LastIsNew(large.order, front, key);
    KeepNewest(large.order, front, key, held);
    assert stored.Keys == held + {key};
    KeepDropsFirst(large.order, stored.Keys);
    InsertEvicts(small, key, value, order[0]);
    FullIsIncluded(Insert(small, key, value).0, large, stored, order[0]);
  }

  /** The larger cache may evict too: its oldest key is the smaller one's oldest key, or not held
      there at all. */
  lemma LargeEvictionKeepsIncluded<K(!new), V>(small: Lru<K, V>, large: Lru<K, V>)
    requires large.order != [] && NoDup(large.order) && Elems(large.order) == large.entries.Keys
    requires small.order == Keep(large.order, small.entries.Keys) && large.order[0] !in small.entries
    requires forall k :: k in small.entries ==> k in large.entries && large.entries[k] == small.entries[k]
    ensures small.order == Keep(large.order[1..], small.entries.Keys)
    ensures forall k :: k in small.entries ==>
              k in large.entries - {large.order[0]} && (large.entries - {large.order[0]})[k] == small.entries[k]
  {
  }

  lemma InsertKeepsIncluded<K(!new), V>(small: Lru<K, V>, large: Lru<K, V>, key: K, value: V)
    requires Valid(small) && Valid(large) && Included(small, large)
    ensures Included(Insert(small, key, value).0, Insert(large, key, value).0)
  {
    if key in small.entries {
      var small', large' := small.(entries := small.entries[key := value]), large.(entries := large.entries[key := value]);
      assert small'.entries.Keys == small.entries.Keys && large'.entries.Keys == large.entries.Keys;
      TouchKeepsIncluded(small', large', key);
    } else if key in large.entries {
      TouchLargeKeepsIncluded(small, large, key);
      var large' := Insert(large, key, value).0;
      StepKeepsValid(large, Op.Store(key, value));
      assert Included(small, large');
      EvictionKeepsIncluded(small, large', key, value);
    } else {
      InsertNewKeepsIncluded(small, large, key, value);
    }
  }

  lemma InsertFits<K(!new), V>(c: Lru<K, V>, key: K, value: V)
    requires key !in c.entries && |c.order| < c.capacity
    ensures Insert(c, key, value).0 == Lru(c.capacity, c.entries[key := value], c.order + [key])
  {
  }

  /** A new key fits into the smaller cache: so far both hold the same. */
  lemma InsertNewIntoBoth<K(!new), V>(small: Lru<K, V>, large: Lru<K, V>, key: K, value: V)
    requires Valid(small) && Included(small, large) && key !in small.entries && |small.order| < small.capacity
    ensures Included(Insert(small, key, value).0, Insert(large, key, value).0)
  {
    InsertFits(small, key, value);
    InsertFits(large, key, value);
    var order, stored := small.order + [key], small.entries[key := value];
    assert Elems(order) == stored.Keys;
    KeepAll(order, stored.Keys);
  }

  /** The larger cache before it evicts. */
  lemma GrownIncludes<K(!new), V>(small: Lru<K, V>, large: Lru<K, V>, key: K, value: V, grown: Lru<K, V>)
    requires Valid(small) && Valid(large) && Included(small, large) && key !in small.entries && key !in large.entries
    requires |small.order| == small.capacity
    requires grown == Lru(large.capacity + 1, large.entries[key := value], large.order + [key])
    ensures Included(Insert(small, key, value).0, grown)
    ensures NoDup(grown.order) && Elems(grown.order) == grown.entries.Keys
  {
    assert key !in Elems(large.order);
    KeepAppend(large.order, [key], small.entries.Keys);
    assert Keep([key], small.entries.Keys) == [];
    EvictionKeepsIncluded(small, grown, key, value);
  }

  /** A key that neither cache holds. */
  lemma InsertNewKeepsIncluded<K(!new), V>(small: Lru<K, V>, large: Lru<K, V>, key: K, value: V)
    requires Valid(small) && Valid(large) && Included(small, large)
    requires key !in small.entries && key !in large.entries
    ensures Included(Insert(small, key, value).0, Insert(large, key, value).0)
  {
    if |small.order| < small.capacity {
      InsertNewIntoBoth(small, large, key, value);
    } else {
      var grown := Lru(large.capacity + 1, large.entries[key := value], large.order + [key]);
      var small' := Insert(small, key, value).0;
      GrownIncludes(small, large, key, value, grown);
      InsertEvicts(small, key, value, (small.order + [key])[0]);
      if |large.order| < large.capacity {
        InsertFits(large, key, value);
      } else {
        InsertEvicts(large, key, value, grown.order[0]);
        OldestGoesFirst(small, large, key, value);
        LargeEvictionKeepsIncluded(small', grown);
      }
    }
  }

  /** When both are full, what the larger one evicts is no longer in the smaller one. */
  lemma OldestGoesFirst<K(!new), V>(small: Lru<K, V>, large: Lru<K, V>, key: K, value: V)
    requires Valid(small) && Valid(large) && Included(small, large)
    requires key !in small.entries && key !in large.entries
    requires |small.order| == small.capacity && |large.order| == large.capacity
    ensures (large.order + [key])[0] !in Insert(small, key, value).0.entries
  {
    var order := small.order + [key];
    if large.order != [] && large.order[0] in small.entries {
      assert small.order[0] == large.order[0];
    } else if large.order != [] {
      assert large.order[0] in Elems(large.order);
    }
  }

  /** Over every trace, whatever a cache holds a larger one holds too, in the same order. */
  lemma {:induction false} InclusionOverTraces<K(!new), V>(small: Lru<K, V>, large: Lru<K, V>, ops: seq<Op<K, V>>)
    requires Valid(small) && Valid(large) && Included(small, large)
    ensures Included(Run(small, ops), Run(large, ops))
    decreases |ops|
  {
    if ops != [] {
      var op := ops[0];
      match op {
        case Lookup(key) => GetKeepsIncluded(small, large, key);
        case Store(key, value) => InsertKeepsIncluded(small, large, key, value);
      }
      StepKeepsValid(small, op);
      StepKeepsValid(large, op);
      InclusionOverTraces(Step(small, op).0, Step(large, op).0, ops[1..]);
    }
  }

  /** The i-th operation looks up a key that is held at that point, with this value. */
  ghost predicate Hits<K, V>(c: Lru<K, V>, ops: seq<Op<K, V>>, i: nat, value: V) {
    && i < |ops| && ops[i].Lookup?
    && ops[i].key in Run(c, ops[..i]).entries && Run(c, ops[..i]).entries[ops[i].key] == value
  }

  /** Every lookup that hits in a cache hits in a larger one, with the same value. */
  lemma HitsStayHits<K(!new), V>(small: Lru<K, V>, large: Lru<K, V>, ops: seq<Op<K, V>>, i: nat, value: V)
    requires Valid(small) && Valid(large) && Included(small, large) && Hits(small, ops, i, value)
    ensures Hits(large, ops, i, value)
  {
    InclusionOverTraces(small, large, ops[..i]);
  }

  /** Starting empty: after every trace the larger cache holds what the smaller one does, in the same
      order, and every lookup on the way that hits in the smaller one hits in the larger one. */
  lemma LargerCacheHoldsMore<K(!new), V(!new)>(c: nat, d: nat, ops: seq<Op<K, V>>, key: K)
    requires c <= d
    ensures var small, large := Run(New<K, V>(c), ops), Run(New<K, V>(d), ops);
            && |small.order| <= c && |large.order| <= d
            && small.order == Keep(large.order, small.entries.Keys)
            && (Get(small, key).1.Some? ==> Get(large, key).1 == Get(small, key).1)
    ensures forall i: nat, value: V :: Hits(New<K, V>(c), ops, i, value) ==> Hits(New<K, V>(d), ops, i, value)
  {
    var small, large := New<K, V>(c), New<K, V>(d);
    InclusionOverTraces(small, large, ops);
    RunKeepsValid(small, ops);
    RunKeepsValid(large, ops);
    GetKeepsIncluded(Run(small, ops), Run(large, ops), key);
    forall i: nat, value: V | Hits(small, ops, i, value) ensures Hits(large, ops, i, value) {
      HitsStayHits(small, large, ops, i, value);
    }
  }
}
