/**
  A bounded key/value cache that evicts in FIFO order by default and becomes
  LRU-like when callers promote keys with Touch or with Put on a key that is
  already cached. Single-threaded semantics: every synchronized block of the
  Java class is plain sequential code here.
 */
module LruCache {
  import opened KeyQueue

  /** Indices into the statistics array. */
  const MISS := 0
  const HIT := 1
  const REMOVED_KEYS := 2
  const REUSED_KEYS := 3

  /** A lookup result: the cached value, or nothing cached under the key. */
  datatype Option<V> = None | Some(value: V)

  /** The one error kind: a capacity below the minimum of 2. */
  datatype CacheError = IllegalArgument(maxSize: int)

  datatype Outcome = Pass | Fail(error: CacheError)

  datatype Result<T> = Success(value: T) | Failure(error: CacheError)

  /** The counters `stats` with counter `i` grown by `n`. */
  function Increment(stats: seq<nat>, i: nat, n: nat): (r: seq<nat>)
    requires i < |stats|
    ensures |r| == |stats| && r[i] == stats[i] + n
    ensures forall j | 0 <= j < |r| && j != i :: r[j] == stats[j]
  {
    stats[i := stats[i] + n]
  }

  /** Growing a counter twice grows it by the sum. */
  lemma IncrementTwice(stats: seq<nat>, i: nat, a: nat, b: nat)
    requires i < |stats|
    ensures Increment(Increment(stats, i, a), i, b) == Increment(stats, i, a + b)
  {
  }

  class ConcurrentLRUCache<K(==), V> {
    /** The capacity; the eviction loop of Put reads it. */
    var maxSize: int
    /** The lookup table. */
    var entries: map<K, V>
    /** The keys, oldest first. */
    var queue: seq<K>
    /** The counters MISS, HIT, REMOVED_KEYS and REUSED_KEYS. */
    var stats: seq<nat>

    /**
      The object invariant: the capacity is at least 2, the queue holds
      exactly the keys of the table, each once.
     */
    ghost predicate Valid()
      reads this
    {
      && maxSize > 1
      && |stats| == 4
      && Keys(queue) == entries.Keys
      && NoDuplicates(queue)
    }

    /**
      The capacity bound. It is not part of Valid(): SetMaxSize may lower
      the capacity below the current size. Only a Put of a new key and Clear
      shrink the queue; raising the capacity again with SetMaxSize can also
      bring the cache back within the bound.
     */
    ghost predicate WithinCapacity()
      reads this
    {
      |queue| <= maxSize
    }

    constructor (maxSize: int)
      requires maxSize > 1
      ensures Valid() && WithinCapacity()
      ensures this.maxSize == maxSize
      ensures entries == map[] && queue == [] && stats == [0, 0, 0, 0]
    {
      this.maxSize := maxSize;
      entries := map[];
      queue := [];
      stats := [0, 0, 0, 0];
    }

    /**
      Builds a cache of capacity `maxSize` by replaying the keys of `source`
      in its queue order, each looked up with Get (which counts a hit in
      `source`) and then Put here. The new cache ends up with the newest
      `maxSize` keys of `source`, in the same order, with their values.
     */
    constructor Copy(maxSize: int, source: ConcurrentLRUCache<K, V>)
      requires maxSize > 1 && source.Valid()
      modifies source
      ensures Valid() && WithinCapacity()
      ensures this.maxSize == maxSize
      ensures queue == Newest(source.queue, maxSize)
      ensures entries == Restrict(source.entries, Keys(queue))
      ensures stats == [0, 0, Overflow(|source.queue|, maxSize), 0]
      ensures source.Valid() && source.maxSize == old(source.maxSize)
      ensures source.entries == old(source.entries) && source.queue == old(source.queue)
      ensures source.stats == Increment(old(source.stats), HIT, |source.queue|)
    {
      this.maxSize := maxSize;
      entries := map[];
      queue := [];
      stats := [0, 0, 0, 0];
      new;
      var q := source.queue;
      for i := 0 to |q|
        invariant Valid() && WithinCapacity() && this.maxSize == maxSize
        invariant source.Valid() && source.maxSize == old(source.maxSize)
        invariant source.queue == q && source.entries == old(source.entries)
        invariant source.stats == Increment(old(source.stats), HIT, i)
        invariant queue == Newest(q[..i], maxSize)
        invariant entries == Restrict(source.entries, Keys(queue))
        invariant stats == [0, 0, Overflow(i, maxSize), 0]
      {
        CopyEntry(source, q, i);
      }
      assert q[..|q|] == q;
    }

    /**
      One iteration of the copying constructor's loop: looks the `i`-th key
      of the source's queue up in `source` and stores the value found here.
     */
    method CopyEntry(source: ConcurrentLRUCache<K, V>, q: seq<K>, i: nat)
      requires Valid() && WithinCapacity() && source.Valid() && source != this
      requires source.queue == q && i < |q|
      requires queue == Newest(q[..i], maxSize)
      requires entries == Restrict(source.entries, Keys(queue))
      modifies this, source
      ensures Valid() && WithinCapacity() && maxSize == old(maxSize)
      ensures source.Valid() && source.maxSize == old(source.maxSize)
      ensures source.queue == q && source.entries == old(source.entries)
      ensures source.stats == Increment(old(source.stats), HIT, 1)
      ensures queue == Newest(q[..i + 1], maxSize)
      ensures entries == Restrict(source.entries, Keys(queue))
      ensures stats == Increment(old(stats), REMOVED_KEYS, Overflow(i + 1, maxSize) - Overflow(i, maxSize))
    {
      var key := q[i];
      ReplayStep(source.entries, q, i, maxSize, queue, entries);
      ghost var e := EvictCount(|queue|, maxSize);
      assert e == Overflow(i + 1, maxSize) - Overflow(i, maxSize);
      var value := source.Get(key);
      if value.Some? {
        Put(key, value.value);
      }
    }

    /**
      Sets the capacity. A value of 1 or less is refused and the capacity is
      left as it was. The entries are not touched: a lower capacity takes
      effect at the next Put of a new key.
     */
    method SetMaxSize(n: int) returns (r: Outcome)
      requires Valid()
      modifies this
      ensures Valid()
      ensures r == if n <= 1 then Fail(IllegalArgument(n)) else Pass
      ensures maxSize == if n <= 1 then old(maxSize) else n
      ensures entries == old(entries) && queue == old(queue) && stats == old(stats)
    {
      if n <= 1 {
        return Fail(IllegalArgument(n));
      }
      maxSize := n;
      r := Pass;
    }

    /**
      Marks `k` as recently used: a cached key moves to the newest end of
      the queue and REUSED_KEYS grows by one; an uncached key changes
      nothing.
     */
    method Touch(k: K)
      requires Valid()
      modifies this
      ensures Valid() && maxSize == old(maxSize) && entries == old(entries)
      ensures |queue| == |old(queue)| && (old(WithinCapacity()) ==> WithinCapacity())
      ensures k !in old(entries) ==> queue == old(queue) && stats == old(stats)
      ensures k in old(entries) ==>
        && queue == MoveToTail(old(queue), k)
        && queue == old(queue)[..IndexOf(old(queue), k)] + old(queue)[IndexOf(old(queue), k) + 1..] + [k]
        && stats == Increment(old(stats), REUSED_KEYS, 1)
    {
      if k in entries {
        MoveToTailProperties(queue, k);
        queue := MoveToTail(queue, k);
        stats := Increment(stats, REUSED_KEYS, 1);
      }
    }

    /**
      Stores `v` under `k`. A cached key is promoted to the newest end and
      its value replaced, with nothing evicted. A new key first evicts
      keys from the head of the queue, oldest first, while the queue is at
      or over capacity, then is appended at the tail; the cache is then
      within its capacity.
     */
    method Put(k: K, v: V)
      requires Valid()
      modifies this
      ensures Valid() && maxSize == old(maxSize)
      ensures k in entries && entries[k] == v
      ensures k in old(entries) ==>
        && queue == MoveToTail(old(queue), k)
        && |queue| == |old(queue)|
        && entries == old(entries)[k := v]
        && stats == Increment(old(stats), REUSED_KEYS, 1)
        && (old(WithinCapacity()) ==> WithinCapacity())
      ensures k !in old(entries) ==>
        var e := EvictCount(|old(queue)|, old(maxSize));
        && queue == old(queue)[e..] + [k]
        && entries == (old(entries) - Keys(old(queue)[..e]))[k := v]
        && stats == Increment(old(stats), REMOVED_KEYS, e)
        && WithinCapacity()
      ensures k !in old(entries) && |old(queue)| < old(maxSize) ==>
        queue == old(queue) + [k] && entries == old(entries)[k := v] && stats == old(stats)
      ensures k !in old(entries) && |old(queue)| == old(maxSize) ==>
        && queue == old(queue)[1..] + [k]
        && entries == (old(entries) - {old(queue)[0]})[k := v]
        && stats == Increment(old(stats), REMOVED_KEYS, 1)
    {
      if k in entries {
        MoveToTailProperties(queue, k);
        queue := MoveToTail(queue, k);
        entries := entries[k := v];
        assert entries.Keys == old(entries).Keys;
        stats := Increment(stats, REUSED_KEYS, 1);
        return;
      }

      // remove old keys to match the current capacity
      ghost var q0 := queue;
      EvictOldest(maxSize);
      assert |q0| < maxSize ==> q0[..0] == [] && q0[0..] == q0;
      assert |q0| == maxSize ==> q0[..1] == [q0[0]];
      AppendFresh(queue, k);
      queue := queue + [k];
      entries := entries[k := v];
    }

    /**
      The eviction loop of Put: polls keys from the head of the queue while
      the queue holds `limit` keys or more. It stops at the first length
      below `limit`, so it evicts exactly EvictCount(|queue|, limit) keys,
      the oldest ones.
     */
    method EvictOldest(limit: int)
      requires Valid() && limit == maxSize
      modifies this
      ensures Valid() && maxSize == old(maxSize) && |queue| < limit
      ensures var e := EvictCount(|old(queue)|, limit);
        && queue == old(queue)[e..]
        && entries == old(entries) - Keys(old(queue)[..e])
        && stats == Increment(old(stats), REMOVED_KEYS, e)
    {
      ghost var q0, m0, e := queue, entries, EvictCount(|queue|, limit);
      ghost var d := 0;
      while |queue| >= limit
        invariant maxSize == limit && |stats| == 4
        invariant d <= e && queue == q0[d..]
        invariant entries == m0 - Keys(q0[..d])
        invariant stats == Increment(old(stats), REMOVED_KEYS, d)
        invariant |queue| >= limit ==> d < e
        decreases |queue|
      {
        ghost var gone := Keys(q0[..d]);
        assert q0[..d + 1] == q0[..d] + [queue[0]];
        assert Keys(q0[..d + 1]) == gone + {queue[0]};
        IncrementTwice(old(stats), REMOVED_KEYS, d, 1);
        PollOldest();
        d := d + 1;
      }
      assert d == e;
      DropOldest(q0, e);
    }

    /**
      One step of the eviction loop: polls the oldest key from the head of
      the queue, drops its entry from the table and counts it as removed.
     */
    method PollOldest()
      requires queue != [] && |stats| == 4
      modifies this
      ensures maxSize == old(maxSize)
      ensures queue == old(queue)[1..] && entries == old(entries) - {old(queue)[0]}
      ensures stats == Increment(old(stats), REMOVED_KEYS, 1)
    {
      var oldest := queue[0];
      queue := queue[1..];
      entries := entries - {oldest};
      stats := Increment(stats, REMOVED_KEYS, 1);
    }

    /**
      Looks `k` up without touching the queue: the cached value and a HIT,
      or None and a MISS.
     */
    method Get(k: K) returns (r: Option<V>)
      requires Valid()
      modifies this
      ensures Valid() && entries == old(entries) && queue == old(queue) && maxSize == old(maxSize)
      ensures r.Some? <==> k in entries
      ensures r.Some? ==> r.value == entries[k]
      ensures stats == if k in entries
        then Increment(old(stats), HIT, 1)
        else Increment(old(stats), MISS, 1)
    {
      if k in entries {
        r := Some(entries[k]);
        stats := Increment(stats, HIT, 1);
      } else {
        r := None;
        stats := Increment(stats, MISS, 1);
      }
    }

    /** The number of cached entries: the length of the queue. */
    function Size(): (n: nat)
      reads this
      requires Valid()
      ensures n == |entries|
    {
      KeysCardinality(queue);
      |queue|
    }

    /** Empties the queue and the table and resets the four counters. */
    method Clear()
      requires Valid()
      modifies this
      ensures Valid() && WithinCapacity() && maxSize == old(maxSize)
      ensures entries == map[] && queue == [] && stats == [0, 0, 0, 0]
    {
      queue := [];
      entries := map[];
      for i := 0 to |stats|
        invariant queue == [] && entries == map[] && maxSize == old(maxSize)
        invariant |stats| == 4
        invariant forall j | 0 <= j < i :: stats[j] == 0
      {
        stats := stats[i := 0];
      }
    }
  }

  /**
    The first constructor with its argument check: a capacity of 1 or less
    is refused with IllegalArgument.
   */
  method Create<K(==), V>(maxSize: int) returns (r: Result<ConcurrentLRUCache<K, V>>)
    ensures r.Failure? <==> maxSize <= 1
    ensures r.Failure? ==> r.error == IllegalArgument(maxSize)
    ensures r.Success? ==>
      && fresh(r.value) && r.value.Valid()
      && r.value.maxSize == maxSize && r.value.entries == map[] && r.value.queue == []
      && r.value.stats == [0, 0, 0, 0]
  {
    if maxSize <= 1 {
      return Failure(IllegalArgument(maxSize));
    }
    var c := new ConcurrentLRUCache<K, V>(maxSize);
    r := Success(c);
  }

  /**
    The copying constructor with its argument check: a capacity of 1 or
    less is refused before anything is copied.
   */
  method CreateCopy<K(==), V>(maxSize: int, source: ConcurrentLRUCache<K, V>)
    returns (r: Result<ConcurrentLRUCache<K, V>>)
    requires source.Valid()
    modifies source
    ensures r.Failure? <==> maxSize <= 1
    ensures r.Failure? ==>
      && r.error == IllegalArgument(maxSize)
      && source.maxSize == old(source.maxSize) && source.stats == old(source.stats)
      && source.entries == old(source.entries) && source.queue == old(source.queue)
    ensures r.Success? ==>
      && fresh(r.value) && r.value.Valid() && r.value.WithinCapacity()
      && r.value.maxSize == maxSize
      && r.value.queue == Newest(source.queue, maxSize)
      && r.value.entries == Restrict(source.entries, Keys(r.value.queue))
      && r.value.stats == [0, 0, Overflow(|source.queue|, maxSize), 0]
      && source.Valid() && source.maxSize == old(source.maxSize)
      && source.entries == old(source.entries) && source.queue == old(source.queue)
      && source.stats == Increment(old(source.stats), HIT, |source.queue|)
  {
    if maxSize <= 1 {
      return Failure(IllegalArgument(maxSize));
    }
    var c := new ConcurrentLRUCache<K, V>.Copy(maxSize, source);
    r := Success(c);
  }
}
