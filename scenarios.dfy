/**
  Clients of the cache that drive it through short call sequences and state
  what the caller observes: which keys are still cached, with which values,
  the size and the counters.
 */
module Scenarios {
  import opened KeyQueue
  import opened LruCache

  /** A fresh cache of capacity `maxSize` into which a and b were put, in this order. */
  method TwoKeys(maxSize: int) returns (cache: ConcurrentLRUCache<char, int>)
    requires maxSize >= 2
    ensures fresh(cache) && cache.Valid() && cache.maxSize == maxSize
    ensures cache.queue == ['a', 'b']
    ensures 'a' in cache.entries && 'b' in cache.entries
    ensures cache.entries['a'] == 1 && cache.entries['b'] == 2
    ensures cache.stats == [0, 0, 0, 0]
  {
    cache := new ConcurrentLRUCache<char, int>(maxSize);
    cache.Put('a', 1);
    cache.Put('b', 2);
  }

  /** A fresh cache of capacity `maxSize` into which a, b and c were put, in this order. */
  method ThreeKeys(maxSize: int) returns (cache: ConcurrentLRUCache<char, int>)
    requires maxSize >= 3
    ensures fresh(cache) && cache.Valid() && cache.maxSize == maxSize
    ensures cache.queue == ['a', 'b', 'c']
    ensures 'a' in cache.entries && 'b' in cache.entries && 'c' in cache.entries
    ensures cache.entries['a'] == 1 && cache.entries['b'] == 2 && cache.entries['c'] == 3
    ensures cache.stats == [0, 0, 0, 0]
  {
    cache := TwoKeys(maxSize);
    cache.Put('c', 3);
  }

  /**
    On any cache, a Get right after a Put of `k` finds the value just
    stored, whether `k` was new or already cached.
   */
  method PutThenGet<K(==), V>(cache: ConcurrentLRUCache<K, V>, k: K, v: V) returns (r: Option<V>)
    requires cache.Valid()
    modifies cache
    ensures r == Some(v)
    ensures cache.Valid()
  {
    cache.Put(k, v);
    r := cache.Get(k);
  }

  /**
    Capacity 3, four distinct keys put in order: the first one is evicted
    and the newest three stay, oldest first.
   */
  method FifoEviction() returns (order: seq<char>, size: nat, removed: nat)
    ensures order == ['b', 'c', 'd'] && size == 3 && removed == 1
  {
    var cache := ThreeKeys(3);
    cache.Put('d', 4);
    order := cache.queue;
    size := cache.Size();
    removed := cache.stats[REMOVED_KEYS];
  }

  /** After the same four puts, the evicted key misses and a kept key hits. */
  method FifoEvictionLookups() returns (a: Option<int>, b: Option<int>)
    ensures a == None && b == Some(2)
  {
    var cache := ThreeKeys(3);
    cache.Put('d', 4);
    a := cache.Get('a');
    b := cache.Get('b');
  }

  /** The cache of `ThreeKeys(3)` after a was touched: a moves to the newest position. */
  method TouchedOldest() returns (cache: ConcurrentLRUCache<char, int>)
    ensures fresh(cache) && cache.Valid() && cache.maxSize == 3
    ensures cache.queue == ['b', 'c', 'a']
    ensures 'a' in cache.entries && cache.entries['a'] == 1
    ensures cache.stats == [0, 0, 0, 1]
  {
    cache := ThreeKeys(3);
    cache.Touch('a');
  }

  /**
    Capacity 3; a, b, c put, then a touched, then d put: the touched key
    survives and the next-oldest, b, is evicted instead.
   */
  method TouchPromotes() returns (order: seq<char>, a: Option<int>, reused: nat, removed: nat)
    ensures order == ['c', 'a', 'd'] && a == Some(1) && reused == 1 && removed == 1
  {
    var cache := TouchedOldest();
    cache.Put('d', 4);
    order := cache.queue;
    reused := cache.stats[REUSED_KEYS];
    removed := cache.stats[REMOVED_KEYS];
    a := cache.Get('a');
  }

  /**
    Touching a key that is not cached changes neither the queue nor the
    counters.
   */
  method TouchAbsent() returns (before: seq<char>, after: seq<char>, reused: nat)
    ensures before == after == ['a', 'b'] && reused == 0
  {
    var cache := TwoKeys(3);
    before := cache.queue;
    cache.Touch('z');
    after := cache.queue;
    reused := cache.stats[REUSED_KEYS];
  }

  /**
    Putting a cached key again replaces its value, keeps the size and
    evicts nothing, even when the cache is full.
   */
  method PutOverwrites() returns (a: Option<int>, b: Option<int>, size: nat, removed: nat)
    ensures a == Some(5) && b == Some(2) && size == 2 && removed == 0
  {
    var cache := TwoKeys(2);
    cache.Put('a', 5);
    assert cache.queue == ['b', 'a'];
    removed := cache.stats[REMOVED_KEYS];
    a := cache.Get('a');
    b := cache.Get('b');
    size := cache.Size();
  }

  /**
    Get counts a hit or a miss and leaves the queue as it was, so reading
    a key does not save it from eviction.
   */
  method GetDoesNotPromote() returns (a: Option<int>, hits: nat, misses: nat)
    ensures a == None && hits == 1 && misses == 2
  {
    var cache := TwoKeys(2);
    var r := cache.Get('a');
    assert r == Some(1);
    r := cache.Get('z');
    cache.Put('c', 3);
    assert cache.queue == ['b', 'c'];
    a := cache.Get('a');
    hits := cache.stats[HIT];
    misses := cache.stats[MISS];
  }

  /** Clear forgets every entry and resets the counters. */
  method ClearForgets() returns (size: nat, counters: seq<nat>, a: Option<int>)
    ensures size == 0 && counters == [0, 0, 0, 0] && a == None
  {
    var cache := ThreeKeys(3);
    var r := cache.Get('c');
    cache.Clear();
    size := cache.Size();
    counters := cache.stats;
    a := cache.Get('a');
  }

  /**
    Lowering the capacity evicts nothing by itself; the next put of a new
    key evicts down to one below the new capacity before inserting.
   */
  method LowerCapacity() returns (sizeAfterSet: nat, sizeAfterPut: nat, a: Option<int>, c: Option<int>)
    ensures sizeAfterSet == 3 && sizeAfterPut == 2 && a == None && c == Some(3)
  {
    var cache := ThreeKeys(3);
    var ok := cache.SetMaxSize(2);
    sizeAfterSet := cache.Size();
    cache.Put('d', 4);
    assert cache.queue == ['c', 'd'];
    sizeAfterPut := cache.Size();
    a := cache.Get('a');
    c := cache.Get('c');
  }

  /** A capacity of 1 is refused, by the setter and by the factory alike. */
  method RejectCapacityOne() returns (set1: Outcome, maxSize: int, created: bool)
    ensures set1 == Fail(IllegalArgument(1)) && maxSize == 3 && !created
  {
    var cache := new ConcurrentLRUCache<char, int>(3);
    set1 := cache.SetMaxSize(1);
    maxSize := cache.maxSize;
    var r := Create<char, int>(1);
    created := r.Success?;
  }

  /**
    Copying a cache of three keys into one of capacity 2 keeps the newest
    two in the same order and counts one hit per key in the source.
   */
  method CopyShrinks() returns (a: Option<int>, c: Option<int>, order: seq<char>, sourceHits: nat, evicted: nat)
    ensures a == None && c == Some(3) && order == ['b', 'c'] && sourceHits == 3 && evicted == 1
  {
    var source := ThreeKeys(3);
    var copy := new ConcurrentLRUCache<char, int>.Copy(2, source);
    order := copy.queue;
    sourceHits := source.stats[HIT];
    evicted := copy.stats[REMOVED_KEYS];
    a := copy.Get('a');
    c := copy.Get('c');
  }
}
