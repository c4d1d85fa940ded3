# ConcurrentLRUCache, modelled in Dafny

This project models `ConcurrentLRUCache`, the bounded key/value cache of the
jconfig manager. The cache keeps:

- a lookup table from keys to values;
- a queue of the cached keys, oldest first;
- a mutable capacity, which is at least 2;
- four counters: MISS, HIT, REMOVED_KEYS and REUSED_KEYS.

Eviction is FIFO by default. `touch` and a `put` of an already cached key
move the key to the newest end of the queue, which makes the cache behave
like an LRU cache for callers that use them. `get` reads only the table and
never changes the order.

The model has single-threaded semantics. Every `synchronized` block is plain
sequential code. The cache is the class `LruCache.ConcurrentLRUCache`, whose
methods update its fields in place:

- `entries: map<K, V>` is the table. It is called `map` in the Java code, which is a Dafny keyword.
- `queue: seq<K>` is the key queue.
- `maxSize: int` is the capacity.
- `stats: seq<nat>` holds the four counters.

The class's invariant `Valid()` says four things:

- the capacity is above 1;
- there are four counters;
- the queue holds exactly the keys of the table;
- no key is queued twice.

The capacity bound `|queue| <= maxSize` is a separate predicate,
`WithinCapacity()`. `setMaxSize` may lower the capacity below the current
size. Only a put of a new key and `clear` shrink the queue; raising the
capacity again with `setMaxSize` can also bring the cache back within the
bound. So the bound is stated separately, on the operations that guarantee it.

The files are:

- `key_queue.dfy` (module `KeyQueue`) has the queue operations on sequences
  (remove the first occurrence of a key, append, drop the oldest keys) and
  the facts the cache needs about them. It also has the functions `Newest`
  and `Restrict`, which state what the copying constructor produces.
- `lru_cache.dfy` (module `LruCache`) has the cache class with both
  constructors, `SetMaxSize`, `Touch`, `Put` and its eviction loop, `Get`,
  `Size` and `Clear`. It also has `Create` and `CreateCopy`, which model the
  constructors' argument check.
- `scenarios.dfy` (module `Scenarios`) has short call sequences on concrete
  caches, with what a caller observes after them.

Two consequences of the code are worth stating outright:

- REMOVED_KEYS counts every non-null key the eviction loop polls
  (ConcurrentLRUCache.java:118-122), whether or not the table held an entry
  for it. Single-threaded, every polled key has one.
- After `touch(k)` on a cache full at capacity C, `k` survives the next
  C - 1 new keys and the C-th evicts it (ConcurrentLRUCache.java:84-85,
  116-124). After the touch, `k` is the newest of C queued keys. `Put` states that a new
  key put into a full cache leaves `queue[1..] + [key]`, so each new key
  moves `k` one place toward the head: the next C - 1 new keys leave `k`
  cached and the C-th evicts it. `Scenarios.TouchPromotes` shows the first
  step: after the touch, the next new key evicts the oldest untouched key
  instead of `k`.

## Model

| member | source | states |
|---|---|---|
| LruCache.ConcurrentLRUCache.constructor | manager/src/main/java/org/commons/jconfig/internal/ConcurrentLRUCache.java:39-43 | a new cache has the given capacity (at least 2), an empty table and queue and zero counters; it satisfies the invariant and the capacity bound |
| LruCache.Create | manager/src/main/java/org/commons/jconfig/internal/ConcurrentLRUCache.java:39-43 | construction fails with IllegalArgument(maxSize) exactly when maxSize <= 1; otherwise it yields a fresh, valid and empty cache of that capacity |
| LruCache.ConcurrentLRUCache.Copy | manager/src/main/java/org/commons/jconfig/internal/ConcurrentLRUCache.java:51-59 | the copy holds the newest maxSize keys of the source, in the source's order, with the source's values. Its REMOVED_KEYS counts the keys that did not fit and its other counters are zero. The source's table and queue are unchanged, and its HIT grows by one per queued key |
| LruCache.CreateCopy | manager/src/main/java/org/commons/jconfig/internal/ConcurrentLRUCache.java:51-52 | copying fails with IllegalArgument(maxSize), leaving the source's capacity, table, queue and counters alone, exactly when maxSize <= 1; otherwise it gives the copy described for Copy, with the source's capacity, table and queue unchanged and one source HIT per queued key |
| LruCache.ConcurrentLRUCache.CopyEntry | manager/src/main/java/org/commons/jconfig/internal/ConcurrentLRUCache.java:53-58 | one replay step, get in the source then put here, takes the copy from the newest keys of the first i source keys to the newest keys of the first i + 1, with their values; it counts one source HIT and the evictions the step causes |
| LruCache.ConcurrentLRUCache.SetMaxSize | manager/src/main/java/org/commons/jconfig/internal/ConcurrentLRUCache.java:66-71 | n <= 1 fails with IllegalArgument(n) and keeps the old capacity; otherwise the capacity becomes n. Table, queue and counters are untouched either way |
| LruCache.ConcurrentLRUCache.Touch | manager/src/main/java/org/commons/jconfig/internal/ConcurrentLRUCache.java:80-89 | an uncached key changes nothing. A cached key is removed from its position and re-appended at the tail, the other keys keep their relative order and REUSED_KEYS grows by exactly one. The table, the capacity, the length and the capacity bound are kept |
| LruCache.ConcurrentLRUCache.Put | manager/src/main/java/org/commons/jconfig/internal/ConcurrentLRUCache.java:102-130 | afterwards k maps to v and the invariant holds. A cached key moves to the tail with nothing evicted, the same size and REUSED_KEYS + 1. A new key first evicts the EvictCount oldest keys from queue and table, counting them in REMOVED_KEYS, and is then appended, leaving the cache within capacity |
| LruCache.ConcurrentLRUCache.EvictOldest | manager/src/main/java/org/commons/jconfig/internal/ConcurrentLRUCache.java:114-124 | the eviction loop terminates with fewer than maxSize keys queued. It has removed exactly the EvictCount oldest keys from the queue and the table and added that many to REMOVED_KEYS, and it keeps the invariant |
| LruCache.ConcurrentLRUCache.PollOldest | manager/src/main/java/org/commons/jconfig/internal/ConcurrentLRUCache.java:117-123 | one eviction step drops the head key from the queue and its entry from the table and adds one to REMOVED_KEYS |
| LruCache.ConcurrentLRUCache.Get | manager/src/main/java/org/commons/jconfig/internal/ConcurrentLRUCache.java:139-147 | returns the cached value exactly when the key is cached, and nothing otherwise; it counts a HIT or a MISS accordingly and never changes table, queue or capacity |
| LruCache.ConcurrentLRUCache.Size | manager/src/main/java/org/commons/jconfig/internal/ConcurrentLRUCache.java:154-158 | the queue length equals the number of cached entries |
| LruCache.ConcurrentLRUCache.Clear | manager/src/main/java/org/commons/jconfig/internal/ConcurrentLRUCache.java:165-174 | table and queue become empty and all four counters become 0; the capacity is kept |
| KeyQueue.IndexOf | manager/src/main/java/org/commons/jconfig/internal/ConcurrentLRUCache.java:84 | the index found holds the key and no earlier position does: the first occurrence, the one a queue's remove(Object) takes out |
| KeyQueue.RemoveFirst | manager/src/main/java/org/commons/jconfig/internal/ConcurrentLRUCache.java:84 | removing an absent key leaves the queue as it was; removing a present key shortens it by one |
| KeyQueue.RemoveFirstMultiset | manager/src/main/java/org/commons/jconfig/internal/ConcurrentLRUCache.java:106 | removal takes out exactly one occurrence of the key and keeps every other element |
| KeyQueue.RemoveFirstAt | manager/src/main/java/org/commons/jconfig/internal/ConcurrentLRUCache.java:84 | removal deletes exactly the first position holding the key and keeps the order of the rest |
| KeyQueue.DeleteAt | manager/src/main/java/org/commons/jconfig/internal/ConcurrentLRUCache.java:106 | deleting one position of a duplicate-free queue keeps it duplicate-free and removes exactly that key from its key set |
| KeyQueue.AppendFresh | manager/src/main/java/org/commons/jconfig/internal/ConcurrentLRUCache.java:126-129 | appending a key not yet queued keeps the queue duplicate-free and adds exactly that key to its key set |
| KeyQueue.MoveToTail | manager/src/main/java/org/commons/jconfig/internal/ConcurrentLRUCache.java:84-85 | remove-then-add ends with the key at the tail; a queued key keeps the queue's length, and an absent key is simply appended |
| LruCache.Increment | manager/src/main/java/org/commons/jconfig/internal/ConcurrentLRUCache.java:86 | incrementAndGet on one counter grows exactly that counter by n and leaves the other counters and their number unchanged |
| KeyQueue.MoveToTailProperties | manager/src/main/java/org/commons/jconfig/internal/ConcurrentLRUCache.java:84-85 | remove-then-add of a queued key deletes it from its position and re-appends it; the length, the key set and duplicate-freedom are kept |
| KeyQueue.KeysCardinality | manager/src/main/java/org/commons/jconfig/internal/ConcurrentLRUCache.java:154-158 | a duplicate-free queue has as many distinct keys as elements, so the queue length is the table size |
| KeyQueue.EvictCount | manager/src/main/java/org/commons/jconfig/internal/ConcurrentLRUCache.java:116-124 | the loop polls no more keys than are queued and stops below the capacity; when it polls at all, it leaves exactly maxSize - 1 keys |
| KeyQueue.DropOldest | manager/src/main/java/org/commons/jconfig/internal/ConcurrentLRUCache.java:116-124 | dropping the oldest keys of a duplicate-free queue leaves a duplicate-free queue holding exactly the other keys |
| KeyQueue.Newest | manager/src/main/java/org/commons/jconfig/internal/ConcurrentLRUCache.java:51-59 | the result is the suffix of the queue of length min(n, length) |
| KeyQueue.Restrict | manager/src/main/java/org/commons/jconfig/internal/ConcurrentLRUCache.java:51-59 | the restricted table has exactly the keys of the table that are in the set, with the same values |
| KeyQueue.NewestStep | manager/src/main/java/org/commons/jconfig/internal/ConcurrentLRUCache.java:53-58 | evicting as the loop does and then appending one more key turns the newest maxSize keys of s into the newest maxSize keys of s + [x] |
| KeyQueue.RestrictStep | manager/src/main/java/org/commons/jconfig/internal/ConcurrentLRUCache.java:53-58 | evicting the entries of the polled keys and storing the next key's value gives the source table restricted to the new queue |
| KeyQueue.PrefixDistinct | manager/src/main/java/org/commons/jconfig/internal/ConcurrentLRUCache.java:53 | every prefix of the source's duplicate-free queue is duplicate-free |
| KeyQueue.NewestDistinct | manager/src/main/java/org/commons/jconfig/internal/ConcurrentLRUCache.java:53-58 | the keys already replayed are duplicate-free and do not include the next key of the source's queue |
| KeyQueue.ReplayStep | manager/src/main/java/org/commons/jconfig/internal/ConcurrentLRUCache.java:53-58 | each replayed key is cached in the source but not yet in the copy, and one replay step moves the copy from the newest keys of the first i source keys, with their values, to the newest keys of the first i + 1, counting the keys that fell out |
| Scenarios.TwoKeys | manager/src/main/java/org/commons/jconfig/internal/ConcurrentLRUCache.java:126-129 | two puts into an empty cache queue a then b with their values and leave the counters at zero |
| Scenarios.ThreeKeys | manager/src/main/java/org/commons/jconfig/internal/ConcurrentLRUCache.java:126-129 | a third put appends c after a and b, with nothing evicted |
| Scenarios.PutThenGet | manager/src/main/java/org/commons/jconfig/internal/ConcurrentLRUCache.java:102-147 | on any valid cache, a get right after put(k, v) returns v |
| Scenarios.FifoEviction | manager/src/main/java/org/commons/jconfig/internal/ConcurrentLRUCache.java:114-129 | with capacity 3, a fourth new key evicts the first one: the queue is b, c, d, the size is 3 and one removal is counted |
| Scenarios.FifoEvictionLookups | manager/src/main/java/org/commons/jconfig/internal/ConcurrentLRUCache.java:139-147 | after those four puts the evicted key misses and a kept key hits with its value |
| Scenarios.TouchedOldest | manager/src/main/java/org/commons/jconfig/internal/ConcurrentLRUCache.java:80-89 | touching the oldest key moves it to the newest position and counts one reuse |
| Scenarios.TouchPromotes | manager/src/main/java/org/commons/jconfig/internal/ConcurrentLRUCache.java:80-130 | after touch(a), put(d) evicts b instead of a: the queue is c, a, d, and a still holds 1 |
| Scenarios.TouchAbsent | manager/src/main/java/org/commons/jconfig/internal/ConcurrentLRUCache.java:80-81 | touching an uncached key leaves the queue and REUSED_KEYS unchanged |
| Scenarios.PutOverwrites | manager/src/main/java/org/commons/jconfig/internal/ConcurrentLRUCache.java:103-112 | a put of a cached key into a full cache replaces the value, keeps the size and evicts nothing |
| Scenarios.GetDoesNotPromote | manager/src/main/java/org/commons/jconfig/internal/ConcurrentLRUCache.java:139-147 | gets count hits and misses but do not reorder, so a key just read is still the next one evicted |
| Scenarios.ClearForgets | manager/src/main/java/org/commons/jconfig/internal/ConcurrentLRUCache.java:165-174 | after clear, the size is 0, the counters are all 0 and an earlier key misses |
| Scenarios.LowerCapacity | manager/src/main/java/org/commons/jconfig/internal/ConcurrentLRUCache.java:66-71 | lowering the capacity evicts nothing by itself; the next put of a new key evicts down to one below the new capacity first |
| Scenarios.RejectCapacityOne | manager/src/main/java/org/commons/jconfig/internal/ConcurrentLRUCache.java:66-69 | a capacity of 1 is refused by the setter, which keeps the old capacity, and by construction |
| Scenarios.CopyShrinks | manager/src/main/java/org/commons/jconfig/internal/ConcurrentLRUCache.java:51-59 | copying three keys into a cache of capacity 2 keeps the newest two in order, counts three source hits and one eviction |

## Left out

- Concurrency: `synchronized`, the atomic capacity and counters, and the
  concurrent table and queue are modelled with sequential semantics only.
  The model therefore does not capture the approximate capacity bound under
  racing puts (ConcurrentLRUCache.java:16, 92-95), nor lock-free reads
  interleaving with mutations.
- LruCache.ConcurrentLRUCache.PollOldest: the branch where `poll()` returns
  null (ConcurrentLRUCache.java:119) is left out. It needs another thread to
  empty the queue, and sequentially the eviction loop only polls a queue that
  holds at least maxSize >= 2 keys.
- The initial-capacity hint given to the hash table (ConcurrentLRUCache.java:41)
  has no observable effect and is left out.
- Null keys and values: keys and values are assumed non-null, and an
  instantiation of `K` or `V` with a nullable type such as `object?` is
  outside the model (it would treat `null` as an ordinary key, where the
  Java table throws). A lookup that finds nothing returns `None` instead of
  null. The
  null check in the copying loop (ConcurrentLRUCache.java:55) is modelled as
  the `Some?` test.
- `getStats` and `toString` (ConcurrentLRUCache.java:182-196) only format
  strings. Their data is the `stats` field and the capacity, which the model
  exposes.
- The exception message text (ConcurrentLRUCache.java:68) is left out; only
  the condition `maxSize <= 1` and the error kind are modelled.
- LruCache.ConcurrentLRUCache.constructor and LruCache.ConcurrentLRUCache.Copy
  require `maxSize > 1` instead of throwing, because a Dafny constructor cannot
  fail. The throwing path is modelled by `LruCache.Create` and
  `LruCache.CreateCopy`, which return `Failure(IllegalArgument(maxSize))`.
- Integer widths: the capacity is an unbounded `int` rather than a 32-bit
  Java `int`, and the counters are unbounded `nat` rather than 64-bit longs.
  Overflow after 2^63 events is not modelled.
- The counters are a sequence field reassigned by each update rather than an
  `AtomicLongArray`; the model does not capture their atomicity.
- LoaderAdapter.java, CompositeDataExtractor.java and
  App2ConfigPropertiesTest.java are not part of this model.
