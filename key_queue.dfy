/**
  The order queue of the cache: a sequence of keys, oldest first, together
  with the queue operations the cache performs on it (remove a given key,
  append at the tail, poll at the head) and the facts the cache needs about
  them.
 */
module KeyQueue {

  /** The set of keys that occur in the queue. */
  function Keys<K>(q: seq<K>): set<K>
  {
    set k | k in q
  }

  /** No key occurs twice in the queue. */
  ghost predicate NoDuplicates<K>(q: seq<K>)
  {
    forall i, j | 0 <= i < j < |q| :: q[i] != q[j]
  }

  /** Position of the first occurrence of `k` in `q`. */
  function IndexOf<K(==)>(q: seq<K>, k: K): (i: nat)
    requires k in q
    ensures i < |q| && q[i] == k
    ensures k !in q[..i]
  {
    if q[0] == k then 0 else 1 + IndexOf(q[1..], k)
  }

  /**
    Removes the first occurrence of `k` from `q`, if there is one: the
    behaviour of `remove(Object)` on a Java queue.
   */
  function RemoveFirst<K(==)>(q: seq<K>, k: K): (r: seq<K>)
    ensures k !in q ==> r == q
    ensures k in q ==> |r| == |q| - 1
  {
    if q == [] then []
    else if q[0] == k then q[1..]
    else [q[0]] + RemoveFirst(q[1..], k)
  }

  /** RemoveFirst takes out one occurrence of `k` and keeps every other element. */
  lemma {:induction false} RemoveFirstMultiset<K>(q: seq<K>, k: K)
    ensures multiset(RemoveFirst(q, k)) == multiset(q) - multiset{k}
  {
    if q != [] {
      assert q == [q[0]] + q[1..];
      if q[0] != k {
        RemoveFirstMultiset(q[1..], k);
      }
    }
  }

  /** Promotes `k` to the newest position: remove it, then append it. */
  function MoveToTail<K(==)>(q: seq<K>, k: K): (r: seq<K>)
    ensures |r| > 0 && r[|r| - 1] == k
    ensures k in q ==> |r| == |q|
    ensures k !in q ==> r == q + [k]
  {
    RemoveFirst(q, k) + [k]
  }

  /**
    Number of keys the eviction loop of a put polls from the head of a queue
    of length `len` under capacity `maxSize`: it polls while the length is
    at least the capacity, so it stops at the first length below it.
   */
  function EvictCount(len: nat, maxSize: int): (e: nat)
    requires maxSize >= 1
    ensures e <= len
    ensures len - e < maxSize
    ensures e > 0 ==> len - e == maxSize - 1
  {
    if len >= maxSize then len - maxSize + 1 else 0
  }

  /** The newest (last) `n` keys of `q`, or all of `q` if it is shorter. */
  function Newest<K>(q: seq<K>, n: nat): (r: seq<K>)
    ensures |r| <= n && |r| <= |q|
    ensures |r| == n || r == q
    ensures r == q[|q| - |r|..]
  {
    if |q| <= n then q else q[|q| - n..]
  }

  /** How many of `len` distinct keys replayed into a cache of capacity `maxSize` get evicted. */
  function Overflow(len: nat, maxSize: nat): nat
  {
    if len > maxSize then len - maxSize else 0
  }

  /** The part of `m` whose keys are in `s`. */
  function Restrict<K, V>(m: map<K, V>, s: set<K>): (r: map<K, V>)
    ensures r.Keys == m.Keys * s
    ensures forall k | k in r :: r[k] == m[k]
  {
    map k | k in m && k in s :: m[k]
  }

  /**
    Removing the first occurrence of `k` deletes exactly that position and
    keeps every other key in its relative order.
   */
  lemma {:induction false} RemoveFirstAt<K>(q: seq<K>, k: K, i: nat)
    requires i < |q| && q[i] == k && k !in q[..i]
    ensures RemoveFirst(q, k) == q[..i] + q[i + 1..]
  {
    if i == 0 {
      assert q[..0] + q[1..] == q[1..];
    } else {
      var t := q[1..];
      assert q[0] != k by {
        assert q[0] == q[..i][0];
      }
      assert k !in t[..i - 1] by {
        var u, p := t[..i - 1], q[..i];
        forall j | 0 <= j < |u| ensures u[j] != k {
          assert u[j] == p[j + 1];
        }
      }
      RemoveFirstAt(t, k, i - 1);
      assert RemoveFirst(q, k) == [q[0]] + (t[..i - 1] + t[i..]);
      assert [q[0]] + (t[..i - 1] + t[i..]) == q[..i] + q[i + 1..] by {
        assert [q[0]] + t[..i - 1] == q[..i];
        assert t[i..] == q[i + 1..];
      }
    }
  }

  /**
    Deleting one position of a duplicate-free queue leaves a duplicate-free
    queue without that key and with every other key.
   */
  lemma DeleteAt<K>(q: seq<K>, i: nat)
    requires NoDuplicates(q) && i < |q|
    ensures NoDuplicates(q[..i] + q[i + 1..])
    ensures Keys(q[..i] + q[i + 1..]) == Keys(q) - {q[i]}
  {
    var r := q[..i] + q[i + 1..];
    assert forall j | 0 <= j < |r| :: r[j] == q[if j < i then j else j + 1];
    forall a, b | 0 <= a < b < |r| ensures r[a] != r[b] {
      assert r[a] == q[if a < i then a else a + 1];
      assert r[b] == q[if b < i then b else b + 1];
    }
    assert q == q[..i] + [q[i]] + q[i + 1..];
  }

  /** Appending a key that is not yet queued keeps the queue duplicate-free. */
  lemma AppendFresh<K>(q: seq<K>, k: K)
    requires NoDuplicates(q) && k !in q
    ensures NoDuplicates(q + [k])
    ensures Keys(q + [k]) == Keys(q) + {k}
  {
    var r := q + [k];
    forall a, b | 0 <= a < b < |r| ensures r[a] != r[b] {
      if b == |q| {
        assert r[a] == q[a];
      }
    }
  }

  /**
    Promoting a key of a duplicate-free queue deletes it from its position
    and re-appends it at the tail: the length, the key set and the
    duplicate-freedom of the queue are kept, and so is the relative order of
    the other keys.
   */
  lemma MoveToTailProperties<K>(q: seq<K>, k: K)
    requires NoDuplicates(q) && k in q
    ensures MoveToTail(q, k) == q[..IndexOf(q, k)] + q[IndexOf(q, k) + 1..] + [k]
    ensures |MoveToTail(q, k)| == |q|
    ensures Keys(MoveToTail(q, k)) == Keys(q)
    ensures NoDuplicates(MoveToTail(q, k))
  {
    var i := IndexOf(q, k);
    RemoveFirstAt(q, k, i);
    DeleteAt(q, i);
    AppendFresh(q[..i] + q[i + 1..], k);
  }

  /** A duplicate-free queue has exactly as many distinct keys as it has elements. */
  lemma {:induction false} KeysCardinality<K>(q: seq<K>)
    requires NoDuplicates(q)
    ensures |Keys(q)| == |q|
  {
    if q != [] {
      var t := q[1..];
      assert NoDuplicates(t) by {
        forall a, b | 0 <= a < b < |t| ensures t[a] != t[b] {
          assert t[a] == q[a + 1] && t[b] == q[b + 1];
        }
      }
      KeysCardinality(t);
      assert q[0] !in Keys(t) by {
        forall j | 0 <= j < |t| ensures t[j] != q[0] {
          assert t[j] == q[j + 1];
        }
      }
      assert Keys(q) == {q[0]} + Keys(t) by {
        assert q == [q[0]] + t;
      }
    }
  }

  /**
    Dropping the `e` oldest keys of a duplicate-free queue leaves a
    duplicate-free queue holding exactly the other keys.
   */
  lemma DropOldest<K>(q: seq<K>, e: nat)
    requires NoDuplicates(q) && e <= |q|
    ensures NoDuplicates(q[e..])
    ensures Keys(q[e..]) == Keys(q) - Keys(q[..e])
  {
    assert q == q[..e] + q[e..];
    forall x | x in q[e..] ensures x !in q[..e] {
      var j :| 0 <= j < |q[e..]| && q[e..][j] == x;
      assert q[e + j] == x;
      forall i | 0 <= i < e ensures q[i] != x { }
    }
    var t := q[e..];
    forall a, b | 0 <= a < b < |t| ensures t[a] != t[b] {
      assert t[a] == q[e + a] && t[b] == q[e + b];
    }
  }

  /**
    Replaying one more distinct key into a cache that holds the newest
    `maxSize` keys of `s`: polling the head as the eviction loop does and
    appending the key leaves the newest `maxSize` keys of `s + [x]`.
   */
  lemma NewestStep<K>(s: seq<K>, x: K, maxSize: nat)
    requires maxSize >= 1
    ensures var t := Newest(s, maxSize);
      t[EvictCount(|t|, maxSize)..] + [x] == Newest(s + [x], maxSize)
  {
    var t := Newest(s, maxSize);
    var e := EvictCount(|t|, maxSize);
    var u := s + [x];
    var r := Newest(u, maxSize);
    assert |t[e..] + [x]| == |r|;
    forall j | 0 <= j < |r| ensures (t[e..] + [x])[j] == r[j] {
      if j < |r| - 1 {
        assert (t[e..] + [x])[j] == t[e + j] == s[|s| - |t| + e + j];
        assert r[j] == u[|u| - |r| + j];
      }
    }
  }

  /**
    The same replay step seen on the table: evicting the entries of the
    `e` oldest keys of a copy restricted to the keys of `s`, then storing
    `m[k]` under `k`, leaves `m` restricted to the keys of the new queue.
   */
  lemma RestrictStep<K, V>(m: map<K, V>, s: seq<K>, e: nat, k: K)
    requires NoDuplicates(s) && e <= |s| && k in m
    ensures (Restrict(m, Keys(s)) - Keys(s[..e]))[k := m[k]] == Restrict(m, Keys(s[e..] + [k]))
  {
    assert s == s[..e] + s[e..];
    assert Keys(s) - Keys(s[..e]) == Keys(s[e..]) by {
      forall x | x in s[e..] ensures x !in s[..e] {
        var j :| 0 <= j < |s[e..]| && s[e..][j] == x;
        assert s[e + j] == x;
        forall i | 0 <= i < e ensures s[i] != x { }
      }
    }
    assert Keys(s[e..] + [k]) == Keys(s[e..]) + {k};
  }

  /** A prefix of a duplicate-free queue is duplicate-free. */
  lemma PrefixDistinct<K>(q: seq<K>, n: nat)
    requires NoDuplicates(q) && n <= |q|
    ensures NoDuplicates(q[..n])
  {
    var p := q[..n];
    forall a, b | 0 <= a < b < |p| ensures p[a] != p[b] {
      assert p[a] == q[a] && p[b] == q[b];
    }
  }

  /**
    If `s + [x]` is duplicate-free, the newest `n` keys of `s` are
    duplicate-free and do not contain `x`.
   */
  lemma NewestDistinct<K>(s: seq<K>, n: nat, x: K)
    requires NoDuplicates(s + [x])
    ensures NoDuplicates(Newest(s, n)) && x !in Newest(s, n)
  {
    var u, t := s + [x], Newest(s, n);
    var off := |s| - |t|;
    assert t == s[off..];
    forall a, b | 0 <= a < b < |t| ensures t[a] != t[b] {
      assert t[a] == s[off + a] == u[off + a];
      assert t[b] == s[off + b] == u[off + b];
    }
    forall j | 0 <= j < |t| ensures t[j] != x {
      assert t[j] == s[off + j] == u[off + j];
      assert u[|s|] == x;
    }
  }

  /**
    One step of replaying the keys `q` of a cache, whose table is `m`, into
    a cache of capacity `maxSize` that already holds the newest keys of
    `q[..i]` with their values: `q[i]` is new there, and evicting as the
    eviction loop does and then storing it leaves the newest keys of
    `q[..i + 1]` with their values.
   */
  lemma ReplayStep<K, V>(m: map<K, V>, q: seq<K>, i: nat, maxSize: nat, queue: seq<K>, entries: map<K, V>)
    requires NoDuplicates(q) && Keys(q) == m.Keys && i < |q| && maxSize >= 1
    requires queue == Newest(q[..i], maxSize) && entries == Restrict(m, Keys(queue))
    ensures q[i] in m && q[i] !in entries
    ensures var e := EvictCount(|queue|, maxSize);
      && queue[e..] + [q[i]] == Newest(q[..i + 1], maxSize)
      && (entries - Keys(queue[..e]))[q[i] := m[q[i]]] == Restrict(m, Keys(Newest(q[..i + 1], maxSize)))
      && Overflow(i, maxSize) + e == Overflow(i + 1, maxSize)
  {
    assert q[..i + 1] == q[..i] + [q[i]];
    PrefixDistinct(q, i + 1);
    NewestDistinct(q[..i], maxSize, q[i]);
    NewestStep(q[..i], q[i], maxSize);
    RestrictStep(m, queue, EvictCount(|queue|, maxSize), q[i]);
  }
}
