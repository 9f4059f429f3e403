/** The answer cache kept by the background worker (src/background.js):
    an ordered sequence of records, oldest first, kept at MaxCacheSize
    records or fewer by first-in-first-out eviction. */
module CacheStore {

  /** An embedding vector as produced by the feature-extraction model. */
  type Embedding = seq<real>

  /** One cached exchange. `timestamp` is the clock reading, in milliseconds
      since the epoch, taken when the record was built. */
  datatype Entry = Entry(prompt: string, answer: string, embedding: Embedding, timestamp: int)

  /** The stored cache, in insertion order: index 0 is the oldest record. */
  type Cache = seq<Entry>

  const MaxCacheSize: nat := 100

  /** The last `min(|s|, n)` elements of `s`, in their original order. */
  function Recent<T>(s: seq<T>, n: nat): (r: seq<T>)
    ensures |r| == if |s| <= n then |s| else n
    ensures r == s[|s| - |r|..]
  {
    if |s| <= n then s else s[|s| - n..]
  }

  /** The `splice` done before an insertion: once the cache holds
      MaxCacheSize records or more, its oldest `|cache| - MaxCacheSize + 1`
      records are dropped so that exactly one slot is free. */
  function Evict(cache: Cache): (r: Cache)
    ensures |r| < MaxCacheSize && |r| <= |cache|
    ensures r == cache[|cache| - |r|..]
    ensures |cache| < MaxCacheSize ==> r == cache
    ensures |cache| >= MaxCacheSize ==> |r| == MaxCacheSize - 1
  {
    if |cache| >= MaxCacheSize then cache[|cache| - MaxCacheSize + 1..] else cache
  }

  /** `cachePrompt`'s update of the stored array: evict, then push the new
      record at the end. The result is the most recent MaxCacheSize records
      of (the old records followed by the new one). */
  function Insert(cache: Cache, e: Entry): (r: Cache)
    ensures r == Recent(cache + [e], MaxCacheSize)
  {
    var kept := Evict(cache);
    assert (cache + [e])[|cache| + 1 - |kept + [e]|..] == kept + [e];
    kept + [e]
  }

  /** What one insertion does to the cache: the capacity bound holds whatever
      the old length, the new record is last, what precedes it is a
      contiguous suffix of the old cache in its original order, nothing is
      dropped below capacity, and at or above capacity exactly the oldest
      `|cache| - MaxCacheSize + 1` records are dropped. */
  lemma InsertShape(cache: Cache, e: Entry)
    ensures var r := Insert(cache, e);
      && 0 < |r| <= MaxCacheSize
      && r[|r| - 1] == e
      && |r| - 1 <= |cache|
      && r[..|r| - 1] == cache[|cache| - (|r| - 1)..]
      && (|cache| < MaxCacheSize ==> r == cache + [e])
      && (|cache| >= MaxCacheSize ==> r == cache[|cache| - MaxCacheSize + 1..] + [e])
  {
  }

  /** The cache after inserting every record of `es`, first to last. */
  function InsertAll(cache: Cache, es: seq<Entry>): Cache
    decreases |es|
  {
    if |es| == 0 then cache else InsertAll(Insert(cache, es[0]), es[1..])
  }

  /** Dropping a prefix that reaches into the second part of a concatenation
      drops the whole first part. */
  lemma DropPastFirst<T>(p: seq<T>, w: seq<T>, k: nat)
    requires k <= |w|
    ensures (p + w)[|p| + k..] == w[k..]
  {
    assert forall i | 0 <= i < |w| - k :: (p + w)[|p| + k..][i] == w[k..][i];
  }

  /** Keeping the recent part of `s` before appending `t` loses nothing that
      the recent part of `s + t` would keep. */
  lemma RecentOfRecent<T>(s: seq<T>, t: seq<T>, n: nat)
    ensures Recent(Recent(s, n) + t, n) == Recent(s + t, n)
  {
    if |s| <= n {
      assert Recent(s, n) == s;
    } else {
      var p := s[..|s| - n];
      var w := s[|s| - n..] + t;
      assert Recent(s, n) == s[|s| - n..];
      assert s + t == p + w;
      assert |w| >= n;
      assert Recent(w, n) == w[|w| - n..];
      assert Recent(p + w, n) == (p + w)[|p| + (|w| - n)..];
      DropPastFirst(p, w, |w| - n);
    }
  }

  /** One insertion followed by the rest of a batch. */
  lemma InsertAllFirst(cache: Cache, es: seq<Entry>)
    requires |es| > 0
    ensures InsertAll(cache, es) == InsertAll(Insert(cache, es[0]), es[1..])
  {
  }

  /** Inserting `e` and then appending `rest` keeps the same recent records
      as appending `[e] + rest` to the untrimmed cache. */
  lemma InsertThenAppend(cache: Cache, e: Entry, rest: seq<Entry>)
    ensures Recent(Insert(cache, e) + rest, MaxCacheSize) == Recent(cache + ([e] + rest), MaxCacheSize)
  {
    RecentOfRecent(cache + [e], rest, MaxCacheSize);
    assert cache + [e] + rest == cache + ([e] + rest);
  }

  /** Whatever the starting cache, after one or more insertions the cache is
      exactly the most recent MaxCacheSize records of everything it ever
      held, in insertion order. */
  lemma {:induction false} InsertAllKeepsMostRecent(cache: Cache, es: seq<Entry>)
    requires |es| > 0
    ensures InsertAll(cache, es) == Recent(cache + es, MaxCacheSize)
    decreases |es|
  {
    InsertAllFirst(cache, es);
    if |es| == 1 {
      assert es[1..] == [];
      assert es == [es[0]];
    } else {
      InsertAllKeepsMostRecent(Insert(cache, es[0]), es[1..]);
      InsertThenAppend(cache, es[0], es[1..]);
      assert [es[0]] + es[1..] == es;
    }
  }

  /** Capacity invariant: no sequence of insertions takes a cache within
      capacity beyond it. */
  lemma {:induction false} CapacityInvariant(cache: Cache, es: seq<Entry>)
    requires |cache| <= MaxCacheSize
    ensures |InsertAll(cache, es)| <= MaxCacheSize
  {
    if |es| > 0 {
      InsertAllKeepsMostRecent(cache, es);
    }
  }

  /** FIFO eviction: inserting MaxCacheSize + 1 distinct records into an
      empty cache keeps the last MaxCacheSize of them in order, and the first
      one is gone. */
  lemma FifoEviction(es: seq<Entry>)
    requires |es| == MaxCacheSize + 1
    requires forall i, j :: 0 <= i < j < |es| ==> es[i] != es[j]
    ensures InsertAll([], es) == es[1..]
    ensures es[0] !in InsertAll([], es)
  {
    InsertAllKeepsMostRecent([], es);
    assert [] + es == es;
    var r := InsertAll([], es);
    assert forall k :: 0 <= k < |r| ==> r[k] == es[k + 1] && es[k + 1] != es[0];
  }
}
