// The byte-bounded LRU cache of backend/cache.py against a plain map and a log of uses.
module LruCache {
  import opened Wrappers

  datatype Entry<V> = Entry(key: string, value: V, bytes: nat)

  function Bytes<V>(store: seq<Entry<V>>): nat {
    if store == [] then 0 else store[0].bytes + Bytes(store[1..])
  }

  predicate Has<V>(store: seq<Entry<V>>, key: string) {
    exists i :: 0 <= i < |store| && store[i].key == key
  }

  predicate DistinctKeys<V>(store: seq<Entry<V>>) {
    forall i, j :: 0 <= i < j < |store| ==> store[i].key != store[j].key
  }

  /** The store without a key, order kept. */
  function Without<V>(store: seq<Entry<V>>, key: string): seq<Entry<V>> {
    if store == [] then []
    else (if store[0].key == key then [] else [store[0]]) + Without(store[1..], key)
  }

  /** How many of the oldest entries go so that need more bytes fit, or all when they never do. */
  function ToEvict<V>(store: seq<Entry<V>>, need: nat, max: int): (n: nat)
    ensures n <= |store|
  {
    if store == [] || Bytes(store) + need <= max then 0 else 1 + ToEvict(store[1..], need, max)
  }

  /** No fewer would do, and these are enough. */
  lemma {:induction false} EvictsShortest<V>(store: seq<Entry<V>>, need: nat, max: int)
    ensures var n := ToEvict(store, need, max);
            && (n == |store| || Bytes(store[n..]) + need <= max)
            && forall m :: 0 <= m < n ==> Bytes(store[m..]) + need > max
  {
    assert store[0..] == store;
    if store != [] && Bytes(store) + need > max {
      var n := ToEvict(store[1..], need, max);
      EvictsShortest(store[1..], need, max);
      assert store[n + 1..] == store[1..][n..];
      forall m | 0 < m < n + 1 ensures Bytes(store[m..]) + need > max {
        assert store[m..] == store[1..][m - 1..];
      }
    }
  }

  lemma EvictsOn<V>(store: seq<Entry<V>>, gone: nat, need: nat, max: int)
    requires gone <= ToEvict(store, need, max)
    ensures gone < ToEvict(store, need, max) <==> Bytes(store[gone..]) + need > max && store[gone..] != []
  {
    EvictsShortest(store, need, max);
  }

  /** The position of the last use of a key, -1 when there is none. */
  function LastUse(uses: seq<string>, key: string): int {
    if uses == [] then -1
    else if uses[|uses| - 1] == key then |uses| - 1
    else LastUse(uses[..|uses| - 1], key)
  }

  lemma UseMoves(uses: seq<string>, key: string, other: string)
    ensures LastUse(uses + [key], other) == if other == key then |uses| else LastUse(uses, other)
  {
    assert (uses + [key])[..|uses|] == uses;
  }

  lemma {:induction false} LastUseBounded(uses: seq<string>, key: string)
    ensures -1 <= LastUse(uses, key) < |uses|
  {
    if uses != [] && uses[|uses| - 1] != key {
      LastUseBounded(uses[..|uses| - 1], key);
    }
  }

  /** Oldest use first. */
  predicate ByRecency<V>(store: seq<Entry<V>>, uses: seq<string>) {
    forall i, j :: 0 <= i < j < |store| ==> LastUse(uses, store[i].key) < LastUse(uses, store[j].key)
  }

  /** Every cached value is the one the plain map has. */
  predicate Agrees<V(==)>(store: seq<Entry<V>>, plain: map<string, V>) {
    forall i :: 0 <= i < |store| ==> store[i].key in plain && plain[store[i].key] == store[i].value
  }

  /** In a store of distinct keys, leaving a key out is leaving out its entry. */
  lemma {:induction false} WithoutAt<V>(store: seq<Entry<V>>, i: nat)
    requires DistinctKeys(store) && i < |store|
    ensures Without(store, store[i].key) == store[..i] + store[i + 1..]
  {
    var rest := store[1..];
    if i == 0 {
      WithoutAbsent(rest, store[0].key);
      assert store[..0] + store[1..] == rest;
    } else {
      WithoutAt(rest, i - 1);
      assert rest[i - 1] == store[i];
      assert [store[0]] + (rest[..i - 1] + rest[i..]) == store[..i] + store[i + 1..];
    }
  }

  lemma {:induction false} WithoutAbsent<V>(store: seq<Entry<V>>, key: string)
    requires forall i :: 0 <= i < |store| ==> store[i].key != key
    ensures Without(store, key) == store
  {
    if store != [] {
      WithoutAbsent(store[1..], key);
    }
  }

  lemma {:induction false} BytesConcat<V>(a: seq<Entry<V>>, b: seq<Entry<V>>)
    ensures Bytes(a + b) == Bytes(a) + Bytes(b)
  {
    if a == [] {
      assert a + b == b;
    } else {
      BytesConcat(a[1..], b);
      assert (a + b)[1..] == a[1..] + b;
    }
  }

  lemma BytesSnoc<V>(store: seq<Entry<V>>, e: Entry<V>)
    ensures Bytes(store + [e]) == Bytes(store) + e.bytes
  {
    BytesConcat(store, [e]);
    assert [e][1..] == [];
  }

  lemma BytesWithout<V>(store: seq<Entry<V>>, i: nat)
    requires i < |store|
    ensures Bytes(store[..i] + store[i + 1..]) == Bytes(store) - store[i].bytes
  {
    TakeOut(store, i);
    BytesPieces(store[..i], store[i], store[i + 1..]);
  }

  lemma TakeOut<T>(s: seq<T>, i: nat)
    requires i < |s|
    ensures s == s[..i] + [s[i]] + s[i + 1..]
  {
  }

  lemma BytesPieces<V>(pre: seq<Entry<V>>, e: Entry<V>, post: seq<Entry<V>>)
    ensures Bytes(pre + [e] + post) == Bytes(pre + post) + e.bytes
  {
    BytesConcat(pre + [e], post);
    BytesSnoc(pre, e);
    BytesConcat(pre, post);
  }

  /** Entries in order of their last use stay so when another key, not among them, is used and goes to the end. */
  lemma UseAtEnd<V>(store: seq<Entry<V>>, uses: seq<string>, e: Entry<V>)
    requires ByRecency(store, uses) && DistinctKeys(store) && !Has(store, e.key)
    ensures ByRecency(store, uses + [e.key]) && ByRecency(store + [e], uses + [e.key]) && DistinctKeys(store + [e])
  {
    forall i | 0 <= i < |store| ensures LastUse(uses + [e.key], store[i].key) == LastUse(uses, store[i].key) < |uses| {
      UseMoves(uses, e.key, store[i].key);
      LastUseBounded(uses, store[i].key);
    }
    UseMoves(uses, e.key, e.key);
  }

  /** Leaving one out keeps order, distinctness and agreement, and no entry has its key any more. */
  lemma OmitKeeps<V>(store: seq<Entry<V>>, i: nat, uses: seq<string>, plain: map<string, V>)
    requires ByRecency(store, uses) && DistinctKeys(store) && i < |store| && Agrees(store, plain)
    ensures var rest := store[..i] + store[i + 1..];
            ByRecency(rest, uses) && DistinctKeys(rest) && Agrees(rest, plain) && !Has(rest, store[i].key)
  {
    var rest := store[..i] + store[i + 1..];
    assert forall j :: 0 <= j < |rest| ==> rest[j] == if j < i then store[j] else store[j + 1];
  }

  lemma DropFromPlain<V>(store: seq<Entry<V>>, plain: map<string, V>, key: string)
    requires Agrees(store, plain) && !Has(store, key)
    ensures Agrees(store, plain - {key})
  {
  }

  lemma SuffixAgrees<V>(store: seq<Entry<V>>, n: nat, plain: map<string, V>, key: string, value: V)
    requires Agrees(store, plain) && !Has(store, key) && n <= |store|
    ensures Agrees(store[n..], plain[key := value]) && !Has(store[n..], key)
  {
  }

  lemma NothingAfter<T>(s: seq<T>)
    ensures s + [] == s
  {
  }

  /** What a put leaves of the store before it adds its own entry. */
  function Remaining<V>(store: seq<Entry<V>>, key: string, bytes: nat, max: int): seq<Entry<V>> {
    var rest := Without(store, key);
    rest[ToEvict(rest, bytes, max)..]
  }

  lemma {:induction false} SuffixBytes<V>(store: seq<Entry<V>>, i: nat, j: nat)
    requires i <= j <= |store|
    ensures Bytes(store[j..]) <= Bytes(store[i..])
  {
    assert store[i..] == store[i..j] + store[j..];
    BytesConcat(store[i..j], store[j..]);
  }

  /** An entry survives the eviction exactly when it, all more recent ones and the new value fit together. */
  lemma SurvivesIff<V>(store: seq<Entry<V>>, i: nat, need: nat, max: int)
    requires i < |store|
    ensures i >= ToEvict(store, need, max) <==> Bytes(store[i..]) + need <= max
  {
    var n := ToEvict(store, need, max);
    EvictsShortest(store, need, max);
    if i >= n {
      SuffixBytes(store, n, i);
    }
  }

  class MemoryLRUCache<V(==)> {
    var store: seq<Entry<V>>
    const maxBytes: int
    var currentBytes: int
    var pathToHash: map<string, string>
    var hits: nat
    var misses: nat
    // What a plain map would hold, and every use of a key that hit or was stored, in order.
    ghost var plain: map<string, V>
    ghost var uses: seq<string>

    ghost predicate Valid()
      reads this
    {
      && DistinctKeys(store) && currentBytes == Bytes(store)
      && (currentBytes <= maxBytes || store == [])
      && ByRecency(store, uses) && Agrees(store, plain)
    }

    constructor (maxBytes: int)
      ensures Valid() && store == [] && plain == map[] && uses == [] && this.maxBytes == maxBytes
      ensures hits == misses == 0 && pathToHash == map[]
    {
      this.maxBytes, store, currentBytes, pathToHash, hits, misses := maxBytes, [], 0, map[], 0, 0;
      plain, uses := map[], [];
    }

    /** The index of a key in the ordered store. */
    method IndexOf(key: string) returns (i: int)
      ensures -1 <= i < |store| && (i < 0 <==> !Has(store, key))
      ensures i >= 0 ==> store[i].key == key
    {
      i := |store| - 1;
      while i >= 0 && store[i].key != key
        invariant -1 <= i < |store|
        invariant forall j :: i < j < |store| ==> store[j].key != key
      {
        i := i - 1;
      }
    }

    /** Delete one entry and its bytes. */
    method Delete(i: nat)
      requires Valid() && i < |store|
      modifies this`store, this`currentBytes
      ensures Valid() && store == old(store)[..i] + old(store)[i + 1..]
      ensures currentBytes + old(store)[i].bytes == old(currentBytes) <= maxBytes && !Has(store, old(store)[i].key)
    {
      BytesWithout(store, i);
      OmitKeeps(store, i, uses, plain);
      currentBytes := currentBytes - store[i].bytes;
      store := store[..i] + store[i + 1..];
    }

    /** Append an entry as the most recent. */
    method Append(e: Entry<V>)
      requires Valid() && !Has(store, e.key) && currentBytes + e.bytes <= maxBytes
      requires e.key in plain && plain[e.key] == e.value
      modifies this`store, this`currentBytes, this`uses
      ensures Valid() && store == old(store) + [e] && uses == old(uses) + [e.key]
    {
      UseAtEnd(store, uses, e);
      BytesSnoc(store, e);
      store := store + [e];
      currentBytes := currentBytes + e.bytes;
      uses := uses + [e.key];
    }

    /** A hit is what the plain map has, and becomes the most recent; a miss changes nothing but a counter. */
    method Get(key: string) returns (value: Option<V>)
      requires Valid()
      modifies this
      ensures Valid() && plain == old(plain) && pathToHash == old(pathToHash)
      ensures value.Some? <==> Has(old(store), key)
      ensures value.Some? ==> key in plain && value.value == plain[key]
      ensures if value.Some?
              then |store| > 0 && store[|store| - 1].key == key && store[..|store| - 1] == Without(old(store), key)
              else store == old(store)
      ensures uses == old(uses) + if value.Some? then [key] else []
      ensures hits == old(hits) + (if value.Some? then 1 else 0) &&
              misses == old(misses) + (if value.Some? then 0 else 1)
    {
      var i := IndexOf(key);
      if i < 0 {
        misses := misses + 1;
        return None;
      }
      var e := store[i];
      WithoutAt(store, i);
      Delete(i);
      Append(e);
      hits := hits + 1;
      value := Some(e.value);
    }

    /** The least recent entry goes. */
    method EvictOne()
      requires Valid() && store != []
      modifies this`store, this`currentBytes
      ensures Valid() && store == old(store)[1..]
    {
      assert store[..0] + store[1..] == store[1..];
      Delete(0);
    }

    /** Drop the least recent entries until need more bytes fit, and not one more. */
    method Evict(need: nat)
      requires Valid()
      modifies this`store, this`currentBytes
      ensures Valid() && store == old(store)[ToEvict(old(store), need, maxBytes)..]
      ensures currentBytes + need <= maxBytes || store == []
    {
      ghost var all := store;
      ghost var n := ToEvict(store, need, maxBytes);
      ghost var gone := 0;
      EvictsOn(all, 0, need, maxBytes);
      while currentBytes + need > maxBytes && store != []
        invariant Valid() && gone <= n <= |all| && store == all[gone..]
        invariant gone < n <==> currentBytes + need > maxBytes && store != []
        decreases |store|
      {
        EvictsOn(all, gone + 1, need, maxBytes);
        EvictOne();
        assert all[gone..][1..] == all[gone + 1..];
        gone := gone + 1;
      }
      assert gone == n;
    }

    /**
     * The key goes out, then the shortest run of least recent entries that makes room, then the new entry comes in as
     * the most recent; one larger than the whole budget empties the cache and is not stored.
     */
    method Put(key: string, value: V, bytes: nat)
      requires Valid()
      modifies this
      ensures Valid() && plain == old(plain)[key := value] && pathToHash == old(pathToHash)
      ensures hits == old(hits) && misses == old(misses)
      ensures store == Remaining(old(store), key, bytes, maxBytes) +
              if bytes <= maxBytes then [Entry(key, value, bytes)] else []
      ensures bytes > maxBytes ==> store == []
      ensures uses == old(uses) + if bytes <= maxBytes then [key] else []
    {
      var removed := Remove(key);
      ghost var n := ToEvict(store, bytes, maxBytes);
      SuffixAgrees(store, n, plain, key, value);
      Evict(bytes);
      plain := plain[key := value];
      assert store == Remaining(old(store), key, bytes, maxBytes);
      if bytes > maxBytes {
        NothingAfter(store);
        return;
      }
      Append(Entry(key, value, bytes));
    }

    /** Take a key out of the store, if it is there. */
    method Remove(key: string) returns (existed: bool)
      requires Valid()
      modifies this`store, this`currentBytes
      ensures Valid() && existed == Has(old(store), key) && store == Without(old(store), key) && !Has(store, key)
    {
      var i := IndexOf(key);
      existed := i >= 0;
      if existed {
        WithoutAt(store, i);
        Delete(i);
      } else {
        WithoutAbsent(store, key);
      }
    }

    method Invalidate(key: string) returns (existed: bool)
      requires Valid()
      modifies this
      ensures Valid() && existed == Has(old(store), key) && store == Without(old(store), key)
      ensures plain == old(plain) - {key} && uses == old(uses) && pathToHash == old(pathToHash)
      ensures hits == old(hits) && misses == old(misses)
    {
      existed := Remove(key);
      DropFromPlain(store, plain, key);
      plain := plain - {key};
    }

    /** The path is forgotten, and with it the frame of its content. */
    method InvalidateByPath(path: string) returns (existed: bool)
      requires Valid()
      modifies this
      ensures Valid() && pathToHash == old(pathToHash) - {path} && uses == old(uses)
      ensures hits == old(hits) && misses == old(misses)
      ensures path !in old(pathToHash) ==> !existed && store == old(store) && plain == old(plain)
      ensures path in old(pathToHash) ==>
                var key := "df:" + old(pathToHash)[path];
                existed == Has(old(store), key) && store == Without(old(store), key) && plain == old(plain) - {key}
    {
      if path !in pathToHash {
        assert pathToHash == pathToHash - {path};
        return false;
      }
      var key := "df:" + pathToHash[path];
      pathToHash := pathToHash - {path};
      existed := Invalidate(key);
    }

    /** A path that gets new content loses the frame of its old content. */
    method RegisterPath(path: string, hash: string)
      requires Valid()
      modifies this
      ensures Valid() && pathToHash == old(pathToHash)[path := hash] && uses == old(uses)
      ensures hits == old(hits) && misses == old(misses)
      ensures var stale := path in old(pathToHash) && old(pathToHash)[path] != "" && old(pathToHash)[path] != hash;
              if stale then
                store == Without(old(store), "df:" + old(pathToHash)[path]) &&
                  plain == old(plain) - {"df:" + old(pathToHash)[path]}
              else store == old(store) && plain == old(plain)
    {
      if path in pathToHash && pathToHash[path] != "" && pathToHash[path] != hash {
        var existed := Invalidate("df:" + pathToHash[path]);
      }
      pathToHash := pathToHash[path := hash];
    }
  }
}
