/** `struct mac_learning` as an object over its arrays and lists.

    The entries are an array that never moves; the free list, the list of used
    entries and the hash buckets hold indices into it, and every method rearranges
    them in place.  `Valid` is the invariant of `MacTable`, and `Contents` is the
    cache of `MacCache` that the lists stand for; contracts are stated on the cache,
    so that its results about whole runs hold of the object. */
module MacObject {
  import opened Prelude
  import opened MacCache
  import T = MacTable

  class MacLearning {
    const hash: T.Hash
    const entries: array<T.Entry>
    var free: seq<nat>
    var lrus: seq<nat>
    const buckets: array<seq<nat>>

    ghost function Table(): T.Table
      reads this, entries, buckets
    {
      T.Table(entries[..], free, lrus, buckets[..])
    }

    ghost predicate Valid()
      reads this, entries, buckets
    {
      T.Good(Table(), hash)
    }

    /** The cache that the object stands for. */
    ghost function Contents(): Cache
      requires Valid()
      reads this, entries, buckets
    {
      T.Abs(Table())
    }

    /** `mac_learning_create`. */
    constructor (hash: T.Hash)
      ensures Valid() && Contents() == [] && fresh(entries) && fresh(buckets)
    {
      this.hash := hash;
      entries := new T.Entry[MAC_MAX](i => T.Entry(Key(false, 0, 0), 0, 0));
      buckets := new seq<nat>[T.MAC_HASH_SIZE](i => []);
      free, lrus := seq(MAC_MAX, i => MAC_MAX - 1 - i), [];
      new;
      assert Table() == T.Created(entries[..]);
      T.CreatedGood(entries[..], hash);
    }

    /** `search_bucket`. */
    method SearchBucket(b: nat, k: Key) returns (r: Option<nat>)
      requires b < buckets.Length && T.Below(buckets[b], entries.Length)
      ensures r == T.Search(entries[..], buckets[b], k)
    {
      var chain := buckets[b];
      for i := 0 to |chain|
        invariant T.Search(entries[..], chain, k) == T.Search(entries[..], chain[i..], k)
      {
        if entries[chain[i]].key == k {
          return Some(chain[i]);
        }
        assert chain[i..][1..] == chain[i + 1..];
      }
      return None;
    }

    /** `free_mac_entry`. */
    method FreeMacEntry(e: nat)
      requires Valid() && e in lrus
      modifies this, buckets
      ensures Valid() && Table() == T.FreeEntry(old(Table()), hash, e)
    {
      ghost var t := Table();
      T.FreeEntryGood(t, hash, e);
      var b := T.BucketOf(hash, entries[e].key);
      assert T.GoodBucket(t, hash, b);
      buckets[b] := Without(buckets[b], e);
      lrus := Without(lrus, e);
      free := [e] + free;
      assert Table() == T.FreeEntry(t, hash, e);
    }

    /** Make sure that an entry is free: when none is, the least recently used one
        leaves its bucket and its list. */
    method Vacate()
      requires Valid()
      modifies this, buckets
      ensures Valid() && Table() == T.Vacated(old(Table()), hash)
    {
      if free == [] {
        T.FreeFirst(Table(), hash);
        FreeMacEntry(lrus[0]);
      }
    }

    /** A new key takes the first free entry, with no port yet. */
    method Use(k: Key) returns (e: nat)
      requires Valid() && free != []
      modifies this, entries, buckets
      ensures Table() == T.Use(old(Table()), hash, T.Entry(k, -1, 0)) && e == old(free)[0] < MAC_MAX
    {
      ghost var t := Table();
      e := free[0];
      var b := T.BucketOf(hash, k);
      entries[e] := T.Entry(k, -1, 0);
      buckets[b] := [e] + buckets[b];
      free := free[1..];
      lrus := lrus + [e];
      assert Table() == T.Use(t, hash, T.Entry(k, -1, 0));
    }

    /** `mac_learning_learn`: whether anything was learned. */
    method Learn(k: Key, port: nat, now: int) returns (learned: bool)
      requires Valid()
      modifies this, entries, buckets
      ensures Valid() && Contents() == MacCache.Learn(old(Contents()), k, port, now)
      ensures Table() == T.Learn(old(Table()), hash, k, port, now)
      ensures learned <==>
              !Multicast(k) && (old(Present(Contents(), k)) ==> old(MacCache.Lookup(Contents(), k)) != port)
    {
      if Multicast(k) {
        return false;
      }
      ghost var t := Table();
      T.LearnIsCacheLearn(t, hash, k, port, now);
      var b := T.BucketOf(hash, k);
      assert T.GoodBucket(t, hash, b);
      T.SearchFinds(t, hash, k);
      var found := SearchBucket(b, k);
      hide T.Good, T.GoodBucket, T.Split, T.UniqueKeys, NoDup, Without, T.BucketOf, MacCache.Learn, T.Abs;
      var e;
      if found.None? {
        Vacate();
        ghost var v := Table();
        e := Use(k);
        learned := true;
        entries[e] := T.Entry(k, port, now + LIFETIME);
        assert entries[..] == v.entries[e := T.Entry(k, port, now + LIFETIME)];
        assert Table() == T.Use(v, hash, T.Entry(k, port, now + LIFETIME));
      } else {
        e := found.value;
        learned := entries[e].port != port;
        lrus := Without(lrus, e) + [e];
        entries[e] := T.Entry(k, port, now + LIFETIME);
        assert Table() == T.Refresh(t, e, T.Entry(k, port, now + LIFETIME));
      }
    }

    /** `mac_learning_lookup`. */
    method Lookup(k: Key) returns (port: int)
      requires Valid()
      ensures port == MacCache.Lookup(Contents(), k)
    {
      T.LookupIsCacheLookup(Table(), hash, k);
      if Multicast(k) {
        return OFPP_FLOOD;
      }
      var b := T.BucketOf(hash, k);
      assert T.GoodBucket(Table(), hash, b);
      var e := SearchBucket(b, k);
      port := if e.Some? then entries[e.value].port else OFPP_FLOOD;
    }

    /** `mac_learning_flush`. */
    method Flush()
      requires Valid()
      modifies this, buckets
      ensures Valid() && Contents() == []
    {
      while lrus != []
        invariant Valid()
        decreases |lrus|
      {
        T.FreeFirst(Table(), hash);
        FreeMacEntry(lrus[0]);
      }
    }

    /** `mac_learning_run`. */
    method Run(now: int)
      requires Valid()
      modifies this, buckets
      ensures Valid() && Contents() == Expire(old(Contents()), now)
      ensures Table() == T.Expire(old(Table()), hash, now)
    {
      T.ExpireIsCacheExpire(Table(), hash, now);
      while lrus != [] && now >= entries[lrus[0]].expires
        invariant Valid() && T.Expire(Table(), hash, now) == T.Expire(old(Table()), hash, now)
        decreases |lrus|
      {
        T.FreeFirst(Table(), hash);
        FreeMacEntry(lrus[0]);
      }
    }
  }
}
