/** The MAC learning table of `lib/mac-learning.c` as it is built. */
module MacTable {
  // There are 1024 entries, each on the free list or on the list of used entries,
  // and hash buckets over the used ones.  The table is proved to be the cache of
  // module `MacCache`.

  import opened Prelude
  import opened MacCache

  const MAC_HASH_BITS := 10
  const MAC_HASH_SIZE := 1024

  datatype Entry = Entry(key: Key, port: int, expires: int)

  /** `entries` never moves; the lists and buckets hold indices into it. */
  datatype Table = Table(entries: seq<Entry>, free: seq<nat>, lrus: seq<nat>, buckets: seq<seq<nat>>)

  type Hash = Key -> nat

  /** The bucket of a hash value: the code masks it with MAC_HASH_BITS, that is binary
      1010, so that only four buckets are ever used. */
  function Masked(h: nat): (b: nat)
    ensures b < MAC_HASH_SIZE
  {
    (if h / 2 % 2 == 1 then 2 else 0) + (if h / 8 % 2 == 1 then 8 else 0)
  }

  function BucketOf(hash: Hash, k: Key): (b: nat)
    ensures b < MAC_HASH_SIZE
  {
    Masked(hash(k))
  }

  // ----- lists

  predicate Below(s: seq<nat>, n: nat) { forall i :: 0 <= i < |s| ==> s[i] < n }

  // ----- the invariant

  /** The free and the used list together hold every entry once. */
  predicate Split(free: seq<nat>, lrus: seq<nat>) {
    && NoDup(free) && NoDup(lrus) && |free| + |lrus| == MAC_MAX
    && Below(free, MAC_MAX) && Below(lrus, MAC_MAX) && forall e :: e in free ==> e !in lrus
  }

  /** A bucket holds exactly the used entries whose key hashes to it. */
  ghost predicate GoodBucket(t: Table, hash: Hash, b: nat)
    requires |t.entries| == MAC_MAX && |t.buckets| == MAC_HASH_SIZE && b < MAC_HASH_SIZE
    requires Below(t.lrus, MAC_MAX)
  {
    NoDup(t.buckets[b]) && Below(t.buckets[b], MAC_MAX)
    && forall e :: e in t.buckets[b] <==> e in t.lrus && BucketOf(hash, t.entries[e].key) == b
  }

  predicate UniqueKeys(entries: seq<Entry>, lrus: seq<nat>)
    requires Below(lrus, |entries|)
  {
    forall e, f :: e in lrus && f in lrus && entries[e].key == entries[f].key ==> e == f
  }

  ghost predicate Good(t: Table, hash: Hash) {
    && |t.entries| == MAC_MAX && |t.buckets| == MAC_HASH_SIZE
    && Split(t.free, t.lrus) && UniqueKeys(t.entries, t.lrus)
    && forall b {:trigger GoodBucket(t, hash, b)} :: 0 <= b < MAC_HASH_SIZE ==> GoodBucket(t, hash, b)
  }

  function RecOf(e: Entry): Rec { Rec(e.key, e.port, e.expires) }

  /** The cache that the table stands for. */
  function Abs(t: Table): Cache
    requires Below(t.lrus, |t.entries|)
  {
    seq(|t.lrus|, i requires 0 <= i < |t.lrus| => RecOf(t.entries[t.lrus[i]]))
  }

  // ----- searching

  /** `search_bucket`. */
  function Search(entries: seq<Entry>, chain: seq<nat>, k: Key): (r: Option<nat>)
    requires Below(chain, |entries|)
    ensures r.Some? ==> r.value in chain && entries[r.value].key == k
    ensures r.None? ==> forall e :: e in chain ==> entries[e].key != k
  {
    if chain == [] then None
    else if entries[chain[0]].key == k then Some(chain[0])
    else Search(entries, chain[1..], k)
  }

  function Lookup(t: Table, hash: Hash, k: Key): int
    requires Good(t, hash)
  {
    assert GoodBucket(t, hash, BucketOf(hash, k));
    if Multicast(k) then OFPP_FLOOD
    else
      var e := Search(t.entries, t.buckets[BucketOf(hash, k)], k);
      if e.Some? then t.entries[e.value].port else OFPP_FLOOD
  }

  /** Searching one bucket is searching the cache. */
  lemma SearchFinds(t: Table, hash: Hash, k: Key)
    requires Good(t, hash) && GoodBucket(t, hash, BucketOf(hash, k))
    ensures var e := Search(t.entries, t.buckets[BucketOf(hash, k)], k);
      if e.Some? then e.value in t.lrus && Find(Abs(t), k) == IndexOf(t.lrus, e.value)
      else !Present(Abs(t), k)
  {
    var e := Search(t.entries, t.buckets[BucketOf(hash, k)], k);
    if e.Some? {
      var i := IndexOf(t.lrus, e.value);
      assert Abs(t)[i].key == k;
      var f := Find(Abs(t), k);
      assert Abs(t)[f].key == k;
      assert t.lrus[f] == t.lrus[i];
    } else {
      forall i | 0 <= i < |t.lrus| ensures Abs(t)[i].key != k { assert t.lrus[i] in t.lrus; }
    }
  }

  lemma LookupIsCacheLookup(t: Table, hash: Hash, k: Key)
    requires Good(t, hash)
    ensures Lookup(t, hash, k) == MacCache.Lookup(Abs(t), k)
  {
    assert GoodBucket(t, hash, BucketOf(hash, k));
    SearchFinds(t, hash, k);
  }

  // ----- changing

  /** `free_mac_entry`. */
  function FreeEntry(t: Table, hash: Hash, e: nat): Table
    requires Good(t, hash) && e in t.lrus
  {
    var b := BucketOf(hash, t.entries[e].key);
    assert GoodBucket(t, hash, b);
    t.(buckets := t.buckets[b := Without(t.buckets[b], e)], lrus := Without(t.lrus, e), free := [e] + t.free)
  }

  lemma FreeEntryGood(t: Table, hash: Hash, e: nat)
    requires Good(t, hash) && e in t.lrus
    ensures Good(FreeEntry(t, hash, e), hash)
  {
    var r := FreeEntry(t, hash, e);
    var b := BucketOf(hash, t.entries[e].key);
    WithoutKeeps(t.lrus, e);
    assert GoodBucket(t, hash, b);
    WithoutKeeps(t.buckets[b], e);
    forall c | 0 <= c < MAC_HASH_SIZE ensures GoodBucket(r, hash, c) {
      assert GoodBucket(t, hash, c);
    }
  }

  /** Freeing the first used entry drops the first record. */
  lemma FreeFirst(t: Table, hash: Hash)
    requires Good(t, hash) && t.lrus != []
    ensures Good(FreeEntry(t, hash, t.lrus[0]), hash)
    ensures FreeEntry(t, hash, t.lrus[0]).lrus == t.lrus[1..] && Abs(t) != []
    ensures Abs(FreeEntry(t, hash, t.lrus[0])) == Abs(t)[1..]
  {
    FreeEntryGood(t, hash, t.lrus[0]);
  }

  /** `mac_learning_run`. */
  function Expire(t: Table, hash: Hash, now: int): (r: Table)
    requires Good(t, hash)
    ensures Good(r, hash)
    decreases |t.lrus|
  {
    if t.lrus != [] && now >= t.entries[t.lrus[0]].expires then
      FreeFirst(t, hash);
      Expire(FreeEntry(t, hash, t.lrus[0]), hash, now)
    else t
  }

  lemma {:induction false} ExpireIsCacheExpire(t: Table, hash: Hash, now: int)
    requires Good(t, hash)
    ensures Abs(Expire(t, hash, now)) == MacCache.Expire(Abs(t), now)
    decreases |t.lrus|
  {
    if t.lrus != [] && now >= t.entries[t.lrus[0]].expires {
      FreeFirst(t, hash);
      ExpireIsCacheExpire(FreeEntry(t, hash, t.lrus[0]), hash, now);
    }
  }

  /** A new key takes the first free entry. */
  function Use(t: Table, hash: Hash, r: Entry): Table
    requires Good(t, hash) && t.free != []
  {
    var e, b := t.free[0], BucketOf(hash, r.key);
    Table(t.entries[e := r], t.free[1..], t.lrus + [e], t.buckets[b := [e] + t.buckets[b]])
  }

  lemma UseGood(t: Table, hash: Hash, r: Entry)
    requires Good(t, hash) && t.free != [] && !Present(Abs(t), r.key)
    ensures Good(Use(t, hash, r), hash)
  {
    hide Masked, BucketOf;
    var u, e := Use(t, hash, r), t.free[0];
    assert e in t.free;
    forall f | f in t.lrus ensures t.entries[f].key != r.key {
      assert Abs(t)[IndexOf(t.lrus, f)].key == t.entries[f].key;
    }
    forall b | 0 <= b < MAC_HASH_SIZE ensures GoodBucket(u, hash, b) {
      assert GoodBucket(t, hash, b);
    }
  }

  lemma UseAppends(t: Table, hash: Hash, r: Entry)
    requires Good(t, hash) && t.free != [] && Below(Use(t, hash, r).lrus, MAC_MAX)
    ensures Abs(Use(t, hash, r)) == Abs(t) + [RecOf(r)]
  {
    var u, e := Use(t, hash, r), t.free[0];
    assert e in t.free;
    forall i | 0 <= i < |t.lrus| ensures Abs(u)[i] == Abs(t)[i] { assert t.lrus[i] in t.lrus; }
  }

  /** A known key keeps its entry, which becomes the most recently used one. */
  function Refresh(t: Table, e: nat, r: Entry): Table
    requires e in t.lrus && e < |t.entries|
  {
    t.(entries := t.entries[e := r], lrus := Without(t.lrus, e) + [e])
  }

  lemma RefreshGood(t: Table, hash: Hash, e: nat, r: Entry)
    requires Good(t, hash) && e in t.lrus && t.entries[e].key == r.key
    ensures Good(Refresh(t, e, r), hash)
  {
    var u := Refresh(t, e, r);
    WithoutKeeps(t.lrus, e);
    forall f ensures f in u.lrus <==> f in t.lrus {}
    forall b | 0 <= b < MAC_HASH_SIZE ensures GoodBucket(u, hash, b) {
      assert GoodBucket(t, hash, b);
    }
  }

  lemma RefreshMoves(t: Table, hash: Hash, e: nat, r: Entry)
    requires Good(t, hash) && e in t.lrus && Below(Refresh(t, e, r).lrus, MAC_MAX)
    ensures Abs(Refresh(t, e, r)) == Drop(Abs(t), IndexOf(t.lrus, e)) + [RecOf(r)]
  {
    hide GoodBucket, UniqueKeys, Masked, BucketOf;
    var u, i := Refresh(t, e, r), IndexOf(t.lrus, e);
    forall j | 0 <= j < |t.lrus| - 1 ensures Abs(u)[j] == Abs(t)[if j < i then j else j + 1] {}
  }

  /** When no entry is free the least recently used one is freed. */
  function Vacated(t: Table, hash: Hash): (r: Table)
    requires Good(t, hash)
    ensures Good(r, hash) && r.free != []
  {
    if t.free != [] then t else FreeFirst(t, hash); FreeEntry(t, hash, t.lrus[0])
  }

  /** `mac_learning_learn`. */
  function Learn(t: Table, hash: Hash, k: Key, port: int, now: int): Table
    requires Good(t, hash)
  {
    assert GoodBucket(t, hash, BucketOf(hash, k));
    var r := Entry(k, port, now + LIFETIME);
    var e := Search(t.entries, t.buckets[BucketOf(hash, k)], k);
    if Multicast(k) then t
    else if e.Some? then Refresh(t, e.value, r)
    else Use(Vacated(t, hash), hash, r)
  }

  lemma VacatedKeeps(t: Table, hash: Hash, k: Key)
    requires Good(t, hash) && !Present(Abs(t), k)
    ensures Abs(Vacated(t, hash)) == Kept(Abs(t), k) && !Present(Abs(Vacated(t, hash)), k)
  {
    if t.free == [] {
      assert Drop(Abs(t), 0) == Abs(t)[1..];
      FreeFirst(t, hash);
      hide Good;
      assert forall i :: 0 <= i < |Abs(t)| ==> Abs(t)[i].key != k;
    }
  }

  /** Learning in the table is learning in the cache. */
  lemma LearnIsCacheLearn(t: Table, hash: Hash, k: Key, port: int, now: int)
    requires Good(t, hash)
    ensures Good(Learn(t, hash, k, port, now), hash)
    ensures Abs(Learn(t, hash, k, port, now)) == MacCache.Learn(Abs(t), k, port, now)
  {
    var b := BucketOf(hash, k);
    assert GoodBucket(t, hash, b);
    SearchFinds(t, hash, k);
    var r := Entry(k, port, now + LIFETIME);
    var e := Search(t.entries, t.buckets[b], k);
    hide GoodBucket, Split, UniqueKeys, NoDup, Abs, Use, Vacated, Kept;
    if e.Some? {
      RefreshGood(t, hash, e.value, r);
      RefreshMoves(t, hash, e.value, r);
    } else {
      VacatedKeeps(t, hash, k);
      UseGood(Vacated(t, hash), hash, r);
      UseAppends(Vacated(t, hash), hash, r);
    }
  }

  /** `mac_learning_flush`. */
  function Flush(t: Table, hash: Hash): (r: Table)
    requires Good(t, hash)
    ensures Good(r, hash) && r.lrus == []
    decreases |t.lrus|
  {
    if t.lrus == [] then t
    else
      FreeFirst(t, hash);
      Flush(FreeEntry(t, hash, t.lrus[0]), hash)
  }

  /** `mac_learning_create`: the entries are pushed onto the free list in turn. */
  function Created(entries: seq<Entry>): Table
    requires |entries| == MAC_MAX
  {
    Table(entries, seq(MAC_MAX, i => MAC_MAX - 1 - i), [], seq(MAC_HASH_SIZE, i => []))
  }

  lemma CreatedGood(entries: seq<Entry>, hash: Hash)
    requires |entries| == MAC_MAX
    ensures Good(Created(entries), hash) && Abs(Created(entries)) == []
  {
    var t := Created(entries);
    forall b | 0 <= b < MAC_HASH_SIZE ensures GoodBucket(t, hash, b) {
      assert t.buckets[b] == [];
    }
  }

  // ----- runs

  function Step(t: Table, hash: Hash, e: Event): Table
    requires Good(t, hash)
  {
    match e
    case LearnEvent(k, port, now) => Learn(t, hash, k, port, now)
    case ExpireEvent(now) => Expire(t, hash, now)
    case FlushEvent(_) => Flush(t, hash)
  }

  lemma StepIsCacheStep(t: Table, hash: Hash, e: Event)
    requires Good(t, hash)
    ensures Good(Step(t, hash, e), hash) && Abs(Step(t, hash, e)) == MacCache.Step(Abs(t), e)
  {
    hide Good, Learn, Expire, Flush, MacCache.Learn, MacCache.Expire;
    match e
    case LearnEvent(k, port, now) => LearnIsCacheLearn(t, hash, k, port, now);
    case ExpireEvent(now) => ExpireIsCacheExpire(t, hash, now);
    case FlushEvent(_) =>
  }

  /** The table after the first `n` events. */
  function Run(entries: seq<Entry>, hash: Hash, events: seq<Event>, n: nat): (t: Table)
    requires |entries| == MAC_MAX && n <= |events|
    ensures Good(t, hash)
  {
    if n == 0 then CreatedGood(entries, hash); Created(entries)
    else
      var t := Run(entries, hash, events, n - 1);
      StepIsCacheStep(t, hash, events[n - 1]);
      Step(t, hash, events[n - 1])
  }

  /** For every hash function and every run, the table answers as the cache does. */
  lemma {:induction false} RunIsCacheRun(entries: seq<Entry>, hash: Hash, events: seq<Event>, n: nat, k: Key)
    requires |entries| == MAC_MAX && n <= |events|
    ensures Abs(Run(entries, hash, events, n)) == MacCache.Run(events, n)
    ensures Lookup(Run(entries, hash, events, n), hash, k) == MacCache.Lookup(MacCache.Run(events, n), k)
    decreases n
  {
    hide Good, Lookup, MacCache.Lookup, Step, MacCache.Step;
    if n == 0 {
      CreatedGood(entries, hash);
    } else {
      RunIsCacheRun(entries, hash, events, n - 1, k);
      StepIsCacheStep(Run(entries, hash, events, n - 1), hash, events[n - 1]);
    }
    LookupIsCacheLookup(Run(entries, hash, events, n), hash, k);
  }
}
