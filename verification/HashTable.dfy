/** The exact-match tables of `datapath/table-hash.c`, as values: one entry per
    bucket, for an arbitrary hash function of the key's fields. */
module HashTable {
  import opened Prelude
  import opened FlowKey
  import opened Flow

  type HashFn = Fields -> nat

  type Buckets = s: seq<Option<FlowEntry>> | |s| > 0 witness [None]

  datatype Hash = Hash(buckets: Buckets, nFlows: nat)

  function Index(h: HashFn, t: Hash, f: Fields): (i: nat)
    ensures i < |t.buckets|
  {
    h(f) % |t.buckets|
  }

  function NewHash(n: nat): Hash
    requires n > 0
  {
    Hash(seq(n, i => None), 0)
  }

  function Occupied(s: seq<Option<FlowEntry>>): nat {
    if s == [] then 0
    else Occupied(s[..|s| - 1]) + if s[|s| - 1].Some? then 1 else 0
  }

  /** Every entry is wildcard free and in its own bucket; `nFlows` counts them. */
  predicate PlacedAt(h: HashFn, t: Hash, i: nat)
    requires i < |t.buckets|
  {
    t.buckets[i].Some? ==>
      var f := t.buckets[i].value;
      Masked(f.key) && f.key.wild == EXACT && Index(h, t, f.key.fields) == i
  }

  predicate Ok(h: HashFn, t: Hash) {
    t.nFlows == Occupied(t.buckets) && forall i :: 0 <= i < |t.buckets| ==> PlacedAt(h, t, i)
  }

  predicate Stores(t: Hash, f: FlowEntry) {
    exists i :: 0 <= i < |t.buckets| && t.buckets[i] == Some(f)
  }

  // ----- operations, as the code performs them

  function Lookup(h: HashFn, t: Hash, key: Key): Option<FlowEntry> {
    var b := t.buckets[Index(h, t, key.fields)];
    if b.Some? && b.value.key.fields == key.fields then b else None
  }

  /** Whether an insertion is accepted: not for wildcarded flows, nor when the
      bucket holds another key. */
  predicate Accepts(h: HashFn, t: Hash, f: FlowEntry) {
    var b := t.buckets[Index(h, t, f.key.fields)];
    f.key.wild == EXACT && (b.Some? ==> b.value.key.fields == f.key.fields)
  }

  function Insert(h: HashFn, t: Hash, f: FlowEntry): Hash {
    var i := Index(h, t, f.key.fields);
    if Accepts(h, t, f) then
      Hash(t.buckets[i := Some(f)], if t.buckets[i].None? then t.nFlows + 1 else t.nFlows)
    else t
  }

  predicate Hits(b: Option<FlowEntry>, sel: Selector) { b.Some? && Selects(sel, b.value) }

  /** How many entries a full scan hits: the count that modify and delete return. */
  function CountHits(s: seq<Option<FlowEntry>>, sel: Selector): nat {
    if s == [] then 0
    else CountHits(s[..|s| - 1], sel) + if Hits(s[|s| - 1], sel) then 1 else 0
  }

  function ModifiedBucket(b: Option<FlowEntry>, sel: Selector, acts: seq<Action>): Option<FlowEntry> {
    if Hits(b, sel) then Some(b.value.(acts := acts)) else b
  }

  function ModifiedBuckets(s: Buckets, sel: Selector, acts: seq<Action>): (r: Buckets)
    ensures |r| == |s|
    ensures forall i :: 0 <= i < |s| ==> r[i] == ModifiedBucket(s[i], sel, acts)
  {
    seq(|s|, i requires 0 <= i < |s| => ModifiedBucket(s[i], sel, acts))
  }

  function Modify(h: HashFn, t: Hash, sel: Selector, acts: seq<Action>): Hash
    requires sel.Described?
  {
    if sel.key.wild == EXACT then
      var i := Index(h, t, sel.key.fields);
      t.(buckets := t.buckets[i := ModifiedBucket(t.buckets[i], sel, acts)])
    else t.(buckets := ModifiedBuckets(t.buckets, sel, acts))
  }

  function ModifyCount(h: HashFn, t: Hash, sel: Selector): nat
    requires sel.Described?
  {
    if sel.key.wild == EXACT then
      if Hits(t.buckets[Index(h, t, sel.key.fields)], sel) then 1 else 0
    else CountHits(t.buckets, sel)
  }

  predicate ConflictIn(b: Option<FlowEntry>, key: Key, priority: nat, strict: bool) {
    b.Some? && Matches2Desc(b.value.key, key, strict) && b.value.priority == priority
  }

  predicate HasConflict(h: HashFn, t: Hash, key: Key, priority: nat, strict: bool) {
    if key.wild == EXACT then ConflictIn(t.buckets[Index(h, t, key.fields)], key, priority, strict)
    else ScanConflict(t, key, priority, strict)
  }

  function ClearedBucket(b: Option<FlowEntry>, sel: Selector): Option<FlowEntry> {
    if Hits(b, sel) then None else b
  }

  function ClearedBuckets(s: Buckets, sel: Selector): (r: Buckets)
    ensures |r| == |s|
    ensures forall i :: 0 <= i < |s| ==> r[i] == ClearedBucket(s[i], sel)
  {
    seq(|s|, i requires 0 <= i < |s| => ClearedBucket(s[i], sel))
  }

  /** The exact-key fast path of deletion compares keys directly. */
  predicate DeletesFast(b: Option<FlowEntry>, sel: Selector)
    requires sel.Described?
  {
    b.Some? && b.value.key.fields == sel.key.fields && HasOutPort(b.value.acts, sel.outPort)
  }

  function Delete(h: HashFn, t: Hash, sel: Selector): Hash
    requires sel.Described? && t.nFlows == Occupied(t.buckets)
  {
    if sel.key.wild == EXACT then
      var i := Index(h, t, sel.key.fields);
      if DeletesFast(t.buckets[i], sel) then
        OccupiedUpdate(t.buckets, i, None);
        Hash(t.buckets[i := None], t.nFlows - 1)
      else t
    else ScanRemove(t, sel)
  }

  function DeleteCount(h: HashFn, t: Hash, sel: Selector): nat
    requires sel.Described?
  {
    if sel.key.wild == EXACT then
      if DeletesFast(t.buckets[Index(h, t, sel.key.fields)], sel) then 1 else 0
    else CountHits(t.buckets, sel)
  }

  function Iterated(h: HashFn, t: Hash, key: Key, outPort: nat): seq<FlowEntry> {
    if key.wild == EXACT then
      var b := Lookup(h, t, key);
      if b.Some? && HasOutPort(b.value.acts, outPort) then [b.value] else []
    else ScanList(t.buckets, key, outPort)
  }

  // ----- the same operations as full scans

  function ScanModify(t: Hash, sel: Selector, acts: seq<Action>): Hash {
    t.(buckets := ModifiedBuckets(t.buckets, sel, acts))
  }

  predicate ScanConflict(t: Hash, key: Key, priority: nat, strict: bool) {
    exists i :: 0 <= i < |t.buckets| && ConflictIn(t.buckets[i], key, priority, strict)
  }

  function ScanRemove(t: Hash, sel: Selector): Hash
    requires t.nFlows == Occupied(t.buckets)
  {
    OccupiedCleared(t.buckets, ClearedBuckets(t.buckets, sel), sel);
    Hash(ClearedBuckets(t.buckets, sel), t.nFlows - CountHits(t.buckets, sel))
  }

  function ScanList(s: seq<Option<FlowEntry>>, key: Key, outPort: nat): seq<FlowEntry> {
    if s == [] then []
    else
      var b := s[|s| - 1];
      ScanList(s[..|s| - 1], key, outPort)
      + if b.Some? && Matches1Wild(b.value.key, key) && HasOutPort(b.value.acts, outPort)
        then [b.value] else []
  }

  // ----- counting

  lemma {:induction false} OccupiedUpdate(s: seq<Option<FlowEntry>>, i: nat, b: Option<FlowEntry>)
    requires i < |s|
    ensures Occupied(s[i := b])
            == Occupied(s) - (if s[i].Some? then 1 else 0) + (if b.Some? then 1 else 0)
    decreases |s|
  {
    var r := s[i := b];
    if i < |s| - 1 {
      OccupiedUpdate(s[..|s| - 1], i, b);
      assert r[..|s| - 1] == s[..|s| - 1][i := b];
    } else {
      assert r[..|s| - 1] == s[..|s| - 1];
    }
  }

  lemma {:induction false} OccupiedCleared(s: seq<Option<FlowEntry>>, r: seq<Option<FlowEntry>>, sel: Selector)
    requires |r| == |s| && forall i :: 0 <= i < |s| ==> r[i] == ClearedBucket(s[i], sel)
    ensures CountHits(s, sel) <= Occupied(s) && Occupied(r) == Occupied(s) - CountHits(s, sel)
    decreases |s|
  {
    if s != [] {
      OccupiedCleared(s[..|s| - 1], r[..|s| - 1], sel);
    }
  }

  lemma {:induction false} OccupiedSame(s: seq<Option<FlowEntry>>, r: seq<Option<FlowEntry>>)
    requires |r| == |s| && forall i :: 0 <= i < |s| ==> (r[i].Some? <==> s[i].Some?)
    ensures Occupied(r) == Occupied(s)
    decreases |s|
  {
    if s != [] {
      OccupiedSame(s[..|s| - 1], r[..|s| - 1]);
    }
  }

  lemma {:induction false} OccupiedEmpty(s: seq<Option<FlowEntry>>)
    requires forall i :: 0 <= i < |s| ==> s[i].None?
    ensures Occupied(s) == 0
  {
    if s != [] {
      OccupiedEmpty(s[..|s| - 1]);
    }
  }

  // ----- preservation

  lemma NewOk(h: HashFn, n: nat)
    requires n > 0
    ensures Ok(h, NewHash(n))
  {
    OccupiedEmpty(NewHash(n).buckets);
  }

  lemma InsertKeeps(h: HashFn, t: Hash, f: FlowEntry)
    requires Ok(h, t) && Masked(f.key)
    ensures Ok(h, Insert(h, t, f))
  {
    var i := Index(h, t, f.key.fields);
    OccupiedUpdate(t.buckets, i, Some(f));
    forall j | 0 <= j < |t.buckets| ensures PlacedAt(h, Insert(h, t, f), j) {
      assert PlacedAt(h, t, j);
    }
  }

  lemma ScanModifyKeeps(h: HashFn, t: Hash, sel: Selector, acts: seq<Action>)
    requires Ok(h, t)
    ensures Ok(h, ScanModify(t, sel, acts))
  {
    var u := ScanModify(t, sel, acts);
    OccupiedSame(t.buckets, u.buckets);
    forall j | 0 <= j < |t.buckets| ensures PlacedAt(h, u, j) {
      assert PlacedAt(h, t, j);
    }
  }

  lemma ScanRemoveKeeps(h: HashFn, t: Hash, sel: Selector)
    requires Ok(h, t)
    ensures Ok(h, ScanRemove(t, sel))
  {
    var u := ScanRemove(t, sel);
    OccupiedCleared(t.buckets, u.buckets, sel);
    forall j | 0 <= j < |t.buckets| ensures PlacedAt(h, u, j) {
      assert PlacedAt(h, t, j);
    }
  }

  // ----- fast paths equal full scans

  /** Under a wildcard-free description only the hashed bucket can match, and it
      matches exactly when it holds that key. */
  lemma OnlyOwnBucketMatches(h: HashFn, t: Hash, key: Key, j: nat)
    requires Ok(h, t) && Masked(key) && key.wild == EXACT && j < |t.buckets| && t.buckets[j].Some?
    ensures var k := t.buckets[j].value.key;
            && (Matches1Wild(k, key) <==> k.fields == key.fields)
            && (Matches2Wild(k, key) <==> k.fields == key.fields)
            && k.wild == EXACT && (k.fields == key.fields ==> j == Index(h, t, key.fields))
  {
    assert PlacedAt(h, t, j);
    ExactMatch(t.buckets[j].value.key, key);
  }

  lemma {:induction false} CountSingle(s: seq<Option<FlowEntry>>, sel: Selector, i: nat)
    requires forall j :: 0 <= j < |s| && j != i ==> !Hits(s[j], sel)
    ensures CountHits(s, sel) == if i < |s| && Hits(s[i], sel) then 1 else 0
    decreases |s|
  {
    if s != [] {
      CountSingle(s[..|s| - 1], sel, i);
    }
  }

  lemma FastModify(h: HashFn, t: Hash, sel: Selector, acts: seq<Action>)
    requires Ok(h, t) && sel.Described? && Masked(sel.key)
    ensures Modify(h, t, sel, acts) == ScanModify(t, sel, acts)
    ensures ModifyCount(h, t, sel) == CountHits(t.buckets, sel)
  {
    if sel.key.wild == EXACT {
      forall j | 0 <= j < |t.buckets| && j != Index(h, t, sel.key.fields)
        ensures !Hits(t.buckets[j], sel)
      {
        if t.buckets[j].Some? {
          OnlyOwnBucketMatches(h, t, sel.key, j);
        }
      }
      assert Modify(h, t, sel, acts).buckets == ModifiedBuckets(t.buckets, sel, acts);
      CountSingle(t.buckets, sel, Index(h, t, sel.key.fields));
    }
  }

  lemma FastConflict(h: HashFn, t: Hash, key: Key, priority: nat, strict: bool)
    requires Ok(h, t) && Masked(key)
    ensures HasConflict(h, t, key, priority, strict) <==> ScanConflict(t, key, priority, strict)
  {
    if key.wild == EXACT {
      forall j | 0 <= j < |t.buckets| && j != Index(h, t, key.fields)
        ensures !ConflictIn(t.buckets[j], key, priority, strict)
      {
        if t.buckets[j].Some? {
          OnlyOwnBucketMatches(h, t, key, j);
        }
      }
    }
  }

  /** Deletion ignores the priority, so the scan it equals does too. */
  lemma FastDelete(h: HashFn, t: Hash, sel: Selector)
    requires Ok(h, t) && sel.Described? && Masked(sel.key) && !sel.byPriority
    ensures Delete(h, t, sel) == ScanRemove(t, sel)
    ensures DeleteCount(h, t, sel) == CountHits(t.buckets, sel)
  {
    if sel.key.wild == EXACT {
      var i := Index(h, t, sel.key.fields);
      forall j | 0 <= j < |t.buckets| && t.buckets[j].Some?
        ensures Hits(t.buckets[j], sel) <==>
                t.buckets[j].value.key.fields == sel.key.fields
                && HasOutPort(t.buckets[j].value.acts, sel.outPort)
        ensures Hits(t.buckets[j], sel) ==> j == i
      {
        OnlyOwnBucketMatches(h, t, sel.key, j);
      }
      assert Delete(h, t, sel).buckets == ClearedBuckets(t.buckets, sel);
      CountSingle(t.buckets, sel, i);
    }
  }

  /** The list of a scan in which only bucket `i` can match. */
  lemma {:induction false} ScanListSingle(s: seq<Option<FlowEntry>>, key: Key, outPort: nat, i: nat)
    requires forall j :: 0 <= j < |s| && j != i && s[j].Some? ==> !Matches1Wild(s[j].value.key, key)
    ensures ScanList(s, key, outPort)
            == if i < |s| && s[i].Some? && Matches1Wild(s[i].value.key, key)
                  && HasOutPort(s[i].value.acts, outPort)
               then [s[i].value] else []
    decreases |s|
  {
    if s != [] {
      ScanListSingle(s[..|s| - 1], key, outPort, i);
    }
  }

  lemma FastIterate(h: HashFn, t: Hash, key: Key, outPort: nat)
    requires Ok(h, t) && Masked(key)
    ensures Iterated(h, t, key, outPort) == ScanList(t.buckets, key, outPort)
  {
    if key.wild == EXACT {
      var i := Index(h, t, key.fields);
      forall j | 0 <= j < |t.buckets| && t.buckets[j].Some?
        ensures Matches1Wild(t.buckets[j].value.key, key) <==>
                j == i && t.buckets[j].value.key.fields == key.fields
      {
        OnlyOwnBucketMatches(h, t, key, j);
      }
      ScanListSingle(t.buckets, key, outPort, i);
    }
  }

  /** A packet matches a stored entry exactly when lookup finds that entry. */
  lemma LookupFindsMatch(h: HashFn, t: Hash, key: Key, f: FlowEntry)
    requires Ok(h, t) && Stores(t, f)
    ensures Matches1Wild(key, f.key) <==> Lookup(h, t, key) == Some(f)
  {
    var i :| 0 <= i < |t.buckets| && t.buckets[i] == Some(f);
    assert PlacedAt(h, t, i);
    ExactMatch(key, f.key);
  }
}
