/** A run in which a replaced flow comes back. */
module FlowStale {
  import opened Prelude
  import opened BitWords
  import opened FlowKey
  import opened Flow
  import opened FlowChain
  import opened FlowEffects
  import opened FlowInsertion
  import opened FlowProtection
  import H = HashTable
  import L = LinearTable

  // Two flows collide in the first hash table, and the second of them goes to the second
  // table.  When the first is deleted, a replacement of the second goes to the first
  // table, and leaves the original where it was.

  /** Adds a wildcard-free working flow. */
  predicate Exact(m: FlowMod) {
    && !m.checkOverlap && !m.emergency && m.priority <= EXACT_PRIORITY
    && ExtractMatch(m.pattern).wild == EXACT
  }

  function FieldsOf(m: FlowMod): Fields { ExtractMatch(m.pattern).fields }

  /** The hash tables hold exactly the given flows. */
  ghost predicate Contains(c: Chain, first: set<FlowEntry>, second: set<FlowEntry>) {
    && (forall f :: H.Stores(c.sub0, f) <==> f in first) && (forall f :: H.Stores(c.sub1, f) <==> f in second)
    && |c.sub0.buckets| == |c.sub1.buckets| == TABLE_HASH_MAX_FLOWS
  }

  /** A table that holds nothing in the flow's bucket accepts it. */
  lemma EmptyAccepts(h: H.HashFn, t: H.Hash, f: FlowEntry)
    requires f.key.wild == EXACT && forall g :: !H.Stores(t, g)
    ensures H.Accepts(h, t, f)
  {
    var i := H.Index(h, t, f.key.fields);
    if t.buckets[i].Some? {
      assert H.Stores(t, t.buckets[i].value);
    }
  }

  lemma CollidingRefuses(h: H.HashFn, t: H.Hash, f: FlowEntry, g: FlowEntry)
    requires H.Ok(h, t) && H.Stores(t, g) && g.key.fields != f.key.fields
    requires H.Index(h, t, f.key.fields) == H.Index(h, t, g.key.fields)
    ensures !H.Accepts(h, t, f)
  {
    var i :| 0 <= i < |t.buckets| && t.buckets[i] == Some(g);
    assert H.PlacedAt(h, t, i);
  }

  lemma AddFirst(hs: Hashes, c: Chain, m: FlowMod, now: nat, second: set<FlowEntry>)
    requires Ok(hs, c) && Exact(m) && Contains(c, {}, second)
    ensures var d := AddFlow(hs, c, m, now); Ok(hs, d) && Contains(d, {FlowOf(m, now)}, second)
  {
    var f := FlowOf(m, now);
    FlowOfIsProper(m, now);
    EmptyAccepts(hs.h0, c.sub0, f);
    InsertKeeps(hs, c, f, false);
    forall g ensures H.Stores(H.Insert(hs.h0, c.sub0, f), g) <==> g == f {
      HashInsertIsExact(hs.h0, c.sub0, f, g);
    }
  }

  lemma AddSecond(hs: Hashes, c: Chain, m: FlowMod, now: nat, a: FlowEntry)
    requires Ok(hs, c) && Exact(m) && Contains(c, {a}, {}) && a.key.fields != FieldsOf(m)
    requires H.Index(hs.h0, c.sub0, a.key.fields) == H.Index(hs.h0, c.sub0, FieldsOf(m))
    ensures var d := AddFlow(hs, c, m, now); Ok(hs, d) && Contains(d, {a}, {FlowOf(m, now)})
  {
    var f := FlowOf(m, now);
    FlowOfIsProper(m, now);
    CollidingRefuses(hs.h0, c.sub0, f, a);
    EmptyAccepts(hs.h1, c.sub1, f);
    InsertKeeps(hs, c, f, false);
    forall g ensures H.Stores(H.Insert(hs.h1, c.sub1, f), g) <==> g == f {
      HashInsertIsExact(hs.h1, c.sub1, f, g);
    }
  }

  lemma StrictlySelects(key: Key, sel: Selector, a: FlowEntry)
    requires Masked(key) && key.wild == EXACT && Masked(a.key) && a.key.wild == EXACT
    requires sel.Described? && sel == Described(key, true, false, sel.priority, OFPP_NONE)
    ensures Selects(sel, a) <==> a.key.fields == key.fields
  {
    ExactMatch(a.key, key);
  }

  lemma ScanLeaves(t: H.Hash, sel: Selector, f: FlowEntry)
    requires t.nFlows == H.Occupied(t.buckets) && forall g :: H.Stores(t, g) <==> g == f
    ensures forall g :: H.Stores(H.ScanRemove(t, sel), g) <==> g == f && !Selects(sel, f)
  {
    forall g ensures H.Stores(H.ScanRemove(t, sel), g) <==> g == f && !Selects(sel, f) {
      ScanRemoveStores(t, sel, g);
    }
  }

  lemma DeleteFirst(hs: Hashes, c: Chain, m: FlowMod, a: FlowEntry, b: FlowEntry)
    requires Ok(hs, c) && Exact(m) && Contains(c, {a}, {b}) && a.key.fields == FieldsOf(m) != b.key.fields
    ensures var d := DeleteFlow(hs, c, m.pattern, m.priority, OFPP_NONE, true, false);
            Ok(hs, d) && Contains(d, {}, {b})
  {
    var key := ExtractMatch(m.pattern);
    assert Normal(key);
    NormalIsMasked(key);
    hide ExtractMatch, Selects;
    var sel := DeleteSelector(key, m.priority, OFPP_NONE, true);
    var hsel := sel.(byPriority := false);
    DeleteKeeps(hs, c, sel, false);
    H.FastDelete(hs.h0, c.sub0, hsel);
    H.FastDelete(hs.h1, c.sub1, hsel);
    HashedIsExact(hs, c, a);
    HashedIsExact(hs, c, b);
    StrictlySelects(key, hsel, a);
    StrictlySelects(key, hsel, b);
    ScanLeaves(c.sub0, hsel, a);
    ScanLeaves(c.sub1, hsel, b);
  }

  lemma ExpireFirst(hs: Hashes, c: Chain, now: nat, b: FlowEntry, r: FlowEntry)
    requires Ok(hs, c) && Contains(c, {r}, {b}) && TimedOut(r, now) && !TimedOut(b, now)
    ensures Ok(hs, Timeout(hs, c, now)) && Contains(Timeout(hs, c, now), {}, {b})
  {
    TimeoutKeeps(hs, c, now);
    ScanLeaves(c.sub0, Elapsed(now), r);
    ScanLeaves(c.sub1, Elapsed(now), b);
  }

  lemma LookupFirst(hs: Hashes, c: Chain, key: Key, f: FlowEntry)
    requires Ok(hs, c) && H.Stores(c.sub0, f) && key.fields == f.key.fields
    ensures Lookup(hs, c, key, false) == Some(f)
  {
    HashedIsExact(hs, c, f);
    ExactMatch(key, f.key);
    H.LookupFindsMatch(hs.h0, c.sub0, key, f);
  }

  lemma LookupSecond(hs: Hashes, c: Chain, key: Key, f: FlowEntry)
    requires Ok(hs, c) && Contains(c, {}, {f}) && key.fields == f.key.fields
    ensures Lookup(hs, c, key, false) == Some(f)
  {
    HashedIsExact(hs, c, f);
    ExactMatch(key, f.key);
    H.LookupFindsMatch(hs.h1, c.sub1, key, f);
    if H.Lookup(hs.h0, c.sub0, key).Some? {
      HashHit(hs.h0, c.sub0, key);
    }
  }

  /** The events: add `a`, add the colliding `b`, delete `a`, add the replacement of `b`. */
  function Replacing(a: FlowMod, b: FlowMod, r: FlowMod): (events: seq<(Event, nat)>)
    requires Exact(a) && Exact(b) && Exact(r)
    ensures SensibleRun(events)
  {
    [(Add(a), 0), (Add(b), 0), (Del(a.pattern, a.priority, OFPP_NONE, true, false), 0), (Add(r), 0)]
  }

  predicate Collide(hs: Hashes, a: FlowMod, b: FlowMod) {
    && FieldsOf(a) != FieldsOf(b)
    && hs.h0(FieldsOf(a)) % TABLE_HASH_MAX_FLOWS == hs.h0(FieldsOf(b)) % TABLE_HASH_MAX_FLOWS
  }

  lemma ReplacingLeaves(hs: Hashes, a: FlowMod, b: FlowMod, r: FlowMod)
    requires Exact(a) && Exact(b) && Exact(r) && r.pattern == b.pattern && Collide(hs, a, b)
    ensures Contains(Run(hs, Replacing(a, b, r)), {FlowOf(r, 0)}, {FlowOf(b, 0)})
  {
    hide AddFlow, DeleteFlow, Ok, Contains, Exact, Collide;
    var c := NewChain();
    RunNone(hs);
    NewChainHoldsNone();
    hide NewChain;
    ReplacingIsSteps(hs, a, b, r);
    hide Replacing, Run;
    ReplacingSteps(hs, c, a, b, r);
  }

  lemma RunNone(hs: Hashes)
    ensures SensibleRun([]) && Run(hs, []) == NewChain()
  {
  }

  lemma ReplacingIsSteps(hs: Hashes, a: FlowMod, b: FlowMod, r: FlowMod)
    requires Exact(a) && Exact(b) && Exact(r)
    ensures Ok(hs, NewChain())
    ensures var c := AddFlow(hs, AddFlow(hs, NewChain(), a, 0), b, 0);
            && Ok(hs, c)
            && var d := DeleteFlow(hs, c, a.pattern, a.priority, OFPP_NONE, true, false);
               Run(hs, Replacing(a, b, r)) == AddFlow(hs, d, r, 0)
  {
    var none: seq<(Event, nat)> := [];
    var one := none + [(Add(a), 0)];
    var two := one + [(Add(b), 0)];
    var del := Del(a.pattern, a.priority, OFPP_NONE, true, false);
    var three := two + [(del, 0)];
    assert Replacing(a, b, r) == three + [(Add(r), 0)];
    RunNone(hs);
    assert Sensible(Add(a)) && Sensible(Add(b)) && Sensible(Add(r));
    hide AddFlow, DeleteFlow, Ok, NewChain, Exact, Run, SensibleRun, Replacing;
    RunOneMore(hs, none, Add(a), 0);
    RunOneMore(hs, one, Add(b), 0);
    RunOneMore(hs, two, del, 0);
    RunOneMore(hs, three, Add(r), 0);
  }

  lemma ReplacingSteps(hs: Hashes, c0: Chain, a: FlowMod, b: FlowMod, r: FlowMod)
    requires Exact(a) && Exact(b) && Exact(r) && r.pattern == b.pattern && Collide(hs, a, b)
    requires Ok(hs, c0) && Contains(c0, {}, {})
    ensures var c1 := AddFlow(hs, c0, a, 0);
            var c2 := AddFlow(hs, c1, b, 0);
            && Ok(hs, c2)
            && var c3 := DeleteFlow(hs, c2, a.pattern, a.priority, OFPP_NONE, true, false);
               Contains(AddFlow(hs, c3, r, 0), {FlowOf(r, 0)}, {FlowOf(b, 0)})
  {
    hide AddFlow, DeleteFlow, Ok;
    AddFirst(hs, c0, a, 0, {});
    var c1 := AddFlow(hs, c0, a, 0);
    assert |c1.sub0.buckets| == TABLE_HASH_MAX_FLOWS;
    hide Contains;
    AddSecond(hs, c1, b, 0, FlowOf(a, 0));
    var c2 := AddFlow(hs, c1, b, 0);
    DeleteFirst(hs, c2, a, FlowOf(a, 0), FlowOf(b, 0));
    AddFirst(hs, DeleteFlow(hs, c2, a.pattern, a.priority, OFPP_NONE, true, false), r, 0, {FlowOf(b, 0)});
  }

  lemma NewChainHoldsNone()
    ensures Contains(NewChain(), {}, {})
  {
  }

  /** Both flows are then in the tables, and the replacement answers.  When it expires,
      the flow that it has replaced answers again. */
  lemma ReplacedFlowReturns(hs: Hashes, a: FlowMod, b: FlowMod, r: FlowMod, now: nat)
    requires Exact(a) && Exact(b) && Exact(r) && r.pattern == b.pattern && Collide(hs, a, b)
    requires TimedOut(FlowOf(r, 0), now) && !TimedOut(FlowOf(b, 0), now)
    ensures var key := ExtractMatch(b.pattern);
            && L.Same(FlowOf(b, 0), FlowOf(r, 0))
            && Lookup(hs, Run(hs, Replacing(a, b, r)), key, false) == Some(FlowOf(r, 0))
            && SensibleRun(Replacing(a, b, r) + [(Expire, now)])
            && Lookup(hs, Run(hs, Replacing(a, b, r) + [(Expire, now)]), key, false) == Some(FlowOf(b, 0))
  {
    hide ExtractMatch, TimedOut, Lookup, L.Same, Exact, Run, Replacing, SensibleRun, Contains, Timeout, Ok;
    var s := Replacing(a, b, r);
    ReplacingLeaves(hs, a, b, r);
    RunOneMore(hs, s, Expire, now);
    ReplacementExpires(hs, Run(hs, s), ExtractMatch(b.pattern), FlowOf(b, 0), FlowOf(r, 0), now);
  }

  lemma ReplacementExpires(hs: Hashes, c: Chain, key: Key, b: FlowEntry, r: FlowEntry, now: nat)
    requires Ok(hs, c) && Contains(c, {r}, {b}) && TimedOut(r, now) && !TimedOut(b, now)
    requires b.key == r.key == key
    ensures L.Same(b, r) && Lookup(hs, c, key, false) == Some(r)
    ensures Lookup(hs, Timeout(hs, c, now), key, false) == Some(b)
  {
    hide TimedOut, Lookup, Timeout;
    HashedIsExact(hs, c, b);
    HashedIsExact(hs, c, r);
    ExactMatch(b.key, r.key);
    LookupFirst(hs, c, key, r);
    hide Ok;
    ExpireFirst(hs, c, now, b, r);
    LookupSecond(hs, Timeout(hs, c, now), key, b);
  }

  // ----- every hash function has such flows

  /** Adds a flow for packets that are not IP, from the given Ethernet address. */
  function FromAddress(dlSrc: nat, hardTimeout: nat): FlowMod {
    FlowMod(Match(EXACT, Fields(Zeros(32), Zeros(32), 0, 0, 0, 0, 0, dlSrc, 0, 0, 0, 0)), EXACT_PRIORITY,
            [], OFP_FLOW_PERMANENT, hardTimeout, false, false, false)
  }

  lemma FromAddressIsExact(dlSrc: nat, hardTimeout: nat)
    ensures var m := FromAddress(dlSrc, hardTimeout); Exact(m) && FieldsOf(m) == m.pattern.fields
  {
  }

  /** There are more Ethernet addresses than buckets. */
  lemma CollisionsExist(hs: Hashes) returns (x: nat, y: nat)
    ensures x < y <= TABLE_HASH_MAX_FLOWS && Collide(hs, FromAddress(x, 0), FromAddress(y, 0))
  {
    var n: nat := TABLE_HASH_MAX_FLOWS;
    var s := seq(n + 1, k requires 0 <= k < n + 1 => hs.h0(FieldsOf(FromAddress(k, 0))) % TABLE_HASH_MAX_FLOWS);
    x, y := Pigeonhole(s, n);
    FromAddressIsExact(x, 0);
    FromAddressIsExact(y, 0);
  }

  /** So for every pair of hash functions there is a flow that, replaced for one second,
      returns when the second is over. */
  lemma SomeFlowReturns(hs: Hashes) returns (a: FlowMod, b: FlowMod, r: FlowMod)
    ensures Exact(a) && Exact(b) && Exact(r) && r == b.(hardTimeout := 1)
    ensures SensibleRun(Replacing(a, b, r) + [(Expire, HZ + 1)])
    ensures var key := ExtractMatch(b.pattern);
            && Lookup(hs, Run(hs, Replacing(a, b, r)), key, false) == Some(FlowOf(r, 0))
            && Lookup(hs, Run(hs, Replacing(a, b, r) + [(Expire, HZ + 1)]), key, false) == Some(FlowOf(b, 0))
  {
    var x, y := CollisionsExist(hs);
    a, b, r := FromAddress(x, 0), FromAddress(y, 0), FromAddress(y, 1);
    FromAddressIsExact(x, 0);
    FromAddressIsExact(y, 0);
    FromAddressIsExact(y, 1);
    assert TimedOut(FlowOf(r, 0), HZ + 1) && !TimedOut(FlowOf(b, 0), HZ + 1);
    hide Run, Lookup, Replacing, ExtractMatch, TimedOut, Exact, Collide, SensibleRun;
    ReplacedFlowReturns(hs, a, b, r, HZ + 1);
  }
}
