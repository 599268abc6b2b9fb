/** The chain of flow tables of `datapath/chain.c`: a double-hash table for exact
    flows in front of a priority list, and a separate emergency list. */
module FlowChain {
  import opened Prelude
  import opened FlowKey
  import opened Flow
  import H = HashTable
  import L = LinearTable

  const TABLE_LINEAR_MAX_FLOWS := 100
  const TABLE_HASH_MAX_FLOWS := 65536

  /** The two hash functions of the double-hash table. */
  datatype Hashes = Hashes(h0: H.HashFn, h1: H.HashFn)

  datatype Chain = Chain(sub0: H.Hash, sub1: H.Hash, linear: L.Linear, emergency: L.Linear)

  function NewChain(): Chain {
    Chain(H.NewHash(TABLE_HASH_MAX_FLOWS), H.NewHash(TABLE_HASH_MAX_FLOWS),
          L.NewLinear(TABLE_LINEAR_MAX_FLOWS), L.NewLinear(TABLE_LINEAR_MAX_FLOWS))
  }

  /** `f` is in one of the working tables. */
  predicate InWorking(c: Chain, f: FlowEntry) {
    H.Stores(c.sub0, f) || H.Stores(c.sub1, f) || f in c.linear.flows
  }

  ghost predicate Ok(hs: Hashes, c: Chain) {
    && H.Ok(hs.h0, c.sub0) && H.Ok(hs.h1, c.sub1) && L.Ok(c.linear) && L.Ok(c.emergency)
    && (forall f {:trigger Proper(f)} :: InWorking(c, f) ==> Proper(f))
    && (forall f {:trigger Proper(f)} :: f in c.emergency.flows ==> Proper(f) && Normal(f.key))
    && c.emergency.maxFlows <= c.linear.maxFlows
  }

  // ----- lookup

  function Lookup(hs: Hashes, c: Chain, key: Key, emergency: bool): Option<FlowEntry> {
    if emergency then L.Lookup(c.emergency.flows, key)
    else if H.Lookup(hs.h0, c.sub0, key).Some? then H.Lookup(hs.h0, c.sub0, key)
    else if H.Lookup(hs.h1, c.sub1, key).Some? then H.Lookup(hs.h1, c.sub1, key)
    else L.Lookup(c.linear.flows, key)
  }

  lemma HashHit(h: H.HashFn, t: H.Hash, key: Key)
    requires H.Ok(h, t) && H.Lookup(h, t, key).Some?
    ensures var f := H.Lookup(h, t, key).value;
            H.Stores(t, f) && Matches1Wild(key, f.key) && f.key.wild == EXACT
  {
    var i := H.Index(h, t, key.fields);
    assert H.PlacedAt(h, t, i);
    H.LookupFindsMatch(h, t, key, t.buckets[i].value);
  }

  /** The chain finds a flow exactly when one matches, and then one of the highest
      priority among all matching flows of both working tables. */
  lemma LookupIsBest(hs: Hashes, c: Chain, key: Key)
    requires Ok(hs, c) && key.wild == EXACT
    ensures match Lookup(hs, c, key, false)
            case None => forall f :: InWorking(c, f) ==> !Matches1Wild(key, f.key)
            case Some(f) =>
              && InWorking(c, f) && Matches1Wild(key, f.key)
              && forall g :: InWorking(c, g) && Matches1Wild(key, g.key) ==> g.priority <= f.priority
  {
    var r := Lookup(hs, c, key, false);
    if H.Lookup(hs.h0, c.sub0, key).Some? {
      HashHit(hs.h0, c.sub0, key);
      assert Proper(r.value);
    } else if H.Lookup(hs.h1, c.sub1, key).Some? {
      HashHit(hs.h1, c.sub1, key);
      assert Proper(r.value);
    } else {
      L.LookupIsBest(c.linear.flows, key);
      forall g | InWorking(c, g) && Matches1Wild(key, g.key) ensures g in c.linear.flows {
        if H.Stores(c.sub0, g) {
          H.LookupFindsMatch(hs.h0, c.sub0, key, g);
        }
        if H.Stores(c.sub1, g) {
          H.LookupFindsMatch(hs.h1, c.sub1, key, g);
        }
      }
      assert forall g :: g in c.linear.flows ==> (L.MatchedBy(g, key) <==> Matches1Wild(key, g.key));
    }
    forall g | InWorking(c, g) ensures g.priority <= EXACT_PRIORITY {
      assert Proper(g);
    }
  }

  // ----- insertion

  /** Whether `chain_insert` reports that all tables are full. */
  predicate InsertFails(hs: Hashes, c: Chain, f: FlowEntry, emergency: bool) {
    if emergency then L.Refuses(c.emergency, f)
    else !H.Accepts(hs.h0, c.sub0, f) && !H.Accepts(hs.h1, c.sub1, f) && L.Refuses(c.linear, f)
  }

  function Insert(hs: Hashes, c: Chain, f: FlowEntry, emergency: bool): Chain {
    if emergency then c.(emergency := L.Insert(c.emergency, f))
    else if H.Accepts(hs.h0, c.sub0, f) then c.(sub0 := H.Insert(hs.h0, c.sub0, f))
    else if H.Accepts(hs.h1, c.sub1, f) then c.(sub1 := H.Insert(hs.h1, c.sub1, f))
    else c.(linear := L.Insert(c.linear, f))
  }

  lemma HashInsertStores(h: H.HashFn, t: H.Hash, f: FlowEntry, g: FlowEntry)
    requires H.Accepts(h, t, f)
    ensures H.Stores(H.Insert(h, t, f), f)
    ensures H.Stores(H.Insert(h, t, f), g) ==> g == f || H.Stores(t, g)
  {
    assert H.Insert(h, t, f).buckets[H.Index(h, t, f.key.fields)] == Some(f);
  }

  lemma LinearInsertMembers(t: L.Linear, f: FlowEntry, g: FlowEntry)
    requires L.Ok(t) && Masked(f.key) && g in L.Insert(t, f).flows
    ensures g in t.flows || exists n :: g == f.(serial := n)
  {
    L.InsertKeeps(t, f);
    if !L.Refuses(t, f) {
      var n :| L.Combines(t.flows, L.Insert(t, f).flows, f.(serial := n));
    }
  }

  lemma InsertKeeps(hs: Hashes, c: Chain, f: FlowEntry, emergency: bool)
    requires Ok(hs, c) && Proper(f) && (emergency ==> Normal(f.key))
    ensures Ok(hs, Insert(hs, c, f, emergency))
  {
    var d := Insert(hs, c, f, emergency);
    if emergency {
      L.InsertKeeps(c.emergency, f);
      forall g | g in d.emergency.flows ensures Proper(g) && Normal(g.key) {
        LinearInsertMembers(c.emergency, f, g);
        assert g in c.emergency.flows ==> Proper(g);
      }
      assert forall g :: InWorking(d, g) <==> InWorking(c, g);
    } else {
      H.InsertKeeps(hs.h0, c.sub0, f);
      H.InsertKeeps(hs.h1, c.sub1, f);
      L.InsertKeeps(c.linear, f);
      forall g | InWorking(d, g) ensures Proper(g) {
        InsertedMember(hs, c, f, g);
        assert InWorking(c, g) ==> Proper(g);
      }
    }
  }

  lemma InsertedMember(hs: Hashes, c: Chain, f: FlowEntry, g: FlowEntry)
    requires L.Ok(c.linear) && Masked(f.key) && InWorking(Insert(hs, c, f, false), g)
    ensures InWorking(c, g) || exists n :: g == f.(serial := n)
  {
    assert f == f.(serial := f.serial);
    if H.Accepts(hs.h0, c.sub0, f) {
      HashInsertStores(hs.h0, c.sub0, f, g);
    } else if H.Accepts(hs.h1, c.sub1, f) {
      HashInsertStores(hs.h1, c.sub1, f, g);
    } else if !InWorking(c, g) {
      LinearInsertMembers(c.linear, f, g);
    }
  }

  // ----- modification, deletion, timeout

  function Modify(hs: Hashes, c: Chain, sel: Selector, acts: seq<Action>, emergency: bool): Chain
    requires sel.Described?
  {
    if emergency then c.(emergency := L.Modify(c.emergency, sel, acts))
    else c.(sub0 := H.Modify(hs.h0, c.sub0, sel, acts), sub1 := H.Modify(hs.h1, c.sub1, sel, acts),
            linear := L.Modify(c.linear, sel, acts))
  }

  function ModifyCount(hs: Hashes, c: Chain, sel: Selector, emergency: bool): nat
    requires sel.Described?
  {
    if emergency then CountSelected(c.emergency.flows, sel)
    else H.ModifyCount(hs.h0, c.sub0, sel) + H.ModifyCount(hs.h1, c.sub1, sel)
         + CountSelected(c.linear.flows, sel)
  }

  ghost function Delete(hs: Hashes, c: Chain, sel: Selector, emergency: bool): Chain
    requires sel.Described? && Ok(hs, c)
  {
    if emergency then c.(emergency := L.Remove(c.emergency, sel))
    else
      var hsel := sel.(byPriority := false);
      c.(sub0 := H.Delete(hs.h0, c.sub0, hsel), sub1 := H.Delete(hs.h1, c.sub1, hsel),
         linear := L.Remove(c.linear, sel))
  }

  ghost function Timeout(hs: Hashes, c: Chain, now: nat): Chain
    requires Ok(hs, c)
  {
    var sel := Elapsed(now);
    c.(sub0 := H.ScanRemove(c.sub0, sel), sub1 := H.ScanRemove(c.sub1, sel),
       linear := L.Remove(c.linear, sel))
  }

  lemma ScanModifyStores(t: H.Hash, sel: Selector, acts: seq<Action>, g: FlowEntry)
    requires H.Stores(H.ScanModify(t, sel, acts), g)
    ensures exists f :: H.Stores(t, f) && g == Reactioned(f, sel, acts)
  {
    var u := H.ScanModify(t, sel, acts);
    var i :| 0 <= i < |u.buckets| && u.buckets[i] == Some(g);
    var f := t.buckets[i].value;
    assert H.Stores(t, f) && g == Reactioned(f, sel, acts);
  }

  lemma ModifiedFrom(s: seq<FlowEntry>, sel: Selector, acts: seq<Action>, g: FlowEntry)
    requires g in Modified(s, sel, acts)
    ensures exists f :: f in s && g == Reactioned(f, sel, acts)
  {
    var i :| 0 <= i < |s| && Modified(s, sel, acts)[i] == g;
    assert s[i] in s;
  }

  lemma ModifyKeeps(hs: Hashes, c: Chain, sel: Selector, acts: seq<Action>, emergency: bool)
    requires Ok(hs, c) && sel.Described? && Masked(sel.key)
    ensures Ok(hs, Modify(hs, c, sel, acts, emergency))
  {
    var d := Modify(hs, c, sel, acts, emergency);
    if emergency {
      L.ModifyKeeps(c.emergency, sel, acts);
      forall g | g in d.emergency.flows ensures Proper(g) && Normal(g.key) {
        ModifiedFrom(c.emergency.flows, sel, acts, g);
        var f :| f in c.emergency.flows && g == Reactioned(f, sel, acts);
        assert Proper(f);
      }
      assert forall g :: InWorking(d, g) <==> InWorking(c, g);
    } else {
      L.ModifyKeeps(c.linear, sel, acts);
      H.FastModify(hs.h0, c.sub0, sel, acts);
      H.FastModify(hs.h1, c.sub1, sel, acts);
      H.ScanModifyKeeps(hs.h0, c.sub0, sel, acts);
      H.ScanModifyKeeps(hs.h1, c.sub1, sel, acts);
      forall g | InWorking(d, g) ensures Proper(g) {
        ModifiedMember(c, sel, acts, g);
        var f :| InWorking(c, f) && g == Reactioned(f, sel, acts);
        assert Proper(f);
      }
    }
  }

  lemma ModifiedMember(c: Chain, sel: Selector, acts: seq<Action>, g: FlowEntry)
    requires || H.Stores(H.ScanModify(c.sub0, sel, acts), g)
             || H.Stores(H.ScanModify(c.sub1, sel, acts), g)
             || g in Modified(c.linear.flows, sel, acts)
    ensures exists f :: InWorking(c, f) && g == Reactioned(f, sel, acts)
  {
    if g in Modified(c.linear.flows, sel, acts) {
      ModifiedFrom(c.linear.flows, sel, acts, g);
      var f :| f in c.linear.flows && g == Reactioned(f, sel, acts);
      assert InWorking(c, f);
    } else if H.Stores(H.ScanModify(c.sub0, sel, acts), g) {
      ScanModifyStores(c.sub0, sel, acts, g);
      var f :| H.Stores(c.sub0, f) && g == Reactioned(f, sel, acts);
      assert InWorking(c, f);
    } else {
      ScanModifyStores(c.sub1, sel, acts, g);
      var f :| H.Stores(c.sub1, f) && g == Reactioned(f, sel, acts);
      assert InWorking(c, f);
    }
  }

  lemma ScanRemoveStores(t: H.Hash, sel: Selector, f: FlowEntry)
    requires t.nFlows == H.Occupied(t.buckets)
    ensures H.Stores(H.ScanRemove(t, sel), f) <==> H.Stores(t, f) && !Selects(sel, f)
  {
    var u := H.ScanRemove(t, sel);
    if H.Stores(u, f) {
      var i :| 0 <= i < |u.buckets| && u.buckets[i] == Some(f);
      assert t.buckets[i] == Some(f);
    }
    if H.Stores(t, f) && !Selects(sel, f) {
      var i :| 0 <= i < |t.buckets| && t.buckets[i] == Some(f);
      assert u.buckets[i] == Some(f);
    }
  }

  /** What remains after removing by `hsel` from the hash tables and by `sel` from
      the list. */
  lemma RemovedMember(c: Chain, d: Chain, hsel: Selector, sel: Selector, f: FlowEntry)
    requires c.sub0.nFlows == H.Occupied(c.sub0.buckets) && c.sub1.nFlows == H.Occupied(c.sub1.buckets)
    requires d.sub0 == H.ScanRemove(c.sub0, hsel) && d.sub1 == H.ScanRemove(c.sub1, hsel)
    requires d.linear.flows == Unselected(c.linear.flows, sel)
    ensures InWorking(d, f) <==>
              || (H.Stores(c.sub0, f) && !Selects(hsel, f))
              || (H.Stores(c.sub1, f) && !Selects(hsel, f))
              || (f in c.linear.flows && !Selects(sel, f))
  {
    ScanRemoveStores(c.sub0, hsel, f);
    ScanRemoveStores(c.sub1, hsel, f);
  }

  lemma DeleteKeeps(hs: Hashes, c: Chain, sel: Selector, emergency: bool)
    requires Ok(hs, c) && sel.Described? && Masked(sel.key)
    ensures Ok(hs, Delete(hs, c, sel, emergency))
  {
    var d := Delete(hs, c, sel, emergency);
    var hsel := sel.(byPriority := false);
    if emergency {
      L.RemoveKeeps(c.emergency, sel);
      assert forall g :: InWorking(d, g) <==> InWorking(c, g);
    } else {
      L.RemoveKeeps(c.linear, sel);
      H.FastDelete(hs.h0, c.sub0, hsel);
      H.FastDelete(hs.h1, c.sub1, hsel);
      H.ScanRemoveKeeps(hs.h0, c.sub0, hsel);
      H.ScanRemoveKeeps(hs.h1, c.sub1, hsel);
      forall g | InWorking(d, g) ensures Proper(g) {
        RemovedMember(c, d, hsel, sel, g);
        assert InWorking(c, g) ==> Proper(g);
      }
    }
  }

  lemma TimeoutKeeps(hs: Hashes, c: Chain, now: nat)
    requires Ok(hs, c)
    ensures Ok(hs, Timeout(hs, c, now))
  {
    var d := Timeout(hs, c, now);
    L.RemoveKeeps(c.linear, Elapsed(now));
    H.ScanRemoveKeeps(hs.h0, c.sub0, Elapsed(now));
    H.ScanRemoveKeeps(hs.h1, c.sub1, Elapsed(now));
    forall g | InWorking(d, g) ensures Proper(g) {
      RemovedMember(c, d, Elapsed(now), Elapsed(now), g);
      assert InWorking(c, g) ==> Proper(g);
    }
  }
}
