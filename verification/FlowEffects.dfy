/** What the flow-mod operations do to the set of working flows. */
module FlowEffects {
  import opened Prelude
  import opened FlowKey
  import opened Flow
  import opened FlowChain
  import H = HashTable
  import L = LinearTable

  // The tables of a chain are searched one after the other, and each has its own
  // way to find the flows an operation applies to.  Modification, deletion and timeout
  // act on the working flows of all tables as on one set.

  /** A flow in a hash table is wildcard free and has the highest priority. */
  lemma HashedIsExact(hs: Hashes, c: Chain, f: FlowEntry)
    requires Ok(hs, c) && (H.Stores(c.sub0, f) || H.Stores(c.sub1, f))
    ensures f.key.wild == EXACT && f.priority == EXACT_PRIORITY && Masked(f.key)
  {
    assert InWorking(c, f) ==> Proper(f);
    if H.Stores(c.sub0, f) {
      var i :| 0 <= i < |c.sub0.buckets| && c.sub0.buckets[i] == Some(f);
      assert H.PlacedAt(hs.h0, c.sub0, i);
    } else {
      var i :| 0 <= i < |c.sub1.buckets| && c.sub1.buckets[i] == Some(f);
      assert H.PlacedAt(hs.h1, c.sub1, i);
    }
  }

  /** Deletion removes exactly the working flows that the description selects, although
      the hash tables ignore its priority. */
  lemma DeleteIsExact(hs: Hashes, c: Chain, sel: Selector, f: FlowEntry)
    requires Ok(hs, c) && sel.Described? && Masked(sel.key)
    requires sel.strict && sel.key.wild == EXACT ==> sel.priority == EXACT_PRIORITY
    ensures InWorking(Delete(hs, c, sel, false), f) <==> InWorking(c, f) && !Selects(sel, f)
    ensures Delete(hs, c, sel, false).emergency == c.emergency
  {
    var d, hsel := Delete(hs, c, sel, false), sel.(byPriority := false);
    L.RemoveKeeps(c.linear, sel);
    H.FastDelete(hs.h0, c.sub0, hsel);
    H.FastDelete(hs.h1, c.sub1, hsel);
    RemovedMember(c, d, hsel, sel, f);
    if H.Stores(c.sub0, f) || H.Stores(c.sub1, f) {
      HashedIsExact(hs, c, f);
      assert Selects(hsel, f) <==> Selects(sel, f);
    }
  }

  /** A timeout removes exactly the working flows whose time has come. */
  lemma TimeoutIsExact(hs: Hashes, c: Chain, now: nat, f: FlowEntry)
    requires Ok(hs, c)
    ensures InWorking(Timeout(hs, c, now), f) <==> InWorking(c, f) && !TimedOut(f, now)
    ensures Timeout(hs, c, now).emergency == c.emergency
  {
    L.RemoveKeeps(c.linear, Elapsed(now));
    RemovedMember(c, Timeout(hs, c, now), Elapsed(now), Elapsed(now), f);
  }

  lemma ScanModifyKeepsStored(t: H.Hash, sel: Selector, acts: seq<Action>, f: FlowEntry)
    requires H.Stores(t, f)
    ensures H.Stores(H.ScanModify(t, sel, acts), Reactioned(f, sel, acts))
  {
    var i :| 0 <= i < |t.buckets| && t.buckets[i] == Some(f);
    assert H.ScanModify(t, sel, acts).buckets[i] == Some(Reactioned(f, sel, acts));
  }

  /** Modification gives exactly the selected working flows the new actions. */
  lemma ModifyIsExact(hs: Hashes, c: Chain, sel: Selector, acts: seq<Action>, g: FlowEntry)
    requires Ok(hs, c) && sel.Described? && Masked(sel.key)
    ensures InWorking(Modify(hs, c, sel, acts, false), g)
            <==> exists f :: InWorking(c, f) && g == Reactioned(f, sel, acts)
  {
    var d := Modify(hs, c, sel, acts, false);
    H.FastModify(hs.h0, c.sub0, sel, acts);
    H.FastModify(hs.h1, c.sub1, sel, acts);
    if InWorking(d, g) {
      ModifiedMember(c, sel, acts, g);
    }
    if f :| InWorking(c, f) && g == Reactioned(f, sel, acts) {
      ModifiedStays(c, d, sel, acts, f);
    }
  }

  lemma ModifiedStays(c: Chain, d: Chain, sel: Selector, acts: seq<Action>, f: FlowEntry)
    requires InWorking(c, f)
    requires d.sub0 == H.ScanModify(c.sub0, sel, acts) && d.sub1 == H.ScanModify(c.sub1, sel, acts)
    requires d.linear.flows == Modified(c.linear.flows, sel, acts)
    ensures InWorking(d, Reactioned(f, sel, acts))
  {
    if H.Stores(c.sub0, f) {
      ScanModifyKeepsStored(c.sub0, sel, acts, f);
    } else if H.Stores(c.sub1, f) {
      ScanModifyKeepsStored(c.sub1, sel, acts, f);
    } else {
      var i :| 0 <= i < |c.linear.flows| && c.linear.flows[i] == f;
      assert d.linear.flows[i] == Reactioned(f, sel, acts);
    }
  }

  // ----- counting what a modification selects

  lemma {:induction false} CountHitsZero(s: seq<Option<FlowEntry>>, sel: Selector)
    ensures H.CountHits(s, sel) == 0 <==> forall i :: 0 <= i < |s| ==> !H.Hits(s[i], sel)
  {
    hide H.Hits;
    if s != [] {
      CountHitsZero(s[..|s| - 1], sel);
    }
  }

  lemma {:induction false} CountSelectedZero(s: seq<FlowEntry>, sel: Selector)
    ensures CountSelected(s, sel) == 0 <==> forall f :: f in s ==> !Selects(sel, f)
  {
    hide Selects;
    if s != [] {
      CountSelectedZero(s[..|s| - 1], sel);
      assert s == s[..|s| - 1] + [s[|s| - 1]];
    }
  }

  /** The count is zero, and a modify command becomes an add, exactly when no working
      flow is selected. */
  lemma ModifyCountZero(hs: Hashes, c: Chain, sel: Selector)
    requires Ok(hs, c) && sel.Described? && Masked(sel.key)
    ensures ModifyCount(hs, c, sel, false) == 0 <==> forall f :: InWorking(c, f) ==> !Selects(sel, f)
  {
    H.FastModify(hs.h0, c.sub0, sel, []);
    H.FastModify(hs.h1, c.sub1, sel, []);
    CountHitsZero(c.sub0.buckets, sel);
    CountHitsZero(c.sub1.buckets, sel);
    CountSelectedZero(c.linear.flows, sel);
    HitsAreStored(c.sub0, sel);
    HitsAreStored(c.sub1, sel);
  }

  lemma HitsAreStored(t: H.Hash, sel: Selector)
    ensures (forall i :: 0 <= i < |t.buckets| ==> !H.Hits(t.buckets[i], sel))
            <==> forall f :: H.Stores(t, f) ==> !Selects(sel, f)
  {
    hide Selects;
    if i :| 0 <= i < |t.buckets| && H.Hits(t.buckets[i], sel) {
      assert H.Stores(t, t.buckets[i].value);
    }
  }
}
