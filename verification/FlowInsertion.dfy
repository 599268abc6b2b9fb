/** What an accepted flow does to the tables it passes. */
module FlowInsertion {
  import opened Prelude
  import opened FlowKey
  import opened Flow
  import opened FlowChain
  import opened FlowEffects
  import H = HashTable
  import L = LinearTable

  // Insertion offers a flow to one table after the other, until one accepts it.  A table
  // replaces its own duplicate only, so that copies in later tables stay behind.  Since
  // lookup asks the tables in the same order, they never answer for the new flow; but
  // they are there, and answer again when the new flow has expired.

  datatype Place = Sub0 | Sub1 | List

  predicate Holds(c: Chain, at: Place, f: FlowEntry) {
    match at
    case Sub0 => H.Stores(c.sub0, f)
    case Sub1 => H.Stores(c.sub1, f)
    case List => f in c.linear.flows
  }

  /** The table that takes `f`, if any does. */
  function AcceptedAt(hs: Hashes, c: Chain, f: FlowEntry): Place {
    if H.Accepts(hs.h0, c.sub0, f) then Sub0
    else if H.Accepts(hs.h1, c.sub1, f) then Sub1
    else List
  }

  predicate Earlier(a: Place, b: Place) { (a.Sub0? && !b.Sub0?) || (a.Sub1? && b.List?) }

  // ----- membership, table by table

  lemma HashSame(h: H.HashFn, t: H.Hash, f: FlowEntry, g: FlowEntry)
    requires H.Ok(h, t) && H.Stores(t, g) && Proper(f) && Proper(g)
    ensures L.Same(g, f) <==> f.key.wild == EXACT && g.key.fields == f.key.fields
  {
    var i :| 0 <= i < |t.buckets| && t.buckets[i] == Some(g);
    assert H.PlacedAt(h, t, i);
    if f.key.wild == EXACT {
      ExactMatch(g.key, f.key);
    }
  }

  lemma HashInsertIsExact(h: H.HashFn, t: H.Hash, f: FlowEntry, g: FlowEntry)
    requires H.Ok(h, t) && H.Accepts(h, t, f) && Proper(f) && (H.Stores(t, g) ==> Proper(g))
    ensures H.Stores(H.Insert(h, t, f), g) <==> g == f || (H.Stores(t, g) && !L.Same(g, f))
  {
    var u, k := H.Insert(h, t, f), H.Index(h, t, f.key.fields);
    assert u.buckets[k] == Some(f);
    if H.Stores(t, g) {
      HashSame(h, t, f, g);
      var i :| 0 <= i < |t.buckets| && t.buckets[i] == Some(g);
      assert H.PlacedAt(h, t, i);
      assert i != k ==> u.buckets[i] == Some(g);
    }
    if H.Stores(u, g) && g != f {
      var i :| 0 <= i < |u.buckets| && u.buckets[i] == Some(g);
      assert t.buckets[i] == Some(g) && H.PlacedAt(h, t, i);
      HashSame(h, t, f, g);
    }
  }

  /** The accepting table gains the flow in place of its duplicates; nothing else changes
      in any table. */
  ghost predicate Gained(c: Chain, d: Chain, at: Place, f: FlowEntry) {
    && (forall h {:trigger Holds(d, at, h)} :: Holds(d, at, h) <==> h == f || (Holds(c, at, h) && !L.Same(h, f)))
    && (forall b, h {:trigger Holds(d, b, h)} :: b != at ==> (Holds(d, b, h) <==> Holds(c, b, h)))
    && d.emergency == c.emergency
  }

  lemma HashGained(hs: Hashes, c: Chain, f: FlowEntry)
    requires Ok(hs, c) && Proper(f) && !AcceptedAt(hs, c, f).List?
    ensures Gained(c, Insert(hs, c, f, false), AcceptedAt(hs, c, f), f)
  {
    var d, at := Insert(hs, c, f, false), AcceptedAt(hs, c, f);
    forall h ensures Holds(d, at, h) <==> h == f || (Holds(c, at, h) && !L.Same(h, f)) {
      assert InWorking(c, h) ==> Proper(h);
      hide InWorking, Ok;
      if at.Sub0? {
        HashInsertIsExact(hs.h0, c.sub0, f, h);
      } else {
        HashInsertIsExact(hs.h1, c.sub1, f, h);
      }
    }
  }

  lemma ListGained(c: Chain, t: L.Linear, g: FlowEntry)
    requires L.Combines(c.linear.flows, t.flows, g)
    ensures Gained(c, c.(linear := t), List, g)
  {
    hide L.Same;
  }

  lemma InsertIsExact(hs: Hashes, c: Chain, f: FlowEntry) returns (g: FlowEntry)
    requires Ok(hs, c) && Proper(f) && !InsertFails(hs, c, f, false)
    ensures g == f.(serial := g.serial) && (!AcceptedAt(hs, c, f).List? ==> g == f)
    ensures Gained(c, Insert(hs, c, f, false), AcceptedAt(hs, c, f), g)
  {
    assert L.Ok(c.linear) && Masked(f.key);
    hide Gained, Ok, L.Same, L.Insert, H.Insert, H.Accepts, L.Combines;
    if AcceptedAt(hs, c, f).List? {
      L.InsertKeeps(c.linear, f);
      var n :| L.Combines(c.linear.flows, L.Insert(c.linear, f).flows, f.(serial := n));
      g := f.(serial := n);
      ListGained(c, L.Insert(c.linear, f), g);
    } else {
      g := f;
      HashGained(hs, c, f);
    }
  }

  // ----- duplicates that stay

  /** A table that is passed over holds no duplicate. */
  lemma NoneEarlier(hs: Hashes, c: Chain, f: FlowEntry, at: Place, h: FlowEntry)
    requires Ok(hs, c) && Proper(f) && Earlier(at, AcceptedAt(hs, c, f)) && Holds(c, at, h)
    ensures !L.Same(h, f)
  {
    assert InWorking(c, h) && Proper(h);
    if at.Sub0? {
      HashPassedOver(hs.h0, c.sub0, f, h);
    } else {
      HashPassedOver(hs.h1, c.sub1, f, h);
    }
  }

  lemma HashPassedOver(h: H.HashFn, t: H.Hash, f: FlowEntry, g: FlowEntry)
    requires H.Ok(h, t) && H.Stores(t, g) && Proper(f) && Proper(g) && !H.Accepts(h, t, f)
    ensures !L.Same(g, f)
  {
    HashSame(h, t, f, g);
    var i :| 0 <= i < |t.buckets| && t.buckets[i] == Some(g);
    assert H.PlacedAt(h, t, i);
  }

  /** A copy of `f` is behind the accepting table: in the second hash table or the list
      if the first one accepts, in the list if the second one does. */
  ghost predicate CopyBehind(hs: Hashes, c: Chain, f: FlowEntry) {
    exists at, h :: Earlier(AcceptedAt(hs, c, f), at) && Holds(c, at, h) && L.Same(h, f)
  }

  ghost predicate DuplicateBeside(c: Chain, at: Place, f: FlowEntry) {
    exists b, h :: b != at && Holds(c, b, h) && L.Same(h, f)
  }

  /** Some duplicate stays next to the accepted flow exactly if a copy is behind the table
      that accepts it.  In that table none stays. */
  lemma DuplicateStays(hs: Hashes, c: Chain, f: FlowEntry)
    requires Ok(hs, c) && Proper(f) && !InsertFails(hs, c, f, false)
    ensures var d, at := Insert(hs, c, f, false), AcceptedAt(hs, c, f);
            && (DuplicateBeside(d, at, f) <==> CopyBehind(hs, c, f))
            && forall h :: Holds(d, at, h) && L.Same(h, f) ==> h == f.(serial := h.serial)
  {
    var d, at := Insert(hs, c, f, false), AcceptedAt(hs, c, f);
    var g := InsertIsExact(hs, c, f);
    if b, h :| b != at && Holds(d, b, h) && L.Same(h, f) {
      assert Holds(c, b, h);
      if Earlier(b, at) {
        NoneEarlier(hs, c, f, b, h);
      }
    }
    if b, h :| Earlier(at, b) && Holds(c, b, h) && L.Same(h, f) {
      assert Holds(d, b, h);
    }
  }

  // ----- lookup

  /** The table that answers a lookup. */
  function AnsweredAt(hs: Hashes, c: Chain, key: Key): Place {
    if H.Lookup(hs.h0, c.sub0, key).Some? then Sub0
    else if H.Lookup(hs.h1, c.sub1, key).Some? then Sub1
    else List
  }

  lemma AnswerIsHeld(hs: Hashes, c: Chain, key: Key)
    requires Ok(hs, c) && key.wild == EXACT && Lookup(hs, c, key, false).Some?
    ensures var r := Lookup(hs, c, key, false).value;
            Holds(c, AnsweredAt(hs, c, key), r) && Matches1Wild(key, r.key)
  {
    if H.Lookup(hs.h0, c.sub0, key).Some? {
      HashHit(hs.h0, c.sub0, key);
    } else if H.Lookup(hs.h1, c.sub1, key).Some? {
      HashHit(hs.h1, c.sub1, key);
    } else {
      L.LookupIsBest(c.linear.flows, key);
    }
  }

  /** A hash table that holds a match answers, unless an earlier one does. */
  lemma AnswersFirst(hs: Hashes, c: Chain, key: Key, at: Place, f: FlowEntry)
    requires Ok(hs, c) && Holds(c, at, f) && !at.List? && Matches1Wild(key, f.key)
    ensures !Earlier(at, AnsweredAt(hs, c, key))
  {
    if at.Sub0? {
      H.LookupFindsMatch(hs.h0, c.sub0, key, f);
    } else {
      H.LookupFindsMatch(hs.h1, c.sub1, key, f);
    }
  }

  lemma SameMatches(f: FlowEntry, g: FlowEntry, key: Key)
    requires Proper(f) && Proper(g) && f.key.wild == EXACT && L.Same(g, f) && Matches1Wild(key, g.key)
    ensures Matches1Wild(key, f.key)
  {
    ExactMatch(key, g.key);
    ExactMatch(key, f.key);
    ExactMatch(g.key, f.key);
  }

  /** Copies that stay behind never answer: whenever a lookup ends at the accepted flow or
      a duplicate of it, it is the accepted flow. */
  lemma LookupIsFresh(hs: Hashes, c: Chain, f: FlowEntry, key: Key)
    requires Ok(hs, c) && Proper(f) && !InsertFails(hs, c, f, false) && key.wild == EXACT
    ensures var r := Lookup(hs, Insert(hs, c, f, false), key, false);
            r.Some? && L.Same(r.value, f) ==> r.value == f.(serial := r.value.serial)
  {
    hide Insert, InsertFails, Lookup, AcceptedAt, AnsweredAt, Ok, Holds, Matches1Wild, L.Same, Proper;
    var d, at := Insert(hs, c, f, false), AcceptedAt(hs, c, f);
    var r := Lookup(hs, d, key, false);
    InsertKeeps(hs, c, f, false);
    if r.Some? && L.Same(r.value, f) {
      var g := InsertIsExact(hs, c, f);
      SameSerial(r.value, f, g.serial);
      AnswerIsHeld(hs, d, key);
      var b := AnsweredAt(hs, d, key);
      if Earlier(b, at) {
        NoneEarlier(hs, c, f, b, r.value);
      } else if Earlier(at, b) {
        CopyIsShadowed(hs, d, key, at, g, r.value);
      }
    }
  }

  lemma SameSerial(h: FlowEntry, f: FlowEntry, n: nat)
    ensures L.Same(h, f) <==> L.Same(h, f.(serial := n))
  {
  }

  lemma CopyIsShadowed(hs: Hashes, c: Chain, key: Key, at: Place, f: FlowEntry, g: FlowEntry)
    requires Ok(hs, c) && Holds(c, at, f) && !at.List? && Holds(c, AnsweredAt(hs, c, key), g)
    requires L.Same(g, f) && Matches1Wild(key, g.key)
    ensures !Earlier(at, AnsweredAt(hs, c, key))
  {
    assert InWorking(c, f) && Proper(f) && InWorking(c, g) && Proper(g);
    HashedIsExact(hs, c, f);
    SameMatches(f, g, key);
    AnswersFirst(hs, c, key, at, f);
  }

  /** A packet that matches an accepted flow is handled by it or by another flow of at
      least its priority, never by an older copy of it. */
  lemma InsertTakesEffect(hs: Hashes, c: Chain, f: FlowEntry, key: Key)
    requires Ok(hs, c) && Proper(f) && !InsertFails(hs, c, f, false)
    requires key.wild == EXACT && Matches1Wild(key, f.key)
    ensures var r := Lookup(hs, Insert(hs, c, f, false), key, false);
            && r.Some? && r.value.priority >= f.priority
            && (L.Same(r.value, f) ==> r.value == f.(serial := r.value.serial))
  {
    var g := InsertIsExact(hs, c, f);
    var d := Insert(hs, c, f, false);
    assert Holds(d, AcceptedAt(hs, c, f), g) && InWorking(d, g);
    InsertKeeps(hs, c, f, false);
    LookupIsBest(hs, d, key);
    LookupIsFresh(hs, c, f, key);
  }
}
