/** How the emergency switchover of `datapath/private-msg.c` fills the working tables.

    The tables are compared by counting: how often a flow is stored, in all working
    tables together, against how often it is the copy of an emergency flow restored
    so far.  One restored flow adds one to both counts, because its copy is new to
    every table and there is room for it: the emergency list holds no duplicates and
    is no larger than the list it is copied into.  Serial numbers, which only order
    an iteration, are ignored. */
module FlowRestore {
  import opened Prelude
  import opened FlowKey
  import opened Flow
  import opened FlowChain
  import opened FlowProtection
  import H = HashTable
  import L = LinearTable

  function Bare(f: FlowEntry): FlowEntry { f.(serial := 0) }

  /** How often `x` occurs, up to serial numbers, in a hash table, in a list, in all
      working tables, and among the copies of some emergency flows. */
  function HashCount(s: seq<Option<FlowEntry>>, x: FlowEntry): nat {
    if s == [] then 0
    else HashCount(s[..|s| - 1], x)
         + if s[|s| - 1].Some? && Bare(s[|s| - 1].value) == x then 1 else 0
  }

  function ListCount(s: seq<FlowEntry>, x: FlowEntry): nat {
    if s == [] then 0 else ListCount(s[..|s| - 1], x) + if Bare(s[|s| - 1]) == x then 1 else 0
  }

  function WorkingCount(c: Chain, x: FlowEntry): nat {
    HashCount(c.sub0.buckets, x) + HashCount(c.sub1.buckets, x) + ListCount(c.linear.flows, x)
  }

  function CopyCount(s: seq<FlowEntry>, now: nat, x: FlowEntry): nat {
    if s == [] then 0
    else CopyCount(s[..|s| - 1], now, x) + if CopyOf(s[|s| - 1], now) == x then 1 else 0
  }

  lemma {:induction false} HashCountUpdate(s: seq<Option<FlowEntry>>, i: nat, f: FlowEntry, x: FlowEntry)
    requires i < |s| && s[i].None?
    ensures HashCount(s[i := Some(f)], x) == HashCount(s, x) + if Bare(f) == x then 1 else 0
    decreases |s|
  {
    var r := s[i := Some(f)];
    if i < |s| - 1 {
      HashCountUpdate(s[..|s| - 1], i, f, x);
      assert r[..|s| - 1] == s[..|s| - 1][i := Some(f)];
    } else {
      assert r[..|s| - 1] == s[..|s| - 1];
    }
  }

  lemma {:induction false} HashCountHas(s: seq<Option<FlowEntry>>, i: nat)
    requires i < |s| && s[i].Some?
    ensures HashCount(s, Bare(s[i].value)) > 0
    decreases |s|
  {
    if i < |s| - 1 {
      HashCountHas(s[..|s| - 1], i);
    }
  }

  lemma {:induction false} HashCountEmpty(s: seq<Option<FlowEntry>>, x: FlowEntry)
    requires forall i :: 0 <= i < |s| ==> s[i].None?
    ensures HashCount(s, x) == 0
  {
    if s != [] {
      HashCountEmpty(s[..|s| - 1], x);
    }
  }

  lemma {:induction false} ListCountConcat(s: seq<FlowEntry>, r: seq<FlowEntry>, x: FlowEntry)
    ensures ListCount(s + r, x) == ListCount(s, x) + ListCount(r, x)
    decreases |r|
  {
    if r == [] {
      assert s + r == s;
    } else {
      assert (s + r)[..|s + r| - 1] == s + r[..|r| - 1];
      ListCountConcat(s, r[..|r| - 1], x);
    }
  }

  lemma ListCountInsert(s: seq<FlowEntry>, k: nat, f: FlowEntry, x: FlowEntry)
    requires k <= |s|
    ensures ListCount(s[..k] + [f] + s[k..], x) == ListCount(s, x) + if Bare(f) == x then 1 else 0
  {
    assert s == s[..k] + s[k..];
    ListCountConcat(s[..k], s[k..], x);
    ListCountConcat(s[..k] + [f], s[k..], x);
    ListCountConcat(s[..k], [f], x);
  }

  lemma {:induction false} ListCountHas(s: seq<FlowEntry>, f: FlowEntry)
    requires f in s
    ensures ListCount(s, Bare(f)) > 0
  {
    if f != s[|s| - 1] {
      ListCountHas(s[..|s| - 1], f);
    }
  }

  lemma {:induction false} CopyCountHas(s: seq<FlowEntry>, now: nat, x: FlowEntry) returns (e: FlowEntry)
    requires CopyCount(s, now, x) > 0
    ensures e in s && x == CopyOf(e, now)
  {
    if x == CopyOf(s[|s| - 1], now) {
      e := s[|s| - 1];
    } else {
      e := CopyCountHas(s[..|s| - 1], now, x);
    }
  }

  /** The working tables hold exactly the copies of `done`. */
  ghost predicate Restored(hs: Hashes, c: Chain, done: seq<FlowEntry>, now: nat) {
    && Ok(hs, c) && |c.linear.flows| <= |done|
    && (forall x {:trigger WorkingCount(c, x)} :: WorkingCount(c, x) == CopyCount(done, now, x))
    && forall d :: d in done ==> Proper(d) && Normal(d.key)
  }

  /** Every stored flow is the copy of some restored emergency flow. */
  lemma StoredIsCopy(hs: Hashes, c: Chain, done: seq<FlowEntry>, now: nat, g: FlowEntry)
    returns (d: FlowEntry)
    requires Restored(hs, c, done, now) && InWorking(c, g)
    ensures d in done && d.key == g.key && d.priority == g.priority
  {
    if H.Stores(c.sub0, g) {
      var i :| 0 <= i < |c.sub0.buckets| && c.sub0.buckets[i] == Some(g);
      HashCountHas(c.sub0.buckets, i);
    } else if H.Stores(c.sub1, g) {
      var i :| 0 <= i < |c.sub1.buckets| && c.sub1.buckets[i] == Some(g);
      HashCountHas(c.sub1.buckets, i);
    } else {
      ListCountHas(c.linear.flows, g);
    }
    assert WorkingCount(c, Bare(g)) == CopyCount(done, now, Bare(g));
    d := CopyCountHas(done, now, Bare(g));
    CopyIsProper(d, now);
  }

  lemma ExactClash(d: FlowEntry, e: FlowEntry)
    requires Proper(d) && Proper(e) && !L.Same(d, e)
    ensures d.key.wild == EXACT && e.key.wild == EXACT ==> d.key.fields != e.key.fields
  {
    if d.key.wild == EXACT && e.key.wild == EXACT {
      ExactMatch(d.key, e.key);
    }
  }

  /** A flow that differs from all restored ones clashes with no stored flow. */
  lemma NoClash(hs: Hashes, c: Chain, done: seq<FlowEntry>, now: nat, e: FlowEntry, g: FlowEntry)
    requires Restored(hs, c, done, now) && InWorking(c, g) && Proper(e)
    requires forall d :: d in done ==> !L.Same(d, e)
    ensures !L.Same(g, e)
    ensures g.key.wild == EXACT && e.key.wild == EXACT ==> g.key.fields != e.key.fields
  {
    var d := StoredIsCopy(hs, c, done, now, g);
    assert L.Same(g, e) <==> L.Same(d, e);
    ExactClash(d, e);
  }

  lemma CopyCountAppend(done: seq<FlowEntry>, e: FlowEntry, now: nat, x: FlowEntry)
    ensures CopyCount(done + [e], now, x)
            == CopyCount(done, now, x) + if CopyOf(e, now) == x then 1 else 0
  {
    assert (done + [e])[..|done + [e]| - 1] == done;
  }

  /** The bucket for a new key either takes the copy or belongs to another key. */
  lemma BucketFreeOrOther(h: H.HashFn, t: H.Hash, f: FlowEntry)
    requires H.Ok(h, t) && f.key.wild == EXACT
    requires forall g :: H.Stores(t, g) && g.key.wild == EXACT ==> g.key.fields != f.key.fields
    ensures H.Accepts(h, t, f) <==> t.buckets[H.Index(h, t, f.key.fields)].None?
  {
    var i := H.Index(h, t, f.key.fields);
    if t.buckets[i].Some? {
      assert H.PlacedAt(h, t, i) && H.Stores(t, t.buckets[i].value);
    }
  }

  /** Without a clash the priority list takes the flow while it has room. */
  lemma LinearInsertNovel(t: L.Linear, f: FlowEntry, x: FlowEntry)
    requires L.Ok(t) && f == Bare(f) && |t.flows| < t.maxFlows
    requires forall g :: g in t.flows ==> !L.Same(g, f)
    ensures !L.Refuses(t, f) && |L.Insert(t, f).flows| == |t.flows| + 1
    ensures ListCount(L.Insert(t, f).flows, x) == ListCount(t.flows, x) + if f == x then 1 else 0
  {
    var slot := L.FindSlot(t.flows, f, 0);
    assert slot.at < |t.flows| ==> t.flows[slot.at] in t.flows;
    ListCountInsert(t.flows, slot.at, f.(serial := t.nextSerial), x);
  }

  /** `f` clashes with nothing stored. */
  ghost predicate Novel(c: Chain, f: FlowEntry) {
    forall g {:trigger InWorking(c, g)} :: InWorking(c, g) ==>
      !L.Same(g, f) && (g.key.wild == EXACT && f.key.wild == EXACT ==> g.key.fields != f.key.fields)
  }

  /** A novel flow is accepted and adds itself to the working flows. */
  lemma InsertNovel(hs: Hashes, c: Chain, f: FlowEntry, x: FlowEntry)
    requires H.Ok(hs.h0, c.sub0) && H.Ok(hs.h1, c.sub1) && L.Ok(c.linear)
    requires f == Bare(f) && Novel(c, f) && |c.linear.flows| < c.linear.maxFlows
    ensures !InsertFails(hs, c, f, false)
    ensures var d := Insert(hs, c, f, false);
            && WorkingCount(d, x) == WorkingCount(c, x) + (if f == x then 1 else 0)
            && |d.linear.flows| <= |c.linear.flows| + 1
  {
    forall g | H.Stores(c.sub0, g) || H.Stores(c.sub1, g) || g in c.linear.flows ensures InWorking(c, g) {
    }
    if f.key.wild == EXACT {
      BucketFreeOrOther(hs.h0, c.sub0, f);
      BucketFreeOrOther(hs.h1, c.sub1, f);
    }
    if H.Accepts(hs.h0, c.sub0, f) {
      HashCountUpdate(c.sub0.buckets, H.Index(hs.h0, c.sub0, f.key.fields), f, x);
    } else if H.Accepts(hs.h1, c.sub1, f) {
      HashCountUpdate(c.sub1.buckets, H.Index(hs.h1, c.sub1, f.key.fields), f, x);
    } else {
      LinearInsertNovel(c.linear, f, x);
    }
  }

  lemma RestoreOne(hs: Hashes, c: Chain, done: seq<FlowEntry>, e: FlowEntry, now: nat)
    requires Restored(hs, c, done, now) && Proper(e) && Normal(e.key)
    requires |done| < c.linear.maxFlows && forall d :: d in done ==> !L.Same(d, e)
    ensures var f := CopyOf(e, now);
            && !InsertFails(hs, c, f, false)
            && Restored(hs, Insert(hs, c, f, false), done + [e], now)
  {
    var f := CopyOf(e, now);
    CopyIsProper(e, now);
    forall g | InWorking(c, g)
      ensures !L.Same(g, f) && (g.key.wild == EXACT && f.key.wild == EXACT ==> g.key.fields != f.key.fields)
    {
      NoClash(hs, c, done, now, e, g);
      assert L.Same(g, f) <==> L.Same(g, e);
    }
    InsertNovel(hs, c, f, f);
    InsertKeeps(hs, c, f, false);
    forall x ensures WorkingCount(Insert(hs, c, f, false), x) == CopyCount(done + [e], now, x) {
      InsertNovel(hs, c, f, x);
      CopyCountAppend(done, e, now, x);
      assert WorkingCount(c, x) == CopyCount(done, now, x);
    }
  }

  /** The entries are proper and pairwise distinct. */
  ghost predicate Clean(s: seq<FlowEntry>) {
    && (forall i :: 0 <= i < |s| ==> Proper(s[i]) && Normal(s[i].key))
    && forall i, j :: 0 <= i < j < |s| ==> !L.Same(s[i], s[j])
  }

  lemma CleanAt(s: seq<FlowEntry>, k: nat)
    requires Clean(s) && k < |s|
    ensures Proper(s[k]) && Normal(s[k].key) && Visited(s[k])
    ensures forall d :: d in s[..k] ==> !L.Same(d, s[k])
  {
    AllKeyMatches(s[k].key);
  }

  lemma InsertKeepsCapacity(hs: Hashes, c: Chain, f: FlowEntry)
    requires !InsertFails(hs, c, f, false)
    ensures Insert(hs, c, f, false).linear.maxFlows == c.linear.maxFlows
  {
  }

  lemma RestoreUnfolds(hs: Hashes, c: Chain, s: seq<FlowEntry>, k: nat, now: nat)
    requires k < |s| && Visited(s[k]) && !InsertFails(hs, c, CopyOf(s[k], now), false)
    ensures Restore(hs, c, s[k..], now) == Restore(hs, Insert(hs, c, CopyOf(s[k], now), false), s[k + 1..], now)
  {
    hide Insert, InsertFails, CopyOf, Visited;
    assert s[k..][1..] == s[k + 1..];
  }

  lemma RestoreStep(hs: Hashes, c: Chain, s: seq<FlowEntry>, k: nat, now: nat)
    requires Clean(s) && k < |s| <= c.linear.maxFlows && Restored(hs, c, s[..k], now)
    ensures var d := Insert(hs, c, CopyOf(s[k], now), false);
            && Restored(hs, d, s[..k + 1], now) && d.linear.maxFlows == c.linear.maxFlows
            && Restore(hs, c, s[k..], now) == Restore(hs, d, s[k + 1..], now)
  {
    hide *;
    CleanAt(s, k);
    RestoreOne(hs, c, s[..k], s[k], now);
    InsertKeepsCapacity(hs, c, CopyOf(s[k], now));
    RestoreUnfolds(hs, c, s, k, now);
    assert s[..k] + [s[k]] == s[..k + 1];
  }

  lemma {:induction false} RestoreAll(hs: Hashes, c: Chain, s: seq<FlowEntry>, k: nat, now: nat)
    requires Clean(s) && k <= |s| <= c.linear.maxFlows && Restored(hs, c, s[..k], now)
    ensures Restored(hs, Restore(hs, c, s[k..], now), s, now)
    decreases |s| - k
  {
    if k == |s| {
      assert s[..k] == s && Restore(hs, c, s[k..], now) == c;
    } else {
      hide *;
      RestoreStep(hs, c, s, k, now);
      RestoreAll(hs, Insert(hs, c, CopyOf(s[k], now), false), s, k + 1, now);
    }
  }

  lemma IterDistinct(t: L.Linear, i: nat, j: nat)
    requires L.Ok(t) && i < |t.iter| && j < |t.iter| && i != j
    ensures !L.Same(t.iter[i], t.iter[j])
  {
    assert t.iter[i] in t.flows && t.iter[j] in t.flows;
    var p :| 0 <= p < |t.flows| && t.flows[p] == t.iter[i];
    var q :| 0 <= q < |t.flows| && t.flows[q] == t.iter[j];
    if p < q {
      assert L.Precedes(t.flows[p], t.flows[q]);
    } else {
      assert L.Precedes(t.flows[q], t.flows[p]);
      if L.Same(t.iter[i], t.iter[j]) {
        L.SameSymmetric(t.iter[i], t.iter[j]);
      }
    }
  }

  /** Both lists of a table hold equally many entries. */
  lemma IterLength(t: L.Linear)
    requires L.Ok(t)
    ensures |t.iter| == |t.flows|
  {
    var a := set f | f in t.flows;
    var b := set f | f in t.iter;
    assert a == b;
    SetSize(t.flows);
    SetSize(t.iter);
  }

  lemma {:induction false} SetSize(s: seq<FlowEntry>)
    requires forall i, j :: 0 <= i < j < |s| ==> s[i] != s[j]
    ensures |set f | f in s| == |s|
  {
    if s != [] {
      var front := s[..|s| - 1];
      SetSize(front);
      assert (set f | f in s) == (set f | f in front) + {s[|s| - 1]};
    }
  }

  /** Distinct emergency flows have distinct copies. */
  lemma CopiesDiffer(s: seq<FlowEntry>, i: nat, j: nat, now: nat)
    requires Clean(s) && i < j < |s|
    ensures CopyOf(s[i], now) != CopyOf(s[j], now)
  {
    CopyIsProper(s[i], now);
    CopyIsProper(s[j], now);
    SameWildcardsEquivalence(s[i].key, s[i].key, s[i].key);
  }

  function Occurrences<T(==)>(s: seq<T>, x: T): nat {
    if s == [] then 0 else Occurrences(s[..|s| - 1], x) + if s[|s| - 1] == x then 1 else 0
  }

  lemma {:induction false} OccursOnce<T>(s: seq<T>, x: T)
    requires NoDup(s)
    ensures Occurrences(s, x) == if x in s then 1 else 0
  {
    if s != [] {
      OccursOnce(s[..|s| - 1], x);
      assert s == s[..|s| - 1] + [s[|s| - 1]];
    }
  }

  function Copies(s: seq<FlowEntry>, now: nat): (r: seq<FlowEntry>)
    ensures |r| == |s| && forall i :: 0 <= i < |s| ==> r[i] == CopyOf(s[i], now)
  {
    seq(|s|, i requires 0 <= i < |s| => CopyOf(s[i], now))
  }

  lemma {:induction false} CopyCountOccurrences(s: seq<FlowEntry>, now: nat, x: FlowEntry)
    ensures CopyCount(s, now, x) == Occurrences(Copies(s, now), x)
  {
    hide CopyOf;
    if s != [] {
      CopyCountOccurrences(s[..|s| - 1], now, x);
      assert Copies(s, now)[..|s| - 1] == Copies(s[..|s| - 1], now);
    }
  }

  lemma CopyCountIsOne(s: seq<FlowEntry>, now: nat, x: FlowEntry)
    requires Clean(s)
    ensures CopyCount(s, now, x) == if exists i :: 0 <= i < |s| && x == CopyOf(s[i], now) then 1 else 0
  {
    var r := Copies(s, now);
    forall i, j | 0 <= i < j < |s| ensures r[i] != r[j] {
      CopiesDiffer(s, i, j, now);
    }
    hide Clean, CopyOf, Occurrences, CopyCount;
    CopyCountOccurrences(s, now, x);
    OccursOnce(r, x);
  }

  lemma IterIsClean(hs: Hashes, c: Chain)
    requires Ok(hs, c)
    ensures Clean(c.emergency.iter)
  {
    var s := c.emergency.iter;
    forall i, j | 0 <= i < j < |s| ensures !L.Same(s[i], s[j]) {
      IterDistinct(c.emergency, i, j);
    }
    forall i | 0 <= i < |s| ensures Proper(s[i]) && Normal(s[i].key) {
      assert s[i] in c.emergency.flows && Proper(s[i]);
    }
  }
}
