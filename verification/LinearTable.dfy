/** The wildcard table of `datapath/table-linear.c`, as a value: a list of entries
    searched in priority order, and a second list of the same entries, newest first. */
module LinearTable {
  import opened Prelude
  import opened FlowKey
  import opened Flow

  datatype Linear = Linear(flows: seq<FlowEntry>, iter: seq<FlowEntry>, nFlows: nat,
                           maxFlows: nat, nextSerial: nat)

  function NewLinear(maxFlows: nat): Linear { Linear([], [], 0, maxFlows, 0) }

  // ----- lookup and conflicts

  function Lookup(flows: seq<FlowEntry>, key: Key): Option<FlowEntry> {
    if flows == [] then None
    else if Matches1Wild(key, flows[0].key) then Some(flows[0])
    else Lookup(flows[1..], key)
  }

  predicate Conflicts(f: FlowEntry, key: Key, priority: nat, strict: bool) {
    Matches2Desc(f.key, key, strict) && f.priority == priority
  }

  // ----- insertion

  /** Entries that replace each other: same priority, same wildcards, same match. */
  predicate Same(f: FlowEntry, g: FlowEntry) {
    f.priority == g.priority && f.key.wild == g.key.wild && Matches2Wild(f.key, g.key)
  }

  datatype Slot = Replace(at: nat) | Before(at: nat)

  /** Where the insertion loop stops. */
  function FindSlot(flows: seq<FlowEntry>, f: FlowEntry, i: nat): (slot: Slot)
    requires i <= |flows|
    ensures i <= slot.at <= |flows|
    ensures forall j :: i <= j < slot.at ==> flows[j].priority >= f.priority && !Same(flows[j], f)
    ensures slot.Replace? ==> slot.at < |flows| && Same(flows[slot.at], f)
    ensures slot.Before? && slot.at < |flows| ==> flows[slot.at].priority < f.priority
    decreases |flows| - i
  {
    if i == |flows| then Before(i)
    else if Same(flows[i], f) then Replace(i)
    else if flows[i].priority < f.priority then Before(i)
    else FindSlot(flows, f, i + 1)
  }

  /** `list` with the entry of the given serial number replaced. */
  function ReplaceSerial(list: seq<FlowEntry>, f: FlowEntry): (r: seq<FlowEntry>)
    ensures |r| == |list|
    ensures forall i :: 0 <= i < |list| ==> r[i] == if list[i].serial == f.serial then f else list[i]
  {
    seq(|list|, i requires 0 <= i < |list| => if list[i].serial == f.serial then f else list[i])
  }

  function Inserted(t: Linear, f: FlowEntry, slot: Slot): Linear
    requires slot.at <= |t.flows| && (slot.Replace? ==> slot.at < |t.flows|)
  {
    if slot.Replace? then
      var g := f.(serial := t.flows[slot.at].serial);
      t.(flows := t.flows[slot.at := g], iter := ReplaceSerial(t.iter, g))
    else
      var g := f.(serial := t.nextSerial);
      t.(flows := t.flows[..slot.at] + [g] + t.flows[slot.at..], iter := [g] + t.iter,
         nFlows := t.nFlows + 1, nextSerial := t.nextSerial + 1)
  }

  /** An entry is refused when it replaces nothing and the table is full. */
  predicate Refuses(t: Linear, f: FlowEntry) {
    FindSlot(t.flows, f, 0).Before? && t.nFlows >= t.maxFlows
  }

  function Insert(t: Linear, f: FlowEntry): Linear {
    if Refuses(t, f) then t else Inserted(t, f, FindSlot(t.flows, f, 0))
  }

  // ----- modification and removal

  function Modify(t: Linear, sel: Selector, acts: seq<Action>): Linear {
    t.(flows := Modified(t.flows, sel, acts), iter := Modified(t.iter, sel, acts))
  }

  function Remove(t: Linear, sel: Selector): Linear
    requires CountSelected(t.flows, sel) <= t.nFlows
  {
    t.(flows := Unselected(t.flows, sel), iter := Unselected(t.iter, sel),
       nFlows := t.nFlows - CountSelected(t.flows, sel))
  }

  // ----- the invariant

  /** An entry may stand before another: its priority is no lower, and the two are
      neither duplicates nor the same object. */
  predicate Precedes(f: FlowEntry, g: FlowEntry) {
    f.priority >= g.priority && !Same(f, g) && f.serial != g.serial
  }

  /** Sorted by non-increasing priority, without duplicates. */
  predicate Ordered(s: seq<FlowEntry>) {
    forall i, j :: 0 <= i < j < |s| ==> Precedes(s[i], s[j])
  }

  predicate NewestFirst(s: seq<FlowEntry>) {
    forall i, j :: 0 <= i < j < |s| ==> s[i].serial > s[j].serial
  }

  ghost predicate SameMembers(s: seq<FlowEntry>, t: seq<FlowEntry>) {
    forall f :: f in s <==> f in t
  }

  ghost predicate Ok(t: Linear) {
    && Ordered(t.flows)
    && (forall f :: f in t.flows ==> Masked(f.key) && f.serial < t.nextSerial)
    && t.nFlows == |t.flows| <= t.maxFlows
    && NewestFirst(t.iter) && SameMembers(t.flows, t.iter)
  }

  // ----- lookup is the best match

  predicate MatchedBy(f: FlowEntry, key: Key) { Matches1Wild(key, f.key) }

  /** On an ordered list the first match has the highest priority of all matches,
      and nothing is found only when nothing matches. */
  lemma {:induction false} LookupIsBest(s: seq<FlowEntry>, key: Key)
    requires Ordered(s)
    ensures match Lookup(s, key)
            case None => forall f :: f in s ==> !MatchedBy(f, key)
            case Some(f) => && f in s && MatchedBy(f, key)
                            && forall g :: g in s && MatchedBy(g, key) ==> g.priority <= f.priority
  {
    if s != [] && !Matches1Wild(key, s[0].key) {
      LookupIsBest(s[1..], key);
      assert forall g :: g in s ==> g == s[0] || g in s[1..];
    }
  }

  // ----- preservation

  lemma SameTransfers(f: FlowEntry, g: FlowEntry, h: FlowEntry)
    requires Masked(f.key) && Masked(g.key) && Masked(h.key)
    requires Same(f, h) && Same(g, h)
    ensures Same(f, g)
  {
    SameWildcardsEquivalence(g.key, h.key, g.key);
    SameWildcardsEquivalence(f.key, h.key, g.key);
  }

  /** In a consistent table an entry replaces at most one other. */
  lemma ReplacesAtMostOne(t: Linear, f: FlowEntry, i: nat, j: nat)
    requires Ok(t) && Masked(f.key) && i < |t.flows| && j < |t.flows|
    requires Same(t.flows[i], f) && Same(t.flows[j], f)
    ensures i == j
  {
    if i < j {
      assert Precedes(t.flows[i], t.flows[j]);
      SameTransfers(t.flows[i], t.flows[j], f);
    } else if j < i {
      assert Precedes(t.flows[j], t.flows[i]);
      SameTransfers(t.flows[j], t.flows[i], f);
    }
  }

  lemma SameSymmetric(f: FlowEntry, g: FlowEntry)
    requires Masked(f.key) && Masked(g.key) && Same(f, g)
    ensures Same(g, f)
  {
    SameWildcardsEquivalence(f.key, g.key, f.key);
  }

  /** What a successful insertion leaves: the new entry, and every old entry it
      does not replace. */
  predicate Combines(old_: seq<FlowEntry>, new_: seq<FlowEntry>, g: FlowEntry) {
    && g in new_
    && (forall f :: f in new_ ==> f == g || (f in old_ && !Same(f, g)))
    && (forall f :: f in old_ && !Same(f, g) ==> f in new_)
  }

  lemma ReplaceKeepsOrder(t: Linear, f: FlowEntry, k: nat)
    requires Ok(t) && Masked(f.key) && k < |t.flows| && Same(t.flows[k], f)
    requires f.serial == t.flows[k].serial
    ensures Ordered(t.flows[k := f]) && Combines(t.flows, t.flows[k := f], f)
  {
    var s := t.flows[k := f];
    assert s[k] == f;
    forall i, j | 0 <= i < j < |s| ensures Precedes(s[i], s[j]) {
      assert Precedes(t.flows[i], t.flows[j]);
      if i == k && Same(s[i], s[j]) {
        SameSymmetric(s[i], s[j]);
        ReplacesAtMostOne(t, f, k, j);
      } else if j == k && Same(s[i], s[j]) {
        ReplacesAtMostOne(t, f, k, i);
      }
    }
    forall g | g in t.flows && !Same(g, f) ensures g in s {
      var i :| 0 <= i < |t.flows| && t.flows[i] == g;
      assert s[i] == g;
    }
    forall g | g in s && g != f ensures g in t.flows && !Same(g, f) {
      var i :| 0 <= i < |s| && s[i] == g;
      if Same(g, f) {
        ReplacesAtMostOne(t, f, k, i);
      }
    }
  }

  lemma ReplaceKeepsIter(t: Linear, f: FlowEntry, k: nat)
    requires Ok(t) && k < |t.flows| && f.serial == t.flows[k].serial
    ensures NewestFirst(ReplaceSerial(t.iter, f))
    ensures SameMembers(t.flows[k := f], ReplaceSerial(t.iter, f))
  {
    hide Masked;
    var s := t.flows[k := f];
    var r := ReplaceSerial(t.iter, f);
    forall g | g in s ensures g in r {
      var i :| 0 <= i < |s| && s[i] == g;
      assert t.flows[i] in t.iter;
      var j :| 0 <= j < |t.iter| && t.iter[j] == t.flows[i];
      assert r[j] == g;
    }
    forall g | g in r ensures g in s {
      var j :| 0 <= j < |r| && r[j] == g;
      assert t.iter[j] in t.flows;
      var i :| 0 <= i < |t.flows| && t.flows[i] == t.iter[j];
      assert s[i] == g;
    }
  }

  lemma InsertBeforeKeeps(t: Linear, f: FlowEntry, k: nat)
    requires Ok(t) && Masked(f.key) && k <= |t.flows| && f.serial == t.nextSerial
    requires forall j :: 0 <= j < k ==> t.flows[j].priority >= f.priority && !Same(t.flows[j], f)
    requires k < |t.flows| ==> t.flows[k].priority < f.priority
    ensures Ordered(t.flows[..k] + [f] + t.flows[k..])
  {
    var s := t.flows[..k] + [f] + t.flows[k..];
    forall i, j | 0 <= i < j < |s| ensures Precedes(s[i], s[j]) {
      var i' := if i < k then i else i - 1;
      var j' := if j < k then j else j - 1;
      if i == k {
        assert s[i] == f && s[j] == t.flows[j'];
        assert j' > k ==> Precedes(t.flows[k], t.flows[j']);
      } else if j == k {
        assert s[j] == f && s[i] == t.flows[i];
      } else {
        assert s[i] == t.flows[i'] && s[j] == t.flows[j'];
      }
    }
  }

  lemma InsertBeforeMembers(s: seq<FlowEntry>, f: FlowEntry, k: nat)
    requires k <= |s|
    ensures forall g :: g in s[..k] + [f] + s[k..] <==> g == f || g in s
  {
    assert s == s[..k] + s[k..];
  }

  lemma InsertBeforeCombines(t: Linear, f: FlowEntry, k: nat)
    requires Ok(t) && k <= |t.flows|
    requires forall j :: 0 <= j < k ==> !Same(t.flows[j], f)
    requires k < |t.flows| ==> t.flows[k].priority < f.priority
    ensures forall g :: g in t.flows ==> !Same(g, f)
    ensures Combines(t.flows, t.flows[..k] + [f] + t.flows[k..], f)
  {
    InsertBeforeMembers(t.flows, f, k);
    forall g | g in t.flows ensures !Same(g, f) {
      var i :| 0 <= i < |t.flows| && t.flows[i] == g;
      assert i > k ==> Precedes(t.flows[k], t.flows[i]);
    }
  }

  lemma ReplacedKeeps(t: Linear, f: FlowEntry, k: nat)
    requires Ok(t) && Masked(f.key) && k < |t.flows| && Same(t.flows[k], f)
    ensures var u := Inserted(t, f, Replace(k));
            Ok(u) && Combines(t.flows, u.flows, f.(serial := t.flows[k].serial))
  {
    hide Masked;
    assert t.flows[k] in t.flows;
    var g := f.(serial := t.flows[k].serial);
    ReplaceKeepsOrder(t, g, k);
    ReplaceKeepsIter(t, g, k);
  }

  lemma AddedKeeps(t: Linear, f: FlowEntry, k: nat)
    requires Ok(t) && Masked(f.key) && k <= |t.flows| && t.nFlows < t.maxFlows
    requires forall j :: 0 <= j < k ==> t.flows[j].priority >= f.priority && !Same(t.flows[j], f)
    requires k < |t.flows| ==> t.flows[k].priority < f.priority
    ensures var u := Inserted(t, f, Before(k));
            Ok(u) && Combines(t.flows, u.flows, f.(serial := t.nextSerial))
  {
    hide Masked;
    var g := f.(serial := t.nextSerial);
    InsertBeforeKeeps(t, g, k);
    InsertBeforeCombines(t, g, k);
    InsertBeforeMembers(t.flows, g, k);
    hide Ordered, Same;
  }

  /** Insertion keeps the table sorted, duplicate free and within its capacity,
      both lists alike, and replaces exactly the entries it duplicates. */
  lemma InsertKeeps(t: Linear, f: FlowEntry)
    requires Ok(t) && Masked(f.key)
    ensures Ok(Insert(t, f))
    ensures !Refuses(t, f) ==> exists n :: Combines(t.flows, Insert(t, f).flows, f.(serial := n))
    ensures Refuses(t, f) <==> t.nFlows == t.maxFlows && forall g :: g in t.flows ==> !Same(g, f)
  {
    var slot := FindSlot(t.flows, f, 0);
    assert t.nFlows <= t.maxFlows;
    hide Masked, Combines, Inserted, Same;
    if slot.Replace? {
      assert t.flows[slot.at] in t.flows;
      ReplacedKeeps(t, f, slot.at);
    } else {
      InsertBeforeCombines(t, f, slot.at);
      if t.nFlows < t.maxFlows {
        AddedKeeps(t, f, slot.at);
      }
    }
  }

  // ----- modification and removal

  lemma ModifiedMembers(s: seq<FlowEntry>, r: seq<FlowEntry>, sel: Selector, acts: seq<Action>)
    requires SameMembers(s, r)
    ensures forall f :: f in Modified(s, sel, acts) ==> f in Modified(r, sel, acts)
  {
    hide Selects;
    forall f | f in Modified(s, sel, acts) ensures f in Modified(r, sel, acts) {
      var i :| 0 <= i < |s| && Modified(s, sel, acts)[i] == f;
      assert s[i] in r;
      var j :| 0 <= j < |r| && r[j] == s[i];
      assert Modified(r, sel, acts)[j] == f;
    }
  }

  lemma ModifiedKeepsOrder(s: seq<FlowEntry>, sel: Selector, acts: seq<Action>)
    requires Ordered(s)
    ensures Ordered(Modified(s, sel, acts))
  {
    var r := Modified(s, sel, acts);
    forall i, j | 0 <= i < j < |r| ensures Precedes(r[i], r[j]) {
      assert Precedes(s[i], s[j]);
    }
  }

  lemma ModifyKeeps(t: Linear, sel: Selector, acts: seq<Action>)
    requires Ok(t)
    ensures Ok(Modify(t, sel, acts))
  {
    hide Selects, Same, Masked, Ordered;
    var u := Modify(t, sel, acts);
    ModifiedMembers(t.flows, t.iter, sel, acts);
    ModifiedMembers(t.iter, t.flows, sel, acts);
    ModifiedKeepsOrder(t.flows, sel, acts);
    forall f | f in u.flows ensures Masked(f.key) && f.serial < t.nextSerial {
      var i :| 0 <= i < |u.flows| && u.flows[i] == f;
      assert t.flows[i] in t.flows;
    }
  }

  /** Two kept entries stand in their original order. */
  lemma {:induction false} UnselectedPositions(s: seq<FlowEntry>, sel: Selector, i: nat, j: nat)
    returns (p: nat, q: nat)
    requires i < j < |Unselected(s, sel)|
    ensures p < q < |s| && s[p] == Unselected(s, sel)[i] && s[q] == Unselected(s, sel)[j]
    decreases |s|
  {
    var front := s[..|s| - 1];
    var r := Unselected(front, sel);
    if j < |r| {
      p, q := UnselectedPositions(front, sel, i, j);
    } else {
      assert r[i] in r;
      p :| 0 <= p < |front| && front[p] == r[i];
      q := |s| - 1;
    }
  }

  lemma RemoveKeeps(t: Linear, sel: Selector)
    requires Ok(t)
    ensures CountSelected(t.flows, sel) <= t.nFlows
    ensures Ok(Remove(t, sel))
  {
    var u := Remove(t, sel);
    forall i, j | 0 <= i < j < |u.flows| ensures Precedes(u.flows[i], u.flows[j]) {
      var p, q := UnselectedPositions(t.flows, sel, i, j);
    }
    forall i, j | 0 <= i < j < |u.iter| ensures u.iter[i].serial > u.iter[j].serial {
      var p, q := UnselectedPositions(t.iter, sel, i, j);
    }
  }
}
