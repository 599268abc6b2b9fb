/** The mutable flow table of `datapath/table-linear.c`.

    A flow is an object: it keeps its identity while it sits on two lists, and
    `modify` changes its actions in place.  Every method is proved to compute the
    operation of the same name on the table's value, so that all results about
    values hold of the objects: `Valid` carries their invariant, and the contracts
    say in addition which objects are on the lists and which may change. */
module TableObjects {
  import opened Prelude
  import opened FlowKey
  import opened Flow
  import L = LinearTable

  class SwFlow {
    var entry: FlowEntry

    constructor (entry: FlowEntry)
      ensures this.entry == entry
    {
      this.entry := entry;
    }
  }

  /** The values of a list of flow objects. */
  ghost function Entries(s: seq<SwFlow>): (r: seq<FlowEntry>)
    reads s
    ensures |r| == |s| && forall i :: 0 <= i < |s| ==> r[i] == s[i].entry
  {
    seq(|s|, i requires 0 <= i < |s| reads s => s[i].entry)
  }

  ghost predicate SameObjects(s: seq<SwFlow>, t: seq<SwFlow>) {
    (forall f | f in s :: f in t) && (forall f | f in t :: f in s)
  }

  /** The objects of a list that are not in `gone`, in order. */
  function Remaining(s: seq<SwFlow>, gone: set<SwFlow>): (r: seq<SwFlow>)
    ensures |r| <= |s|
    ensures forall g | g in r :: g in s && g !in gone
  {
    if s == [] then []
    else
      var front := Remaining(s[..|s| - 1], gone);
      if s[|s| - 1] in gone then front else front + [s[|s| - 1]]
  }

  function Replaced(s: seq<SwFlow>, f: SwFlow, g: SwFlow): (r: seq<SwFlow>)
    ensures |r| == |s| && forall i :: 0 <= i < |s| ==> r[i] == if s[i] == f then g else s[i]
  {
    seq(|s|, i requires 0 <= i < |s| => if s[i] == f then g else s[i])
  }

  lemma ReplacedObjects(s: seq<SwFlow>, r: seq<SwFlow>, i: nat, g: SwFlow)
    requires i < |s| && SameObjects(s, r) && forall j :: 0 <= j < |s| && j != i ==> s[j] != s[i]
    ensures SameObjects(s[i := g], Replaced(r, s[i], g))
  {
    var s' := s[i := g];
    var r' := Replaced(r, s[i], g);
    forall f | f in s' ensures f in r' {
      var k :| 0 <= k < |s'| && s'[k] == f;
      assert s[k] in r;
      var j :| 0 <= j < |r| && r[j] == s[k];
      assert r'[j] == f;
    }
    forall f | f in r' ensures f in s' {
      var j :| 0 <= j < |r'| && r'[j] == f;
      assert r[j] in s;
      var k :| 0 <= k < |s| && s[k] == r[j];
      assert s'[k] == f;
    }
  }

  lemma ReplacedEntries(s: seq<SwFlow>, r: seq<SwFlow>, i: nat, g: SwFlow)
    requires i < |s| && SameObjects(s, r) && g !in s && L.NewestFirst(Entries(r))
    requires g.entry.serial == s[i].entry.serial
    ensures Entries(Replaced(r, s[i], g)) == L.ReplaceSerial(Entries(r), g.entry)
  {
    assert s[i] in r;
    var p :| 0 <= p < |r| && r[p] == s[i];
    forall j | 0 <= j < |r|
      ensures Replaced(r, s[i], g)[j].entry == L.ReplaceSerial(Entries(r), g.entry)[j]
    {
      assert j != p ==> Entries(r)[j].serial != Entries(r)[p].serial;
    }
  }

  lemma SplicedObjects(s: seq<SwFlow>, r: seq<SwFlow>, i: nat, g: SwFlow)
    requires i <= |s| && SameObjects(s, r)
    ensures var s' := s[..i] + [g] + s[i..];
            g in s' && SameObjects(s', [g] + r) && forall f | f in s' :: f in s || f == g
  {
    assert s == s[..i] + s[i..];
  }

  lemma {:induction false} RemainingMember(s: seq<SwFlow>, gone: set<SwFlow>, f: SwFlow)
    requires f in s && f !in gone
    ensures f in Remaining(s, gone)
  {
    if f != s[|s| - 1] {
      RemainingMember(s[..|s| - 1], gone, f);
    }
  }

  lemma {:induction false} RemainingNothing(s: seq<SwFlow>)
    ensures Remaining(s, {}) == s
  {
    if s != [] {
      RemainingNothing(s[..|s| - 1]);
    }
  }

  /** Unlinking one more object. */
  lemma {:induction false} RemainingOneMore(s: seq<SwFlow>, gone: set<SwFlow>, f: SwFlow)
    ensures Remaining(Remaining(s, gone), {f}) == Remaining(s, gone + {f})
  {
    if s != [] {
      var front := Remaining(s[..|s| - 1], gone);
      RemainingOneMore(s[..|s| - 1], gone, f);
      assert (front + [s[|s| - 1]])[..|front|] == front;
    }
  }

  /** Objects and values are filtered alike. */
  lemma {:induction false} RemainingEntries(s: seq<SwFlow>, gone: set<SwFlow>, sel: Selector)
    requires forall i :: 0 <= i < |s| ==> (s[i] in gone <==> Selects(sel, s[i].entry))
    ensures Entries(Remaining(s, gone)) == Unselected(Entries(s), sel)
  {
    hide Selects;
    if s != [] {
      RemainingEntries(s[..|s| - 1], gone, sel);
      assert Entries(s)[..|s| - 1] == Entries(s[..|s| - 1]);
    }
  }

  lemma SameObjectsRemaining(s: seq<SwFlow>, r: seq<SwFlow>, gone: set<SwFlow>)
    requires SameObjects(s, r)
    ensures SameObjects(Remaining(s, gone), Remaining(r, gone))
  {
    forall f | f in Remaining(s, gone) ensures f in Remaining(r, gone) {
      RemainingMember(r, gone, f);
    }
    forall f | f in Remaining(r, gone) ensures f in Remaining(s, gone) {
      RemainingMember(s, gone, f);
    }
  }

  ghost predicate Different(s: seq<SwFlow>) { forall i, j :: 0 <= i < j < |s| ==> s[i] != s[j] }

  /** What a pass over one list does to the objects shows on the other list too. */
  lemma ModifiedObjects(s: seq<SwFlow>, r: seq<SwFlow>, s0: seq<FlowEntry>, r0: seq<FlowEntry>,
                        sel: Selector, acts: seq<Action>)
    requires SameObjects(s, r) && |s| == |s0| && |r| == |r0|
    requires forall i, j :: 0 <= i < |s| && 0 <= j < |r| && s[i] == r[j] ==> s0[i] == r0[j]
    requires forall i :: 0 <= i < |s| ==> s[i].entry == Reactioned(s0[i], sel, acts)
    ensures Entries(s) == Modified(s0, sel, acts) && Entries(r) == Modified(r0, sel, acts)
  {
    hide Selects;
    forall j | 0 <= j < |r| ensures r[j].entry == Reactioned(r0[j], sel, acts) {
      assert r[j] in s;
      var i :| 0 <= i < |s| && s[i] == r[j];
    }
  }

  /** Filtering both lists by the same objects filters both lists of values. */
  lemma Filtered(s: seq<SwFlow>, r: seq<SwFlow>, gone: set<SwFlow>, sel: Selector)
    requires SameObjects(s, r)
    requires forall i :: 0 <= i < |s| ==> (s[i] in gone <==> Selects(sel, s[i].entry))
    ensures Entries(Remaining(s, gone)) == Unselected(Entries(s), sel)
    ensures Entries(Remaining(r, gone)) == Unselected(Entries(r), sel)
    ensures SameObjects(Remaining(s, gone), Remaining(r, gone))
  {
    hide Selects;
    RemainingEntries(s, gone, sel);
    forall j | 0 <= j < |r| ensures r[j] in gone <==> Selects(sel, r[j].entry) {
      assert r[j] in s;
    }
    RemainingEntries(r, gone, sel);
    SameObjectsRemaining(s, r, gone);
  }

  lemma CountNone(s: seq<FlowEntry>, sel: Selector)
    ensures CountSelected(s[..0], sel) == 0
  {
  }

  lemma CountStep(s: seq<FlowEntry>, i: nat, sel: Selector)
    requires i < |s|
    ensures CountSelected(s[..i + 1], sel)
            == CountSelected(s[..i], sel) + if Selects(sel, s[i]) then 1 else 0
  {
    hide Selects;
    assert s[..i + 1][..i] == s[..i];
  }

  class TableLinear {
    var flows: seq<SwFlow>
    var iterFlows: seq<SwFlow>
    var nFlows: nat
    const maxFlows: nat
    var nextSerial: nat

    ghost function Abs(): L.Linear
      reads this, flows, iterFlows
    {
      L.Linear(Entries(flows), Entries(iterFlows), nFlows, maxFlows, nextSerial)
    }

    /** Both lists hold the same objects, and their values form a consistent table. */
    ghost predicate Valid()
      reads this, flows, iterFlows
    {
      L.Ok(Abs()) && SameObjects(flows, iterFlows)
    }

    constructor (maxFlows: nat)
      ensures Valid() && Abs() == L.NewLinear(maxFlows) && flows == []
    {
      flows, iterFlows, nFlows, nextSerial := [], [], 0, 0;
      this.maxFlows := maxFlows;
    }

    /** Objects on the list are pairwise different. */
    lemma DistinctObjects(i: nat, j: nat)
      requires Valid() && i < j < |flows|
      ensures flows[i] != flows[j]
    {
      assert L.Precedes(Abs().flows[i], Abs().flows[j]);
    }

    method Lookup(key: Key) returns (r: SwFlow?)
      requires Valid()
      ensures r == null <==> L.Lookup(Abs().flows, key).None?
      ensures r != null ==> r in flows && L.Lookup(Abs().flows, key) == Some(r.entry)
    {
      for i := 0 to |flows|
        invariant L.Lookup(Abs().flows[i..], key) == L.Lookup(Abs().flows, key)
      {
        if Matches1Wild(key, flows[i].entry.key) {
          return flows[i];
        }
        assert Abs().flows[i..][1..] == Abs().flows[i + 1..];
      }
      return null;
    }

    method HasConflict(key: Key, priority: nat, strict: bool) returns (r: bool)
      requires Valid()
      ensures r <==> exists i :: 0 <= i < |Abs().flows| && L.Conflicts(Abs().flows[i], key, priority, strict)
    {
      for i := 0 to |flows|
        invariant forall j :: 0 <= j < i ==> !L.Conflicts(Abs().flows[j], key, priority, strict)
      {
        if Matches2Desc(flows[i].entry.key, key, strict) && flows[i].entry.priority == priority {
          assert L.Conflicts(Abs().flows[i], key, priority, strict);
          return true;
        }
      }
      return false;
    }

    /** The insertion loop: where it stops, and whether at a duplicate. */
    method FindPlace(entry: FlowEntry) returns (slot: L.Slot)
      ensures slot == L.FindSlot(Abs().flows, entry, 0)
    {
      var i := 0;
      while i < |flows|
        invariant i <= |flows|
        invariant L.FindSlot(Abs().flows, entry, i) == L.FindSlot(Abs().flows, entry, 0)
      {
        if L.Same(flows[i].entry, entry) {
          return L.Replace(i);
        }
        if flows[i].entry.priority < entry.priority {
          break;
        }
        i := i + 1;
      }
      return L.Before(i);
    }

    /** `table_linear_insert`: replace a duplicate, or insert behind the entries of
        the same or a higher priority if there is room. */
    method Insert(flow: SwFlow) returns (ok: bool)
      requires Valid() && flow !in flows && Masked(flow.entry.key)
      modifies this, flow
      ensures Valid() && Abs() == L.Insert(old(Abs()), old(flow.entry))
      ensures ok == !L.Refuses(old(Abs()), old(flow.entry))
      ensures if ok then flow in flows else flow.entry == old(flow.entry) && flows == old(flows)
      ensures forall f :: f in flows ==> f in old(flows) || f == flow
    {
      hide L.Ok, L.Same;
      L.InsertKeeps(Abs(), flow.entry);
      var slot := FindPlace(flow.entry);
      if slot.Replace? {
        ReplaceObject(slot.at, flow);
        return true;
      }
      if nFlows >= maxFlows {
        return false;
      }
      InsertObject(slot.at, flow);
      return true;
    }

    method ReplaceObject(i: nat, flow: SwFlow)
      requires Valid() && i < |flows| && flow !in flows
      modifies this, flow
      ensures Abs() == L.Inserted(old(Abs()), old(flow.entry), L.Replace(i))
      ensures flows == old(flows)[i := flow] && SameObjects(flows, iterFlows)
      ensures flow in flows && forall f :: f in flows ==> f in old(flows) || f == flow
    {
      var f := flows[i];
      forall j | 0 <= j < |flows| && j != i ensures flows[j] != f {
        DistinctObjects(if i < j then i else j, if i < j then j else i);
      }
      ReplacedObjects(flows, iterFlows, i, flow);
      ghost var t := Abs();
      flow.entry := flow.entry.(serial := f.entry.serial);
      assert Entries(flows) == t.flows && Entries(iterFlows) == t.iter;
      ReplacedEntries(flows, iterFlows, i, flow);
      flows := flows[i := flow];
      iterFlows := Replaced(iterFlows, f, flow);
      assert Abs().flows == t.flows[i := flow.entry];
      assert flows[i] == flow;
    }

    method InsertObject(i: nat, flow: SwFlow)
      requires Valid() && i <= |flows| && flow !in flows
      modifies this, flow
      ensures Abs() == L.Inserted(old(Abs()), old(flow.entry), L.Before(i))
      ensures SameObjects(flows, iterFlows)
      ensures flow in flows && forall f :: f in flows ==> f in old(flows) || f == flow
    {
      hide L.Ok;
      ghost var t := Abs();
      SplicedObjects(flows, iterFlows, i, flow);
      nFlows := nFlows + 1;
      flow.entry := flow.entry.(serial := nextSerial);
      nextSerial := nextSerial + 1;
      flows := flows[..i] + [flow] + flows[i..];
      iterFlows := [flow] + iterFlows;
      assert Abs().flows == t.flows[..i] + [flow.entry] + t.flows[i..];
      assert Abs().iter == [flow.entry] + t.iter;
    }

    /** `table_linear_modify`: new actions for the selected flows, in place. */
    method Modify(key: Key, priority: nat, strict: bool, acts: seq<Action>) returns (count: nat)
      requires Valid()
      modifies flows
      ensures Valid() && Abs() == L.Modify(old(Abs()), ModifySelector(key, priority, strict), acts)
      ensures count == CountSelected(old(Abs()).flows, ModifySelector(key, priority, strict))
    {
      hide L.Ok, FieldsMatch;
      ghost var sel := ModifySelector(key, priority, strict);
      ghost var t := Abs();
      L.ModifyKeeps(t, sel, acts);
      AllDifferent();
      count := 0;
      for i := 0 to |flows|
        invariant forall j :: 0 <= j < i ==> flows[j].entry == Reactioned(t.flows[j], sel, acts)
        invariant forall j :: i <= j < |flows| ==> flows[j].entry == t.flows[j]
        invariant count == CountSelected(t.flows[..i], sel)
      {
        CountStep(t.flows, i, sel);
        var e := flows[i].entry;
        if MatchesDesc(e.key, key, strict) && (!strict || e.priority == priority) {
          assert Selects(sel, e);
          flows[i].entry := e.(acts := acts);
          count := count + 1;
        }
      }
      assert t.flows[..|flows|] == t.flows;
      ModifiedObjects(flows, iterFlows, t.flows, t.iter, sel, acts);
    }

    /** `table_linear_delete` and `table_linear_timeout`: unlink the selected flows
        from both lists. */
    method Remove(sel: Selector) returns (count: nat)
      requires Valid()
      modifies this
      ensures Valid() && Abs() == L.Remove(old(Abs()), sel)
      ensures count == CountSelected(old(Abs()).flows, sel)
      ensures forall f :: f in flows ==> f in old(flows)
    {
      hide L.Ok, Selects, Unselected, CountSelected, SameObjects;
      L.RemoveKeeps(Abs(), sel);
      AllDifferent();
      count := UnlinkSelected(sel);
      nFlows := nFlows - count;
    }

    method UnlinkSelected(sel: Selector) returns (count: nat)
      requires SameObjects(flows, iterFlows) && Different(flows)
      modifies this`flows, this`iterFlows
      ensures SameObjects(flows, iterFlows) && count == CountSelected(old(Entries(flows)), sel)
      ensures Entries(flows) == old(Unselected(Entries(flows), sel))
      ensures Entries(iterFlows) == old(Unselected(Entries(iterFlows), sel))
      ensures forall f :: f in flows ==> f in old(flows)
    {
      hide Selects, Remaining, CountSelected, Unselected;
      ghost var gone: set<SwFlow> := {};
      ghost var values := Entries(flows);
      var list := flows;
      count := 0;
      RemainingNothing(flows);
      RemainingNothing(iterFlows);
      CountNone(values, sel);
      for i := 0 to |list|
        invariant flows == Remaining(list, gone) && iterFlows == Remaining(old(iterFlows), gone)
        invariant forall j :: 0 <= j < i ==> (list[j] in gone <==> Selects(sel, values[j]))
        invariant forall j :: i <= j < |list| ==> list[j] !in gone
        invariant count == CountSelected(values[..i], sel)
      {
        CountStep(values, i, sel);
        var f := list[i];
        if Selects(sel, f.entry) {
          RemainingOneMore(list, gone, f);
          RemainingOneMore(old(iterFlows), gone, f);
          flows := Remaining(flows, {f});
          iterFlows := Remaining(iterFlows, {f});
          count := count + 1;
          gone := gone + {f};
        }
      }
      assert values[..|list|] == values;
      Filtered(list, old(iterFlows), gone, sel);
    }

    lemma AllDifferent()
      requires Valid()
      ensures Different(flows)
    {
      forall i, j | 0 <= i < j < |flows| ensures flows[i] != flows[j] {
        DistinctObjects(i, j);
      }
    }
  }
}
