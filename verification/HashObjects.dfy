/** The mutable hash table of `datapath/table-hash.c`: an array of buckets, each
    empty or holding one flow object.

    The abstract value of the table is what `HashTable` reasons about; every method
    is proved to take it to the result of the operation of the same name there.
    Since every flow sits in the bucket of its own key, no object is in two buckets,
    and changing the actions of one flow in place leaves all other buckets alone. */
module HashObjects {
  import opened Prelude
  import opened FlowKey
  import opened Flow
  import opened TableObjects
  import H = HashTable

  ghost function Cell(f: SwFlow?): Option<FlowEntry>
    reads f
  {
    if f == null then None else Some(f.entry)
  }

  ghost function Cells(s: seq<SwFlow?>): (r: seq<Option<FlowEntry>>)
    reads s
    ensures |r| == |s| && forall i :: 0 <= i < |s| ==> r[i] == Cell(s[i])
  {
    seq(|s|, i requires 0 <= i < |s| reads s => Cell(s[i]))
  }

  class TableHash {
    const hash: H.HashFn
    const buckets: array<SwFlow?>
    var nFlows: nat

    ghost function Abs(): H.Hash
      requires buckets.Length > 0
      reads this, buckets, buckets[..]
    {
      H.Hash(Cells(buckets[..]), nFlows)
    }

    ghost predicate Valid()
      reads this, buckets, buckets[..]
    {
      buckets.Length > 0 && H.Ok(hash, Abs())
    }

    constructor (hash: H.HashFn, n: nat)
      requires n > 0
      ensures Valid() && fresh(buckets) && Abs() == H.NewHash(n) && this.hash == hash
      ensures forall f :: f in buckets[..] ==> f == null
    {
      this.hash := hash;
      buckets := new SwFlow?[n](i => null);
      nFlows := 0;
      new;
      assert Cells(buckets[..]) == H.NewHash(n).buckets;
      H.NewOk(hash, n);
    }

    /** `find_bucket`. */
    function FindBucket(fields: Fields): nat
      requires buckets.Length > 0
      ensures FindBucket(fields) < buckets.Length
    {
      hash(fields) % buckets.Length
    }

    method Lookup(key: Key) returns (r: SwFlow?)
      requires Valid()
      ensures Cell(r) == H.Lookup(hash, Abs(), key) && (r != null ==> r in buckets[..])
    {
      var f := buckets[FindBucket(key.fields)];
      return if f != null && f.entry.key.fields == key.fields then f else null;
    }

    method Insert(flow: SwFlow) returns (ok: bool)
      requires Valid() && Masked(flow.entry.key)
      modifies this, buckets
      ensures Valid() && Abs() == H.Insert(hash, old(Abs()), flow.entry)
      ensures ok == H.Accepts(hash, old(Abs()), flow.entry) && (!ok ==> Abs() == old(Abs()))
      ensures forall f :: f in buckets[..] ==> f in old(buckets[..]) || (ok && f == flow)
    {
      H.InsertKeeps(hash, Abs(), flow.entry);
      if flow.entry.key.wild != EXACT {
        return false;
      }
      var i := FindBucket(flow.entry.key.fields);
      var f := buckets[i];
      if f != null && f.entry.key.fields != flow.entry.key.fields {
        return false;
      }
      if f == null {
        nFlows := nFlows + 1;
      }
      buckets[i] := flow;
      assert Cells(buckets[..]) == old(Abs()).buckets[i := Some(flow.entry)];
      return true;
    }

    method HasConflict(key: Key, priority: nat, strict: bool) returns (r: bool)
      requires Valid()
      ensures r == H.HasConflict(hash, Abs(), key, priority, strict)
    {
      if key.wild == EXACT {
        var f := buckets[FindBucket(key.fields)];
        return f != null && Matches2Desc(f.entry.key, key, strict) && f.entry.priority == priority;
      }
      for i := 0 to buckets.Length
        invariant forall j :: 0 <= j < i ==> !H.ConflictIn(Abs().buckets[j], key, priority, strict)
      {
        var f := buckets[i];
        if f != null && Matches2Desc(f.entry.key, key, strict) && f.entry.priority == priority {
          assert H.ConflictIn(Abs().buckets[i], key, priority, strict);
          return true;
        }
      }
      return false;
    }

    /** Two buckets never hold the same object. */
    lemma DistinctObjects(i: nat, j: nat)
      requires Valid() && i < buckets.Length && j < buckets.Length && i != j && buckets[i] != null
      ensures buckets[i] != buckets[j]
    {
      assert H.PlacedAt(hash, Abs(), i) && H.PlacedAt(hash, Abs(), j);
    }

    /** `table_hash_modify`: new actions for the selected flows, in place. */
    method Modify(key: Key, priority: nat, strict: bool, acts: seq<Action>) returns (count: nat)
      requires Valid() && Masked(key)
      modifies buckets[..]
      ensures Valid() && Abs() == H.Modify(hash, old(Abs()), ModifySelector(key, priority, strict), acts)
      ensures count == H.ModifyCount(hash, old(Abs()), ModifySelector(key, priority, strict))
    {
      hide FieldsMatch, Masked, H.Ok;
      ghost var sel := ModifySelector(key, priority, strict);
      ghost var t := Abs();
      H.FastModify(hash, t, sel, acts);
      H.ScanModifyKeeps(hash, t, sel, acts);
      if key.wild == EXACT {
        count := ModifyExact(key, priority, strict, acts);
      } else {
        count := ModifyScan(key, priority, strict, acts);
      }
    }

    lemma AllDistinct()
      requires Valid()
      ensures forall i, j :: 0 <= i < buckets.Length && 0 <= j < buckets.Length && i != j && buckets[i] != null
                             ==> buckets[i] != buckets[j]
    {
      forall i, j | 0 <= i < buckets.Length && 0 <= j < buckets.Length && i != j && buckets[i] != null
        ensures buckets[i] != buckets[j]
      {
        DistinctObjects(i, j);
      }
    }

    /** One bucket. */
    method ModifyAt(i: nat, key: Key, priority: nat, strict: bool, acts: seq<Action>) returns (hit: bool)
      requires i < buckets.Length
      modifies buckets[i]
      ensures Cell(buckets[i]) == H.ModifiedBucket(old(Cell(buckets[i])), ModifySelector(key, priority, strict), acts)
      ensures hit == H.Hits(old(Cell(buckets[i])), ModifySelector(key, priority, strict))
    {
      hide FieldsMatch, Masked;
      var f := buckets[i];
      hit := f != null && MatchesDesc(f.entry.key, key, strict) && (!strict || f.entry.priority == priority);
      if hit {
        f.entry := f.entry.(acts := acts);
      }
    }

    /** The bucket of an exact description. */
    method ModifyExact(key: Key, priority: nat, strict: bool, acts: seq<Action>) returns (count: nat)
      requires Valid()
      modifies buckets[..]
      ensures var i := FindBucket(key.fields);
              var sel := ModifySelector(key, priority, strict);
              && Abs().buckets == old(Abs().buckets)[i := H.ModifiedBucket(old(Abs().buckets)[i], sel, acts)]
              && Abs().nFlows == old(Abs().nFlows)
              && count == if H.Hits(old(Abs().buckets)[i], sel) then 1 else 0
    {
      AllDistinct();
      hide H.ModifiedBucket, H.Ok, H.Hits;
      ghost var b := Abs().buckets;
      var i := FindBucket(key.fields);
      var hit := ModifyAt(i, key, priority, strict, acts);
      count := if hit then 1 else 0;
      assert Cells(buckets[..]) == b[i := H.ModifiedBucket(b[i], ModifySelector(key, priority, strict), acts)];
    }

    /** All buckets, for any other description. */
    method ModifyScan(key: Key, priority: nat, strict: bool, acts: seq<Action>) returns (count: nat)
      requires Valid()
      modifies buckets[..]
      ensures var sel := ModifySelector(key, priority, strict);
              && Abs().buckets == H.ModifiedBuckets(old(Abs().buckets), sel, acts)
              && Abs().nFlows == old(Abs().nFlows)
              && count == H.CountHits(old(Abs().buckets), sel)
    {
      AllDistinct();
      ghost var sel := ModifySelector(key, priority, strict);
      hide H.ModifiedBucket, H.Ok, H.Hits, ModifySelector, Cell;
      ghost var b := Abs().buckets;
      count := 0;
      for i := 0 to buckets.Length
        invariant forall j :: 0 <= j < i ==> Cell(buckets[j]) == H.ModifiedBucket(b[j], sel, acts)
        invariant forall j :: i <= j < buckets.Length ==> Cell(buckets[j]) == b[j]
        invariant count == H.CountHits(b[..i], sel)
      {
        assert b[..i + 1][..i] == b[..i];
        assert H.CountHits(b[..i + 1], sel) == H.CountHits(b[..i], sel) + if H.Hits(b[i], sel) then 1 else 0;
        hide H.CountHits;
        var hit := ModifyAt(i, key, priority, strict, acts);
        count := count + if hit then 1 else 0;
      }
      assert b[..buckets.Length] == b;
      assert Cells(buckets[..]) == H.ModifiedBuckets(b, sel, acts);
    }

    method Delete(key: Key, outPort: nat, strict: bool) returns (count: nat)
      requires Valid() && Masked(key)
      modifies this, buckets
      ensures var sel := Described(key, strict, false, 0, outPort);
              && Valid() && Abs() == H.Delete(hash, old(Abs()), sel)
              && count == H.DeleteCount(hash, old(Abs()), sel)
      ensures forall f :: f in buckets[..] ==> f in old(buckets[..]) || f == null
    {
      hide FieldsMatch, Masked;
      ghost var sel := Described(key, strict, false, 0, outPort);
      H.FastDelete(hash, Abs(), sel);
      H.ScanRemoveKeeps(hash, Abs(), sel);
      if key.wild == EXACT {
        count := 0;
        var i := FindBucket(key.fields);
        var f := buckets[i];
        if f != null && f.entry.key.fields == key.fields && HasOutPort(f.entry.acts, outPort) {
          buckets[i] := null;
          count := 1;
          assert Cells(buckets[..]) == old(Abs()).buckets[i := None];
        }
        nFlows := nFlows - count;
      } else {
        count := ClearSelected(Described(key, strict, false, 0, outPort));
      }
    }

    method Timeout(now: nat) returns (count: nat)
      requires Valid()
      modifies this, buckets
      ensures Valid() && Abs() == H.ScanRemove(old(Abs()), Elapsed(now))
      ensures count == H.CountHits(old(Abs()).buckets, Elapsed(now))
      ensures forall f :: f in buckets[..] ==> f in old(buckets[..]) || f == null
    {
      H.ScanRemoveKeeps(hash, Abs(), Elapsed(now));
      count := ClearSelected(Elapsed(now));
    }

    /** Empty the buckets of the selected flows. */
    method Sweep(sel: Selector) returns (count: nat)
      requires buckets.Length > 0
      modifies buckets
      ensures Cells(buckets[..]) == H.ClearedBuckets(old(Cells(buckets[..])), sel)
      ensures count == H.CountHits(old(Cells(buckets[..])), sel)
      ensures forall j :: 0 <= j < buckets.Length ==> buckets[j] == old(buckets[j]) || buckets[j] == null
    {
      hide Selects;
      ghost var b := Cells(buckets[..]);
      count := 0;
      for i := 0 to buckets.Length
        invariant forall j :: 0 <= j < i ==> Cell(buckets[j]) == H.ClearedBucket(b[j], sel)
        invariant forall j :: i <= j < buckets.Length ==> buckets[j] == old(buckets[j])
        invariant forall j :: 0 <= j < buckets.Length ==> buckets[j] == old(buckets[j]) || buckets[j] == null
        invariant count == H.CountHits(b[..i], sel)
      {
        assert b[..i + 1][..i] == b[..i];
        var f := buckets[i];
        if f != null && Selects(sel, f.entry) {
          buckets[i] := null;
          count := count + 1;
        }
      }
      assert b[..buckets.Length] == b;
      assert Cells(buckets[..]) == H.ClearedBuckets(b, sel);
    }

    /** The scan over all buckets that deletion and timeout share. */
    method ClearSelected(sel: Selector) returns (count: nat)
      requires Valid()
      modifies this, buckets
      ensures Abs() == H.ScanRemove(old(Abs()), sel)
      ensures count == H.CountHits(old(Abs()).buckets, sel)
      ensures forall f :: f in buckets[..] ==> f in old(buckets[..]) || f == null
    {
      ghost var b := Abs().buckets;
      assert nFlows == H.Occupied(b);
      hide Selects, H.Ok;
      H.OccupiedCleared(b, H.ClearedBuckets(b, sel), sel);
      count := Sweep(sel);
      nFlows := nFlows - count;
    }
  }
}
