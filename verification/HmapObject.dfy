/** `struct hmap` as an object over an array of chains.

    `Valid` says that the number of buckets is a power of two, that every node is
    once in the bucket of its hash and that `n` counts the nodes; every operation
    keeps it and says exactly which nodes are in the map afterwards.  `Balanced`
    bounds the load: insertion establishes it, and no operation but a bare
    `InsertFast` can lose it.  Iteration is proved through the order in which the
    buckets list their nodes. */
module HmapObject {
  import opened Prelude
  import opened Hmap

  class HashMap {
    var buckets: array<Chain>
    var mask: nat
    var n: nat

    /** The array has `mask + 1` buckets, a power of two, every node is once in the
        bucket of its hash, and `n` counts the nodes. */
    ghost predicate Valid()
      reads this, buckets
    {
      && IsMask(mask) && buckets.Length == mask + 1
      && Good(buckets[..]) && n == |Concat(buckets[..])|
    }

    /** The load that searches rely on. */
    predicate Balanced()
      reads this
    {
      n / 2 <= mask
    }

    ghost predicate Has(x: Node)
      requires buckets.Length > 0
      reads this, buckets
    {
      Member(buckets[..], x)
    }

    /** `hmap_init`. */
    constructor ()
      ensures Valid() && Balanced() && fresh(buckets) && forall x: Node :: !Has(x)
    {
      buckets := new Chain[1](i => []);
      mask, n := 0, 0;
      new;
      assert buckets[..] == [[]];
      assert GoodChain(buckets[..], 0);
    }

    /** `hmap_insert_fast`. */
    method InsertFast(x: Node)
      requires Valid() && !Has(x)
      modifies this`n, buckets
      ensures Valid() && n == old(n) + 1 && buckets[..] == Hmap.InsertFast(old(buckets[..]), x)
      ensures forall y: Node :: Has(y) <==> old(Has(y)) || y == x
    {
      ghost var b: Buckets := buckets[..];
      var i := x.hash % (mask + 1);
      buckets[i] := [x] + buckets[i];
      n := n + 1;
      assert buckets[..] == Hmap.InsertFast(b, x);
      ConcatUpdate(b, i, [x] + b[i]);
      forall y: Node ensures Has(y) <==> Member(b, y) || y == x { InsertFastKeeps(b, x, y); }
      InsertFastKeeps(b, x, x);
    }

    /** `hmap_insert`. */
    method Insert(x: Node)
      requires Valid() && !Has(x)
      modifies this, buckets
      ensures Valid() && Balanced() && n == old(n) + 1 && (buckets == old(buckets) || fresh(buckets))
      ensures forall y: Node :: Has(y) <==> old(Has(y)) || y == x
    {
      hide Good, Member, Hmap.InsertFast;
      InsertFast(x);
      if n / 2 > mask {
        Expand();
      }
    }

    /** `hmap_remove`: walk the chain to the node and unlink it. */
    method Remove(x: Node)
      requires Valid() && Has(x)
      modifies this`n, buckets
      ensures Valid() && n == old(n) - 1 && (old(Balanced()) ==> Balanced())
      ensures forall y: Node :: Has(y) <==> old(Has(y)) && y != x
    {
      hide Good, IsMask, Concat;
      ghost var b: Buckets := buckets[..];
      var i := x.hash % (mask + 1);
      var chain := buckets[i];
      var j := 0;
      while chain[j] != x
        invariant 0 <= j <= IndexOf(chain, x)
        decreases IndexOf(chain, x) - j
      {
        assert x in chain;
        j := j + 1;
      }
      assert j == IndexOf(chain, x);
      ConcatUpdate(b, i, Without(chain, x));
      buckets[i] := chain[..j] + chain[j + 1..];
      n := n - 1;
      assert buckets[..] == Hmap.Remove(b, x);
      forall y: Node ensures Has(y) <==> Member(b, y) && y != x { RemoveKeeps(b, x, y); }
      RemoveKeeps(b, x, x);
    }

    /** The loops of `resize`: move every node, in the order of the old buckets, to a
        new array. */
    static method MoveAll(a: array<Chain>, newMask: nat) returns (tmp: array<Chain>, count: nat)
      requires a.Length > 0
      ensures fresh(tmp) && tmp[..] == Hmap.Resize(a[..], newMask) && count == |Concat(a[..])|
    {
      hide Hmap.InsertFast;
      ghost var b: Buckets := a[..];
      tmp := new Chain[newMask + 1](i => []);
      count := 0;
      assert tmp[..] == Empty(newMask + 1) && Concat(b[..0]) == [];
      for i := 0 to a.Length
        invariant count == |Concat(b[..i])|
        invariant tmp[..] == InsertAll(Empty(newMask + 1), Concat(b[..i]))
      {
        ghost var before := Concat(b[..i]);
        assert before + a[i][..0] == before;
        for j := 0 to |a[i]|
          invariant count == |before| + j
          invariant tmp[..] == InsertAll(Empty(newMask + 1), before + a[i][..j])
        {
          ghost var nodes := before + a[i][..j];
          InsertAllAppend(Empty(newMask + 1), nodes, a[i][j]);
          assert before + a[i][..j + 1] == nodes + [a[i][j]];
          MoveNode(tmp, a[i][j], newMask);
          count := count + 1;
        }
        assert a[i][..|a[i]|] == b[i];
        ConcatNext(b, i);
      }
      assert b[..a.Length] == b;
    }

    /** `resize`. */
    method Resize(newMask: nat)
      requires Valid() && IsMask(newMask)
      modifies this
      ensures Valid() && mask == newMask && n == old(n) && fresh(buckets)
      ensures forall y: Node :: Has(y) <==> old(Has(y))
    {
      hide Good, IsMask, Member, Hmap.Resize;
      ghost var b: Buckets := buckets[..];
      forall y: Node ensures Member(Hmap.Resize(b, newMask), y) <==> Member(b, y) { ResizeKeeps(b, newMask, y); }
      ResizeKeeps(b, newMask, Node(0, 0));
      buckets, n := MoveAll(buckets, newMask);
      mask := newMask;
    }

    /** `hmap_insert_fast` on the bare array. */
    static method MoveNode(a: array<Chain>, x: Node, m: nat)
      requires a.Length == m + 1
      modifies a
      ensures a[..] == Hmap.InsertFast(old(a[..]), x)
    {
      var i := x.hash % (m + 1);
      a[i] := [x] + a[i];
    }

    /** `hmap_expand`: restores the load after any number of insertions. */
    method Expand()
      requires Valid()
      modifies this
      ensures Valid() && Balanced() && n == old(n) && mask >= old(mask)
      ensures buckets == old(buckets) || fresh(buckets)
      ensures forall y: Node :: Has(y) <==> old(Has(y))
    {
      hide Good, IsMask, Member;
      CalcMaskIsLeast(n);
      var newMask := CalcMask(n);
      if newMask > mask {
        Resize(newMask);
      }
    }

    /** `hmap_shrink`: no power of two allowed for this many nodes is smaller. */
    method Shrink()
      requires Valid()
      modifies this
      ensures Valid() && (old(Balanced()) ==> Balanced()) && n == old(n)
      ensures mask <= CalcMask(n) && (buckets == old(buckets) || fresh(buckets))
      ensures forall y: Node :: Has(y) <==> old(Has(y))
    {
      hide Good, IsMask, Member;
      CalcMaskIsLeast(n);
      var newMask := CalcMask(n);
      if newMask < mask {
        Resize(newMask);
      }
    }

    /** `hmap_reserve`: room for `capacity` nodes. */
    method Reserve(capacity: nat)
      requires Valid()
      modifies this
      ensures Valid() && (old(Balanced()) ==> Balanced()) && n == old(n)
      ensures mask >= old(mask) && capacity / 2 <= mask && (buckets == old(buckets) || fresh(buckets))
      ensures forall y: Node :: Has(y) <==> old(Has(y))
    {
      hide Good, IsMask, Member;
      CalcMaskIsLeast(capacity);
      var newMask := CalcMask(capacity);
      if newMask > mask {
        Resize(newMask);
      }
    }

    /** `hmap_next__`. */
    method FirstIn(start: nat) returns (r: Option<Node>)
      requires Valid() && start <= mask + 1
      ensures r == FirstFrom(buckets[start..])
    {
      for i := start to mask + 1
        invariant FirstFrom(buckets[start..]) == FirstFrom(buckets[i..])
      {
        if buckets[i] != [] {
          return Some(buckets[i][0]);
        }
        assert buckets[i..][1..] == buckets[i + 1..];
      }
      return None;
    }

    /** `hmap_next`. */
    method Next(x: Node) returns (r: Option<Node>)
      requires Valid() && Has(x)
      ensures r == Hmap.Next(buckets[..], x)
    {
      var i := x.hash % (mask + 1);
      var j := IndexOf(buckets[i], x);
      if j + 1 < |buckets[i]| {
        return Some(buckets[i][j + 1]);
      }
      assert buckets[..][i + 1..] == buckets[i + 1..];
      r := FirstIn(i + 1);
    }

    /** `HMAP_FOR_EACH`: the nodes met from `hmap_first` on by `hmap_next` are all the
        nodes of the map, each once. */
    method ForEach() returns (visited: seq<Node>)
      requires Valid()
      ensures NoDup(visited) && |visited| == n && forall y: Node :: y in visited <==> Has(y)
    {
      hide Good, Member, IsMask, NoDup;
      ghost var b: Buckets := buckets[..];
      FirstFromIsFirst(b);
      assert buckets[0..] == b;
      var next := FirstIn(0);
      visited := [];
      while next.Some?
        invariant |visited| <= n && visited == Concat(b)[..|visited|]
        invariant next == if |visited| < n then Some(Concat(b)[|visited|]) else None
        decreases n - |visited|
      {
        NextFollows(b, |visited|);
        visited := visited + [next.value];
        next := Next(next.value);
      }
      assert visited == Concat(b);
      forall y: Node ensures y in visited <==> Has(y) { IterationIsExact(b, y); }
      IterationIsExact(b, Node(0, 0));
    }

    /** `HMAP_FOR_EACH_WITH_HASH`: the nodes with this hash. */
    method ForEachWithHash(hash: nat) returns (visited: seq<Node>)
      requires Valid()
      ensures NoDup(visited) && forall y: Node :: y in visited <==> Has(y) && y.hash == hash
    {
      var i := hash % (mask + 1);
      assert GoodChain(buckets[..], i);
      visited := [];
      for j := 0 to |buckets[i]|
        invariant NoDup(visited)
        invariant forall y: Node :: y in visited <==> y in buckets[i][..j] && y.hash == hash
      {
        if buckets[i][j].hash == hash {
          visited := visited + [buckets[i][j]];
        }
      }
      assert buckets[i][..|buckets[i]|] == buckets[i];
    }
  }
}
