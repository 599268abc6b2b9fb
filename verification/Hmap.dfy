/** The resizing hash map of `lib/hmap.c` and `lib/hmap.h`.  A bucket is the chain of
    its nodes, first node first; masking a hash with a mask 2^k - 1 is taking its
    remainder modulo 2^k. */
module Hmap {
  import opened Prelude

  /** A node, identified by its address, and the hash it was inserted with. */
  datatype Node = Node(id: nat, hash: nat)

  type Chain = seq<Node>
  type Buckets = b: seq<Chain> | |b| > 0 witness [[]]

  // ----- the table

  function BucketOf(b: Buckets, hash: nat): (i: nat)
    ensures i < |b|
  {
    hash % |b|
  }

  predicate Member(b: Buckets, x: Node) { x in b[BucketOf(b, x.hash)] }

  predicate GoodChain(b: Buckets, i: nat)
    requires i < |b|
  {
    NoDup(b[i]) && forall x :: x in b[i] ==> BucketOf(b, x.hash) == i
  }

  /** Every node is in the bucket of its hash, and only once. */
  predicate Good(b: Buckets) { forall i {:trigger GoodChain(b, i)} :: 0 <= i < |b| ==> GoodChain(b, i) }

  /** All nodes in the order of an iteration. */
  function Concat(b: seq<Chain>): Chain {
    if b == [] then [] else b[0] + Concat(b[1..])
  }

  function Empty(size: nat): Buckets
    requires size > 0
  {
    seq(size, i => [])
  }

  function InsertFast(b: Buckets, x: Node): Buckets {
    b[BucketOf(b, x.hash) := [x] + b[BucketOf(b, x.hash)]]
  }

  function Remove(b: Buckets, x: Node): Buckets
    requires Member(b, x)
  {
    b[BucketOf(b, x.hash) := Without(b[BucketOf(b, x.hash)], x)]
  }

  function InsertAll(b: Buckets, nodes: Chain): (r: Buckets)
    ensures |r| == |b|
    decreases |nodes|
  {
    if nodes == [] then b else InsertAll(InsertFast(b, nodes[0]), nodes[1..])
  }

  /** `resize`: the nodes, in the order of the old buckets, move to a new array. */
  function Resize(b: Buckets, mask: nat): Buckets { InsertAll(Empty(mask + 1), Concat(b)) }

  lemma InsertFastKeeps(b: Buckets, x: Node, y: Node)
    requires Good(b) && !Member(b, x)
    ensures Good(InsertFast(b, x)) && (Member(InsertFast(b, x), y) <==> Member(b, y) || y == x)
  {
    var r := InsertFast(b, x);
    forall i | 0 <= i < |r| ensures GoodChain(r, i) {
      assert GoodChain(b, i);
    }
  }

  lemma RemoveKeeps(b: Buckets, x: Node, y: Node)
    requires Good(b) && Member(b, x)
    ensures Good(Remove(b, x)) && (Member(Remove(b, x), y) <==> Member(b, y) && y != x)
  {
    var r := Remove(b, x);
    forall i | 0 <= i < |r| ensures GoodChain(r, i) {
      assert GoodChain(b, i);
      if i == BucketOf(b, x.hash) {
        WithoutKeeps(b[i], x);
      }
    }
    assert GoodChain(b, BucketOf(b, x.hash));
    WithoutKeeps(b[BucketOf(b, x.hash)], x);
  }

  lemma {:induction false} InsertAllKeeps(b: Buckets, nodes: Chain, y: Node)
    requires Good(b) && NoDup(nodes) && forall x :: x in nodes ==> !Member(b, x)
    ensures Good(InsertAll(b, nodes)) && (Member(InsertAll(b, nodes), y) <==> Member(b, y) || y in nodes)
    decreases |nodes|
  {
    hide Good, Member, InsertFast;
    if nodes != [] {
      var c := InsertFast(b, nodes[0]);
      InsertFastKeeps(b, nodes[0], y);
      forall x | x in nodes[1..] ensures !Member(c, x) {
        InsertFastKeeps(b, nodes[0], x);
      }
      InsertAllKeeps(c, nodes[1..], y);
      assert nodes == [nodes[0]] + nodes[1..];
    }
  }

  // ----- counting

  lemma {:induction false} ConcatUpdate(b: seq<Chain>, i: nat, s: Chain)
    requires i < |b|
    ensures |Concat(b[i := s])| == |Concat(b)| - |b[i]| + |s|
    decreases |b|
  {
    if i > 0 {
      assert b[i := s][1..] == b[1..][i - 1 := s];
      ConcatUpdate(b[1..], i - 1, s);
    } else {
      assert b[i := s][1..] == b[1..];
    }
  }

  lemma {:induction false} InsertAllAppend(b: Buckets, nodes: Chain, x: Node)
    ensures InsertAll(b, nodes + [x]) == InsertFast(InsertAll(b, nodes), x)
    decreases |nodes|
  {
    if nodes != [] {
      assert (nodes + [x])[1..] == nodes[1..] + [x];
      InsertAllAppend(InsertFast(b, nodes[0]), nodes[1..], x);
    } else {
      assert nodes + [x] == [x];
      assert InsertAll(InsertFast(b, x), [x][1..]) == InsertFast(b, x);
    }
  }

  lemma {:induction false} InsertAllCount(b: Buckets, nodes: Chain)
    ensures |Concat(InsertAll(b, nodes))| == |Concat(b)| + |nodes|
    decreases |nodes|
  {
    if nodes != [] {
      ConcatUpdate(b, BucketOf(b, nodes[0].hash), [nodes[0]] + b[BucketOf(b, nodes[0].hash)]);
      InsertAllCount(InsertFast(b, nodes[0]), nodes[1..]);
    }
  }

  lemma {:induction false} ConcatEmpty(b: seq<Chain>)
    requires forall i :: 0 <= i < |b| ==> b[i] == []
    ensures Concat(b) == []
  {
    if b != [] {
      ConcatEmpty(b[1..]);
    }
  }

  lemma {:induction false} InConcat(b: seq<Chain>, x: Node)
    ensures x in Concat(b) <==> exists i :: 0 <= i < |b| && x in b[i]
  {
    if b != [] {
      InConcat(b[1..], x);
      if exists i :: 0 <= i < |b| && x in b[i] {
        var i :| 0 <= i < |b| && x in b[i];
        assert i == 0 || x in b[1..][i - 1];
      }
      if exists i :: 0 <= i < |b[1..]| && x in b[1..][i] {
        var i :| 0 <= i < |b[1..]| && x in b[1..][i];
        assert x in b[i + 1];
      }
    }
  }

  /** An iteration meets every node once. */
  lemma IterationIsExact(b: Buckets, x: Node)
    requires Good(b)
    ensures NoDup(Concat(b)) && (x in Concat(b) <==> Member(b, x))
  {
    InConcat(b, x);
    if x in Concat(b) {
      var i :| 0 <= i < |b| && x in b[i];
      assert GoodChain(b, i);
    }
    forall i | 0 <= i < |b| ensures NoDup(b[i]) { assert GoodChain(b, i); }
    forall i, j, y | 0 <= i < j < |b| && y in b[i] ensures y !in b[j] {
      assert GoodChain(b, i) && GoodChain(b, j);
    }
    ConcatNoDup(b);
  }

  lemma NoDupJoin(s: Chain, t: Chain)
    requires NoDup(s) && NoDup(t) && forall y :: y in s ==> y !in t
    ensures NoDup(s + t)
  {
    forall i, j | 0 <= i < j < |s + t| ensures (s + t)[i] != (s + t)[j] {
      if i < |s| <= j {
        assert s[i] in s && t[j - |s|] in t;
      }
    }
  }

  lemma {:induction false} ConcatNoDup(b: seq<Chain>)
    requires forall i :: 0 <= i < |b| ==> NoDup(b[i])
    requires forall i, j, y :: 0 <= i < j < |b| && y in b[i] ==> y !in b[j]
    ensures NoDup(Concat(b))
  {
    if b != [] {
      forall i, j, y | 0 <= i < j < |b[1..]| && y in b[1..][i] ensures y !in b[1..][j] {
        assert y in b[i + 1] && b[1..][j] == b[j + 1];
      }
      ConcatNoDup(b[1..]);
      forall y | y in b[0] ensures y !in Concat(b[1..]) {
        InConcat(b[1..], y);
        assert forall i :: 0 <= i < |b[1..]| ==> b[1..][i] == b[i + 1];
      }
      NoDupJoin(b[0], Concat(b[1..]));
    }
  }

  /** Resizing keeps the nodes, their number and the invariant, for any new size. */
  lemma ResizeKeeps(b: Buckets, mask: nat, y: Node)
    requires Good(b)
    ensures Good(Resize(b, mask)) && |Resize(b, mask)| == mask + 1
    ensures Member(Resize(b, mask), y) <==> Member(b, y)
    ensures |Concat(Resize(b, mask))| == |Concat(b)|
  {
    var e := Empty(mask + 1);
    forall i | 0 <= i < |e| ensures GoodChain(e, i) { assert e[i] == []; }
    IterationIsExact(b, y);
    assert forall x: Node :: !Member(e, x);
    InsertAllKeeps(e, Concat(b), y);
    ConcatEmpty(e);
    InsertAllCount(e, Concat(b));
  }

  // ----- iterating

  /** `hmap_next__`: the first node in the buckets from `start` on. */
  function FirstFrom(b: seq<Chain>): Option<Node> {
    if b == [] then None else if b[0] != [] then Some(b[0][0]) else FirstFrom(b[1..])
  }

  /** `hmap_next`. */
  function Next(b: Buckets, x: Node): Option<Node>
    requires Member(b, x)
  {
    var i := BucketOf(b, x.hash);
    var j := IndexOf(b[i], x);
    if j + 1 < |b[i]| then Some(b[i][j + 1]) else FirstFrom(b[i + 1..])
  }

  lemma {:induction false} FirstFromIsFirst(b: seq<Chain>)
    ensures FirstFrom(b) == if Concat(b) == [] then None else Some(Concat(b)[0])
  {
    if b != [] {
      FirstFromIsFirst(b[1..]);
    }
  }

  lemma {:induction false} ConcatSplit(b: seq<Chain>, i: nat)
    requires i < |b|
    ensures Concat(b) == Concat(b[..i]) + b[i] + Concat(b[i + 1..])
  {
    if i > 0 {
      ConcatSplit(b[1..], i - 1);
      assert b[1..][..i - 1] == b[..i][1..] && b[1..][i..] == b[i + 1..];
      assert b[0] + (Concat(b[..i][1..]) + b[i] + Concat(b[i + 1..]))
          == (b[0] + Concat(b[..i][1..])) + b[i] + Concat(b[i + 1..]);
    } else {
      assert b[..0] == [] && Concat(b[..0]) == [];
    }
  }

  lemma ConcatNext(b: seq<Chain>, i: nat)
    requires i < |b|
    ensures Concat(b[..i + 1]) == Concat(b[..i]) + b[i]
  {
    ConcatSplit(b[..i + 1], i);
    assert b[..i + 1][..i] == b[..i] && b[..i + 1][i + 1..] == [];
  }

  /** `hmap_next` follows the order of the iteration. */
  lemma NextFollows(b: Buckets, k: nat)
    requires Good(b) && k < |Concat(b)|
    ensures Member(b, Concat(b)[k])
    ensures Next(b, Concat(b)[k]) == if k + 1 < |Concat(b)| then Some(Concat(b)[k + 1]) else None
  {
    var order := Concat(b);
    var x := order[k];
    IterationIsExact(b, x);
    var i := BucketOf(b, x.hash);
    var j := IndexOf(b[i], x);
    ConcatSplit(b, i);
    var before := |Concat(b[..i])|;
    assert order[before + j] == x;
    assert before + j == k;
    FirstFromIsFirst(b[i + 1..]);
  }

  // ----- the size of the table

  /** All bits up to the highest one of `h`. */
  function Smeared(h: nat): nat { if h == 0 then 0 else 2 * Smeared(h / 2) + 1 }

  /** `calc_mask`. */
  function CalcMask(capacity: nat): nat {
    var mask := Smeared(capacity / 2);
    if mask == 1 then 3 else mask
  }

  predicate IsMask(m: nat) { m == 0 || (m % 2 == 1 && IsMask(m / 2)) }

  /** The mask is of the form 2^k - 1, large enough for the load to be at most two
      (three for the last), and not larger than needed except that it is never one. */
  lemma {:induction false} SmearedIsLeast(h: nat)
    ensures IsMask(Smeared(h)) && h <= Smeared(h)
    ensures forall m: nat :: IsMask(m) && h <= m ==> Smeared(h) <= m
  {
    if h > 0 {
      SmearedIsLeast(h / 2);
      forall m: nat | IsMask(m) && h <= m ensures Smeared(h) <= m {
        assert IsMask(m / 2) && h / 2 <= m / 2;
      }
    }
  }

  lemma CalcMaskIsLeast(capacity: nat)
    ensures IsMask(CalcMask(capacity)) && capacity / 2 <= CalcMask(capacity)
    ensures forall m: nat :: IsMask(m) && m != 1 && capacity / 2 <= m ==> CalcMask(capacity) <= m
  {
    SmearedIsLeast(capacity / 2);
    assert IsMask(1) && IsMask(3);
    forall m: nat | IsMask(m) && m != 1 && capacity / 2 <= m ensures CalcMask(capacity) <= m {
      assert Smeared(capacity / 2) <= m;
      assert m != 2;
    }
  }
}
