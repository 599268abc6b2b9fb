/** Walks through a network can be kept short. */
module StpWalks {
  import opened Prelude
  import opened StpNetwork

  /** The bridge reached after `a` hops. */
  function Stop(i: int, hops: seq<Hop>, a: nat): int
    requires a <= |hops|
  {
    if a == 0 then i else hops[a - 1].into.bridge
  }

  predicate AllAttached(net: Net, hops: seq<Hop>) { forall h :: h in hops ==> Attached(net, h.out) }

  /** A walk that leads from bridge `i` to bridge `m`. */
  predicate Leading(net: Net, i: int, m: int, hops: seq<Hop>) { Walk(net, i, hops, m) && AllAttached(net, hops) }

  lemma {:induction false} WalkSplits(net: Net, i: int, hops: seq<Hop>, m: int, a: nat)
    requires Walk(net, i, hops, m) && AllAttached(net, hops) && a <= |hops| && 0 <= i < |net.bridges|
    ensures Walk(net, i, hops[..a], Stop(i, hops, a)) && Walk(net, Stop(i, hops, a), hops[a..], m)
    ensures 0 <= Stop(i, hops, a) < |net.bridges|
    ensures WalkCost(net, hops) == WalkCost(net, hops[..a]) + WalkCost(net, hops[a..])
    decreases a
  {
    if a == 0 {
      assert hops[0..] == hops && hops[..0] == [];
    } else {
      WalkSplits(net, hops[0].into.bridge, hops[1..], m, a - 1);
      assert hops[1..][..a - 1] == hops[..a][1..] && hops[1..][a - 1..] == hops[a..];
    }
  }

  lemma {:induction false} WalksJoin(net: Net, i: int, p: seq<Hop>, j: int, q: seq<Hop>, m: int)
    requires Walk(net, i, p, j) && Walk(net, j, q, m) && AllAttached(net, p) && AllAttached(net, q)
    ensures Walk(net, i, p + q, m) && AllAttached(net, p + q)
    ensures WalkCost(net, p + q) == WalkCost(net, p) + WalkCost(net, q)
    decreases |p|
  {
    if p == [] {
      assert p + q == q;
    } else {
      WalksJoin(net, p[0].into.bridge, p[1..], j, q, m);
      assert (p + q)[1..] == p[1..] + q;
    }
  }

  /** A walk that is too long meets a bridge twice. */
  lemma LongWalkReturns(net: Net, i: int, hops: seq<Hop>, m: int) returns (a: nat, b: nat)
    requires Walk(net, i, hops, m) && AllAttached(net, hops) && |hops| >= |net.bridges| && 0 <= i < |net.bridges|
    ensures a < b <= |hops| && Stop(i, hops, a) == Stop(i, hops, b)
  {
    var stops := seq(|hops| + 1, k requires 0 <= k < |hops| + 1 => Stop(i, hops, k));
    forall k | 0 <= k < |stops| ensures 0 <= stops[k] < |net.bridges| {
      WalkSplits(net, i, hops, m, k);
    }
    a, b := Pigeonhole(stops, |net.bridges|);
  }

  /** For every walk there is one of fewer hops than bridges that costs no more. */
  lemma {:induction false} ShortWalk(net: Net, i: int, hops: seq<Hop>, m: int) returns (short: seq<Hop>)
    requires Walk(net, i, hops, m) && AllAttached(net, hops) && 0 <= i < |net.bridges|
    ensures Walk(net, i, short, m) && AllAttached(net, short) && |short| < |net.bridges|
    ensures WalkCost(net, short) <= WalkCost(net, hops)
    decreases |hops|
  {
    if |hops| < |net.bridges| {
      short := hops;
    } else {
      var a, b := LongWalkReturns(net, i, hops, m);
      WalkSplits(net, i, hops, m, a);
      WalkSplits(net, i, hops, m, b);
      CutCost(net, i, hops, m, a, b);
      WalksJoin(net, i, hops[..a], Stop(i, hops, a), hops[b..], m);
      short := ShortWalk(net, i, hops[..a] + hops[b..], m);
    }
  }

  /** The first hops cost no more than more of them. */
  lemma CutCost(net: Net, i: int, hops: seq<Hop>, m: int, a: nat, b: nat)
    requires Walk(net, i, hops, m) && AllAttached(net, hops) && a < b <= |hops| && 0 <= i < |net.bridges|
    ensures WalkCost(net, hops[..a]) <= WalkCost(net, hops[..b])
  {
    WalkSplits(net, i, hops, m, b);
    WalkSplits(net, i, hops[..b], Stop(i, hops, b), a);
    assert hops[..b][..a] == hops[..a];
  }
}
