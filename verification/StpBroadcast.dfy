/** Bridges that send hellos to each other. */
module StpBroadcast {
  import opened StpModel
  import opened StpSelection
  import opened StpInvariants
  import opened StpNetwork
  import opened StpSettling
  import opened StpHearing

  // A hello reaches all other ports of its segment.  Claims and records only improve, all
  // of them are grounded in walks through the network, and what one port of a segment has
  // recorded from another bridge, every port of the segment has heard.

  // ----- moves

  /** A port sends a hello, which reaches the ports `to`; or a bridge sees any public call
      that leaves its vectors alone, such as a tick in which nothing ages out. */
  datatype Move = Send(from: Place, to: seq<Place>) | Quiet(at: int, event: Event)

  predicate Neighbours(net: Net, x: Place, y: Place) {
    Attached(net, x) && Attached(net, y) && net.segment(x) == net.segment(y) && x != y
  }

  function Record(net: Net, x: Place): Vector
    requires Attached(net, x)
  {
    PortAt(net, x).designated
  }

  predicate Leads(net: Net, x: Place) { Attached(net, x) && IsDesignated(net.bridges[x.bridge], PortAt(net, x)) }

  function Hello(net: Net, x: Place): Config
    requires Attached(net, x)
  {
    ConfigFor(net.bridges[x.bridge], PortAt(net, x))
  }

  function Deliver(net: Net, y: Place, config: Config): Net {
    if Attached(net, y) then Updated(net, y.bridge, ReceivedConfig(net.bridges[y.bridge], y.port, config)) else net
  }

  function Spread(net: Net, ys: seq<Place>, config: Config): Net
    decreases |ys|
  {
    if ys == [] then net else Spread(Deliver(net, ys[0], config), ys[1..], config)
  }

  /** Only designated ports send. */
  function Apply(net: Net, m: Move): Net {
    match m
    case Send(from, to) => if Leads(net, from) then Spread(net, to, Hello(net, from)) else net
    case Quiet(at, event) => if 0 <= at < |net.bridges| then Updated(net, at, Step(net.bridges[at], event)) else net
  }

  /** A hello reaches exactly the other ports of its segment before it is too old. */
  ghost predicate Proper(net: Net, m: Move) {
    match m
    case Send(from, to) =>
      && Attached(net, from) && (forall y :: y in to <==> Neighbours(net, from, y))
      && (Leads(net, from) ==> Hello(net, from).messageAge < Hello(net, from).maxAge)
    case Quiet(at, event) => 0 <= at < |net.bridges| && SameVectors(net.bridges[at], Step(net.bridges[at], event))
  }

  // ----- what stays

  ghost predicate SameNet(net: Net, n: Net) {
    && |n.bridges| == |net.bridges| && n.segment == net.segment
    && forall i {:trigger SameFrame(net.bridges[i], n.bridges[i])} :: 0 <= i < |net.bridges|
                 ==> SameFrame(net.bridges[i], n.bridges[i])
  }

  lemma SameNetAttached(net: Net, n: Net, x: Place)
    requires SameNet(net, n)
    ensures Attached(net, x) <==> Attached(n, x)
    ensures Attached(net, x) ==> PortAt(n, x).pathCost == PortAt(net, x).pathCost
  {
    assert 0 <= x.bridge < |net.bridges| ==> SameFrame(net.bridges[x.bridge], n.bridges[x.bridge]);
  }

  predicate BridgeImproved(net: Net, n: Net, i: int)
    requires 0 <= i < |net.bridges| == |n.bridges|
  {
    Below(ClaimOf(n.bridges[i]), ClaimOf(net.bridges[i]))
  }

  predicate PlaceImproved(net: Net, n: Net, y: Place)
    requires Attached(net, y)
  {
    Attached(n, y) && Below(Said(Record(n, y)), Said(Record(net, y)))
  }

  /** Claims and records have only become better. */
  ghost predicate Improved(net: Net, n: Net) {
    && SameNet(net, n)
    && (forall i {:trigger BridgeImproved(net, n, i)} :: 0 <= i < |net.bridges| ==> BridgeImproved(net, n, i))
    && (forall y {:trigger PlaceImproved(net, n, y)} :: Attached(net, y) ==> PlaceImproved(net, n, y))
  }

  lemma ImprovedTransitive(a: Net, b: Net, c: Net)
    requires Improved(a, b) && Improved(b, c)
    ensures Improved(a, c)
  {
    forall i | 0 <= i < |a.bridges| ensures SameFrame(a.bridges[i], c.bridges[i]) && BridgeImproved(a, c, i) {
      assert SameFrame(a.bridges[i], b.bridges[i]) && SameFrame(b.bridges[i], c.bridges[i]);
      assert BridgeImproved(a, b, i) && BridgeImproved(b, c, i);
    }
    forall y | Attached(a, y) ensures PlaceImproved(a, c, y) {
      assert PlaceImproved(a, b, y) && PlaceImproved(b, c, y);
    }
  }

  /** Records are now the bridge's own, or what `v` said on segment `s`, or as before. */
  ghost predicate Rewritten(net: Net, n: Net, s: int, v: Vector) {
    forall y {:trigger PlaceRewritten(net, n, s, v, y)} :: Attached(net, y) && Attached(n, y)
                                                          ==> PlaceRewritten(net, n, s, v, y)
  }

  predicate PlaceRewritten(net: Net, n: Net, s: int, v: Vector, y: Place)
    requires Attached(net, y) && Attached(n, y)
  {
    Leads(n, y) || Record(n, y) == Record(net, y) || (net.segment(y) == s && Record(n, y) == v)
  }

  // ----- what claims rest on

  /** A walk from bridge `i` to the claimed root costs no more than claimed. */
  ghost predicate Ground(net: Net, i: int, k: Claim) {
    exists hops, m :: Grounds(net, i, k, hops, m)
  }

  predicate Grounds(net: Net, i: int, k: Claim, hops: seq<Hop>, m: int) {
    && Walk(net, i, hops, m) && 0 <= m < |net.bridges| && net.bridges[m].bridgeId == k.root
    && (forall h :: h in hops ==> Attached(net, h.out)) && WalkCost(net, hops) <= k.cost
  }

  /** Port `x` has sent `v`, and its claim has only become better since. */
  ghost predicate CameFrom(base: Net, net: Net, x: Place, v: Vector) {
    && Attached(net, x) && v.bridge == net.bridges[x.bridge].bridgeId && v.port == PortAt(net, x).portId
    && Below(ClaimOf(net.bridges[x.bridge]), Said(v)) && Ground(base, x.bridge, Said(v))
  }

  ghost predicate Truthful(base: Net, net: Net, y: Place)
    requires Attached(net, y)
  {
    exists x :: CameFrom(base, net, x, Record(net, y)) && net.segment(x) == net.segment(y)
  }

  predicate Distinct(net: Net) {
    forall i, j :: 0 <= i < j < |net.bridges| ==> net.bridges[i].bridgeId != net.bridges[j].bridgeId
  }

  /** Every bridge has nothing to reselect, and every claim and record is grounded in the
      network `base`. */
  ghost predicate Honest(base: Net, net: Net) {
    && SameNet(base, net) && Distinct(net)
    && (forall i {:trigger Good(base, net, i)} :: 0 <= i < |net.bridges| ==> Good(base, net, i))
    && (forall y {:trigger Truthful(base, net, y)} :: Attached(net, y) ==> Truthful(base, net, y))
  }

  ghost predicate Good(base: Net, net: Net, i: int)
    requires 0 <= i < |net.bridges|
  {
    Sound(net.bridges[i]) && Inv(net.bridges[i]) && Ground(base, i, ClaimOf(net.bridges[i]))
  }

  /** What a port has recorded from another one, all ports of the segment have heard. */
  ghost predicate Shared(net: Net) {
    forall x, y {:trigger Neighbours(net, x, y)} :: Neighbours(net, x, y) ==> SharedBy(net, x, y)
  }

  predicate SharedBy(net: Net, x: Place, y: Place)
    requires Neighbours(net, x, y)
  {
    Leads(net, x) || Below(Said(Record(net, y)), Said(Record(net, x)))
  }

  /** One more hop. */
  lemma GroundHop(base: Net, i: int, x: Place, y: Place, k: Claim)
    requires Attached(base, x) && Attached(base, y) && base.segment(x) == base.segment(y) && y.bridge == i
    requires Ground(base, x.bridge, k)
    ensures Ground(base, i, Further(k, PortAt(base, y).pathCost))
  {
    var hops, m :| Grounds(base, x.bridge, k, hops, m);
    var longer := [Hop(y, x)] + hops;
    assert longer[1..] == hops;
    assert forall h :: h in longer ==> h == Hop(y, x) || h in hops;
    assert Grounds(base, i, Further(k, PortAt(base, y).pathCost), longer, m);
  }

  lemma GroundHere(base: Net, i: int)
    requires 0 <= i < |base.bridges|
    ensures Ground(base, i, Claim(base.bridges[i].bridgeId, 0))
  {
    assert Grounds(base, i, Claim(base.bridges[i].bridgeId, 0), [], i);
  }

  lemma CameStays(base: Net, net: Net, n: Net, x: Place, v: Vector)
    requires CameFrom(base, net, x, v) && Improved(net, n)
    ensures CameFrom(base, n, x, v)
  {
    assert SameFrame(net.bridges[x.bridge], n.bridges[x.bridge]) && BridgeImproved(net, n, x.bridge);
  }

  // ----- one delivery

  /** A hello on its way from `x` to `y`. */
  ghost predicate OnTheWay(base: Net, net: Net, x: Place, y: Place, config: Config) {
    Neighbours(net, x, y) && CameFrom(base, net, x, config.vector) && config.messageAge < config.maxAge
  }

  lemma NeighboursAreForeign(net: Net, x: Place, y: Place, v: Vector)
    requires Neighbours(net, x, y) && Distinct(net) && Numbered(net.bridges[x.bridge])
    requires v.bridge == net.bridges[x.bridge].bridgeId && v.port == PortAt(net, x).portId
    ensures Foreign(net.bridges[y.bridge], y.port, v)
  {
    if x.bridge == y.bridge {
      assert PortAt(net, x).portId % 256 == x.port + 1;
      assert PortAt(net, y).portId % 256 == y.port + 1;
    }
  }

  lemma DeliverHeard(base: Net, net: Net, x: Place, y: Place, config: Config)
    requires Honest(base, net) && OnTheWay(base, net, x, y, config)
    ensures Heard(net.bridges[y.bridge], ReceivedConfig(net.bridges[y.bridge], y.port, config), y.port, config.vector)
  {
    assert Good(base, net, x.bridge) && Good(base, net, y.bridge);
    NeighboursAreForeign(net, x, y, config.vector);
    Hears(net.bridges[y.bridge], y.port, config);
  }

  /** A bridge of the network is replaced by one that has heard `v` on port `y`. */
  lemma HeardImproves(net: Net, y: Place, c: Bridge, v: Vector)
    requires Attached(net, y) && Heard(net.bridges[y.bridge], c, y.port, v)
    ensures var n := Updated(net, y.bridge, c);
            && Improved(net, n) && Rewritten(net, n, net.segment(y), v)
            && Attached(n, y) && Below(Said(Record(n, y)), Said(v))
  {
    var n := Updated(net, y.bridge, c);
    forall z | Attached(net, z)
      ensures PlaceImproved(net, n, z) && PlaceRewritten(net, n, net.segment(y), v, z)
    {
      if z.bridge == y.bridge {
        assert Rerecorded(net.bridges[y.bridge], c, y.port, v, z.port);
      }
    }
  }

  /** What a record rests on. */
  lemma RecordGrounds(base: Net, net: Net, y: Place, k: Claim)
    requires SameNet(base, net) && Attached(net, y) && Truthful(base, net, y)
    requires k == Further(Said(Record(net, y)), PortAt(net, y).pathCost)
    ensures Ground(base, y.bridge, k)
  {
    var x :| CameFrom(base, net, x, Record(net, y)) && net.segment(x) == net.segment(y);
    SameNetAttached(base, net, x);
    SameNetAttached(base, net, y);
    GroundHop(base, y.bridge, x, y, Said(Record(net, y)));
  }

  lemma TruthStays(base: Net, net: Net, n: Net, y: Place)
    requires Attached(net, y) && Truthful(base, net, y) && Improved(net, n)
    requires Attached(n, y) && Record(n, y) == Record(net, y)
    ensures Truthful(base, n, y)
  {
    var x :| CameFrom(base, net, x, Record(net, y)) && net.segment(x) == net.segment(y);
    CameStays(base, net, n, x, Record(net, y));
  }

  lemma HeardGrounds(base: Net, net: Net, x: Place, y: Place, c: Bridge, v: Vector)
    requires Honest(base, net) && Neighbours(net, x, y) && CameFrom(base, net, x, v)
    requires Heard(net.bridges[y.bridge], c, y.port, v)
    ensures Ground(base, y.bridge, ClaimOf(c))
  {
    SettledClaim(c);
    var i, r := y.bridge, c.rootPort;
    assert SameFrame(base.bridges[i], net.bridges[i]);
    if r == -1 {
      GroundHere(base, i);
    } else {
      var q := Place(i, r);
      assert Rerecorded(net.bridges[i], c, y.port, v, r);
      if c.ports[r].designated == net.bridges[i].ports[r].designated {
        assert Truthful(base, net, q);
        RecordGrounds(base, net, q, ClaimOf(c));
      } else {
        SameNetAttached(base, net, x);
        SameNetAttached(base, net, y);
        GroundHop(base, i, x, y, Said(v));
      }
    }
  }

  lemma HeardIsTruthful(base: Net, net: Net, x: Place, y: Place, c: Bridge, v: Vector, z: Place)
    requires Honest(base, net) && Neighbours(net, x, y) && CameFrom(base, net, x, v)
    requires Heard(net.bridges[y.bridge], c, y.port, v) && Attached(net, z)
    ensures Attached(Updated(net, y.bridge, c), z) && Truthful(base, Updated(net, y.bridge, c), z)
  {
    var n := Updated(net, y.bridge, c);
    HeardImproves(net, y, c, v);
    assert PlaceImproved(net, n, z) && PlaceRewritten(net, n, net.segment(y), v, z);
    if Record(n, z) == Record(net, z) {
      assert Truthful(base, net, z);
      TruthStays(base, net, n, z);
    } else if Leads(n, z) {
      HeardGrounds(base, net, x, y, c, v);
      OwnRecord(c, z.port);
      assert CameFrom(base, n, z, Record(n, z));
    } else {
      CameStays(base, net, n, x, v);
    }
  }

  lemma HeardIsHonest(base: Net, net: Net, x: Place, y: Place, c: Bridge, v: Vector)
    requires Honest(base, net) && Neighbours(net, x, y) && CameFrom(base, net, x, v)
    requires Heard(net.bridges[y.bridge], c, y.port, v)
    ensures Honest(base, Updated(net, y.bridge, c))
  {
    var n := Updated(net, y.bridge, c);
    forall i | 0 <= i < |net.bridges| ensures SameFrame(base.bridges[i], n.bridges[i]) && Good(base, n, i) {
      assert SameFrame(base.bridges[i], net.bridges[i]) && Good(base, net, i);
      if i == y.bridge {
        HeardGrounds(base, net, x, y, c, v);
      }
    }
    forall z | Attached(n, z) ensures Truthful(base, n, z) {
      assert Attached(net, z);
      HeardIsTruthful(base, net, x, y, c, v, z);
    }
  }

  // ----- one hello

  lemma LeadsByRecord(net: Net, n: Net, y: Place)
    requires SameNet(net, n) && Attached(net, y) && Attached(n, y) && Record(n, y) == Record(net, y)
    ensures Leads(n, y) <==> Leads(net, y)
  {
    assert SameFrame(net.bridges[y.bridge], n.bridges[y.bridge]);
  }

  lemma RewrittenTransitive(a: Net, b: Net, c: Net, s: int, v: Vector)
    requires SameNet(a, b) && SameNet(b, c) && Rewritten(a, b, s, v) && Rewritten(b, c, s, v)
    ensures Rewritten(a, c, s, v)
  {
    forall y | Attached(a, y) && Attached(c, y) ensures PlaceRewritten(a, c, s, v, y) {
      SameNetAttached(a, b, y);
      assert PlaceRewritten(a, b, s, v, y) && PlaceRewritten(b, c, s, v, y);
      if Record(c, y) == Record(b, y) {
        LeadsByRecord(b, c, y);
      }
    }
  }

  lemma NeighboursStay(net: Net, n: Net, x: Place, y: Place)
    requires SameNet(net, n)
    ensures Neighbours(n, x, y) <==> Neighbours(net, x, y)
  {
    SameNetAttached(net, n, x);
    SameNetAttached(net, n, y);
  }

  /** The ports `ys` have heard `v`. */
  predicate Reached(net: Net, ys: seq<Place>, v: Vector) {
    forall y :: y in ys ==> Attached(net, y) && Below(Said(Record(net, y)), Said(v))
  }

  lemma {:induction false} SpreadKeeps(base: Net, net: Net, x: Place, ys: seq<Place>, config: Config)
    requires Honest(base, net) && CameFrom(base, net, x, config.vector) && config.messageAge < config.maxAge
    requires forall y :: y in ys ==> Neighbours(net, x, y)
    ensures var n := Spread(net, ys, config);
            && Honest(base, n) && Improved(net, n) && Rewritten(net, n, net.segment(x), config.vector)
            && Reached(n, ys, config.vector)
    decreases |ys|
  {
    if ys != [] {
      var y, v, n := ys[0], config.vector, Spread(net, ys, config);
      var d := Deliver(net, y, config);
      DeliverHeard(base, net, x, y, config);
      HeardImproves(net, y, d.bridges[y.bridge], v);
      HeardIsHonest(base, net, x, y, d.bridges[y.bridge], v);
      hide Deliver, Honest, Heard, Rewritten, CameFrom;
      CameStays(base, net, d, x, v);
      forall z | z in ys[1..] ensures Neighbours(d, x, z) {
        NeighboursStay(net, d, x, z);
      }
      SpreadKeeps(base, d, x, ys[1..], config);
      assert PlaceImproved(d, n, y);
      ImprovedTransitive(net, d, n);
      RewrittenTransitive(net, d, n, net.segment(x), v);
      assert forall z :: z in ys ==> z == y || z in ys[1..];
    } else {
      ImprovedReflexive(net);
    }
  }

  lemma ImprovedReflexive(net: Net)
    ensures Improved(net, net)
  {
  }
}
