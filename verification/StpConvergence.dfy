/** Every connected network of bridges converges. */
module StpConvergence {
  import opened StpModel
  import opened StpInvariants
  import opened StpRuns
  import opened StpAgeing
  import opened StpNetwork
  import opened StpSettling
  import opened StpReachable
  import opened StpHearing
  import opened StpBroadcast
  import opened StpRounds
  import opened StpWalks

  // Once claims are exact, the port with the least vector of a segment is designated, and
  // its next hello silences the others.

  // ----- exact claims

  predicate Smallest(base: Net, m: int) {
    && 0 <= m < |base.bridges|
    && forall k :: 0 <= k < |base.bridges| ==> base.bridges[m].bridgeId <= base.bridges[k].bridgeId
  }

  /** The claim of bridge `i` is as good as the walk. */
  predicate AsGood(base: Net, net: Net, m: int, i: int, hops: seq<Hop>)
    requires 0 <= m < |base.bridges| && 0 <= i < |net.bridges|
  {
    Walk(base, i, hops, m) && AllAttached(base, hops)
    ==> Below(ClaimOf(net.bridges[i]), Claim(base.bridges[m].bridgeId, WalkCost(base, hops)))
  }

  ghost predicate Exact(base: Net, net: Net, m: int)
    requires 0 <= m < |base.bridges|
  {
    forall i, hops {:trigger AsGood(base, net, m, i, hops)} :: 0 <= i < |net.bridges| ==> AsGood(base, net, m, i, hops)
  }

  lemma RoundsMakeExact(base: Net, net: Net, rounds: seq<seq<Move>>, m: int)
    requires Honest(base, net) && Shared(net) && ProperRounds(base, net, rounds)
    requires 0 <= m < |base.bridges| <= |rounds| + 1
    ensures Exact(base, AfterRounds(net, rounds), m)
  {
    var n := AfterRounds(net, rounds);
    RoundsKeep(base, net, rounds);
    assert |n.bridges| == |base.bridges|;
    hide Honest, Shared, Improved;
    forall i, hops | 0 <= i < |n.bridges| ensures AsGood(base, n, m, i, hops) {
      if Walk(base, i, hops, m) && AllAttached(base, hops) {
        var short := ShortWalk(base, i, hops, m);
        ClaimsApproach(base, net, rounds, i, short, m);
      }
    }
  }

  /** Honest bridges with exact claims, in a connected network. */
  ghost predicate Final(base: Net, net: Net, m: int) {
    Honest(base, net) && Smallest(base, m) && Connected(base) && Exact(base, net, m)
  }

  /** An exact claim names the smallest id, and a walk of exactly its cost. */
  lemma ExactClaim(base: Net, net: Net, m: int, i: int) returns (hops: seq<Hop>)
    requires Final(base, net, m) && 0 <= i < |net.bridges|
    ensures Walk(base, i, hops, m) && AllAttached(base, hops)
    ensures ClaimOf(net.bridges[i]) == Claim(base.bridges[m].bridgeId, WalkCost(base, hops))
  {
    assert Good(base, net, i);
    var k;
    hops, k :| Grounds(base, i, ClaimOf(net.bridges[i]), hops, k);
    assert Linked(base, i, m);
    var other :| Walk(base, i, other, m);
    WalkIsAttached(base, i, other, m);
    assert AsGood(base, net, m, i, other);
    assert SameFrame(base.bridges[m], net.bridges[m]) && SameFrame(base.bridges[k], net.bridges[k]);
    assert k == m;
    assert AsGood(base, net, m, i, hops);
  }

  lemma ExactStays(base: Net, net: Net, n: Net, m: int)
    requires 0 <= m < |base.bridges| && Exact(base, net, m) && Improved(net, n)
    ensures Exact(base, n, m)
  {
    forall i, hops | 0 <= i < |n.bridges| ensures AsGood(base, n, m, i, hops) {
      assert AsGood(base, net, m, i, hops) && BridgeImproved(net, n, i);
    }
  }

  lemma ClaimsStay(base: Net, net: Net, n: Net, m: int, i: int)
    requires Final(base, net, m) && Honest(base, n) && Improved(net, n) && 0 <= i < |net.bridges|
    ensures ClaimOf(n.bridges[i]) == ClaimOf(net.bridges[i])
  {
    ExactStays(base, net, n, m);
    var p := ExactClaim(base, net, m, i);
    var q := ExactClaim(base, n, m, i);
    assert AsGood(base, net, m, i, q) && AsGood(base, n, m, i, p);
  }

  // ----- the least vector of a segment

  function OwnAt(net: Net, x: Place): Vector
    requires Attached(net, x)
  {
    Own(net.bridges[x.bridge], PortAt(net, x))
  }

  predicate OnSegment(net: Net, s: int, x: Place) { Attached(net, x) && net.segment(x) == s }

  ghost predicate Least(net: Net, s: int, z: Place) {
    && OnSegment(net, s, z)
    && forall x {:trigger OnSegment(net, s, x)} :: OnSegment(net, s, x) ==> !Less(OwnAt(net, x), OwnAt(net, z))
  }

  lemma {:induction false} LeastOf(net: Net, places: set<Place>) returns (z: Place)
    requires places != {} && forall x :: x in places ==> Attached(net, x)
    ensures z in places && forall x :: x in places ==> !Less(OwnAt(net, x), OwnAt(net, z))
    decreases |places|
  {
    var x :| x in places;
    var rest := places - {x};
    if rest == {} {
      z := x;
    } else {
      z := LeastOf(net, rest);
      if Less(OwnAt(net, x), OwnAt(net, z)) {
        z := x;
      }
    }
    assert forall y :: y in places ==> y == x || y in rest;
  }

  lemma LeastExists(net: Net, y: Place) returns (z: Place)
    requires Attached(net, y)
    ensures Least(net, net.segment(y), z)
  {
    var s := net.segment(y);
    var places := set b: int, p: int | 0 <= b < |net.bridges| && 0 <= p < MAX_PORTS && OnSegment(net, s, Place(b, p))
                  :: Place(b, p);
    assert forall x :: OnSegment(net, s, x) ==> x == Place(x.bridge, x.port) && x in places;
    z := LeastOf(net, places);
  }

  /** No record of the segment is better than its least vector. */
  lemma RecordsAboveLeast(base: Net, net: Net, s: int, z: Place, y: Place)
    requires Honest(base, net) && Least(net, s, z) && OnSegment(net, s, y)
    ensures Record(net, y) == OwnAt(net, z) || Less(OwnAt(net, z), Record(net, y))
  {
    assert Truthful(base, net, y);
    var x :| CameFrom(base, net, x, Record(net, y)) && net.segment(x) == net.segment(y);
    assert OnSegment(net, s, x);
  }

  lemma LeastLeads(base: Net, net: Net, s: int, z: Place)
    requires Honest(base, net) && Least(net, s, z)
    ensures Leads(net, z) && Record(net, z) == OwnAt(net, z)
  {
    RecordsAboveLeast(base, net, s, z, z);
    assert Good(base, net, z.bridge);
    OwnRecord(net.bridges[z.bridge], z.port);
  }

  /** Vectors of different ports differ. */
  lemma OwnsDiffer(base: Net, net: Net, x: Place, y: Place)
    requires Honest(base, net) && Attached(net, x) && Attached(net, y) && x != y
    ensures OwnAt(net, x).bridge != OwnAt(net, y).bridge || OwnAt(net, x).port != OwnAt(net, y).port
  {
    assert Good(base, net, x.bridge) && Good(base, net, y.bridge);
    if x.bridge == y.bridge {
      assert PortAt(net, x).portId % 256 == x.port + 1;
      assert PortAt(net, y).portId % 256 == y.port + 1;
    }
  }

  lemma FinalStays(base: Net, net: Net, n: Net, m: int)
    requires Final(base, net, m) && Honest(base, n) && Improved(net, n)
    ensures Final(base, n, m)
    ensures forall x :: Attached(net, x) ==> Attached(n, x) && OwnAt(n, x) == OwnAt(net, x)
  {
    ExactStays(base, net, n, m);
    forall x | Attached(net, x) ensures Attached(n, x) && OwnAt(n, x) == OwnAt(net, x) {
      SameNetAttached(net, n, x);
      ClaimsStay(base, net, n, m, x.bridge);
      assert SameFrame(net.bridges[x.bridge], n.bridges[x.bridge]);
    }
  }

  lemma LeastStays(base: Net, net: Net, n: Net, m: int, s: int, z: Place)
    requires Final(base, net, m) && Honest(base, n) && Improved(net, n) && Least(net, s, z)
    ensures Least(n, s, z) && OwnAt(n, z) == OwnAt(net, z)
  {
    FinalStays(base, net, n, m);
    forall x | OnSegment(n, s, x) ensures !Less(OwnAt(n, x), OwnAt(n, z)) {
      SameNetAttached(net, n, x);
      assert OnSegment(net, s, x);
    }
  }

  // ----- the last round

  /** With exact claims a delivery changes the record of one port at most. */
  lemma FinalDelivery(base: Net, net: Net, m: int, x: Place, y: Place, config: Config)
    requires Final(base, net, m) && OnTheWay(base, net, x, y, config)
    ensures var d := Deliver(net, y, config);
            && Honest(base, d) && Improved(net, d)
            && forall a :: Attached(net, a) ==> Attached(d, a) && (a != y ==> Record(d, a) == Record(net, a))
  {
    var d := Deliver(net, y, config);
    var b, c := net.bridges[y.bridge], d.bridges[y.bridge];
    DeliverHeard(base, net, x, y, config);
    HeardImproves(net, y, c, config.vector);
    HeardIsHonest(base, net, x, y, c, config.vector);
    ClaimsStay(base, net, d, m, y.bridge);
    assert Good(base, net, x.bridge) && Good(base, net, y.bridge);
    NeighboursAreForeign(net, x, y, config.vector);
    HearsBetter(b, y.port, config);
    hide Honest, Heard, ReceivedConfig, Final, OnTheWay, Rewritten;
    forall a | Attached(net, a) ensures Attached(d, a) && (a != y ==> Record(d, a) == Record(net, a)) {
      assert PlaceImproved(net, d, a);
    }
  }

  /** The least vector of the segment is recorded where it is delivered. */
  lemma LeastIsRecorded(base: Net, net: Net, m: int, z: Place, y: Place, config: Config)
    requires Final(base, net, m) && OnTheWay(base, net, z, y, config)
    requires Least(net, net.segment(z), z) && config.vector == OwnAt(net, z)
    ensures var d := Deliver(net, y, config); Attached(d, y) && Record(d, y) == config.vector
  {
    var d, s := Deliver(net, y, config), net.segment(z);
    FinalDelivery(base, net, m, z, y, config);
    ClaimsStay(base, net, d, m, y.bridge);
    assert OnSegment(net, s, y);
    RecordsAboveLeast(base, net, s, z, y);
    OwnsDiffer(base, net, z, y);
    var p := ExactClaim(base, net, m, z.bridge);
    var q := ExactClaim(base, net, m, y.bridge);
    assert Good(base, net, z.bridge) && Good(base, net, y.bridge);
    NeighboursAreForeign(net, z, y, config.vector);
    hide Final, Honest, Sound, Least, OnTheWay;
    HearsBetter(net.bridges[y.bridge], y.port, config);
  }

  /** With exact claims a hello changes the records of its receivers at most; the hello of
      the least port becomes the record of all of them. */
  lemma {:induction false} FinalSpread(base: Net, net: Net, m: int, x: Place, ys: seq<Place>, config: Config)
    requires Final(base, net, m) && CameFrom(base, net, x, config.vector) && config.messageAge < config.maxAge
    requires forall y :: y in ys ==> Neighbours(net, x, y)
    ensures var n := Spread(net, ys, config);
            && (forall a :: Attached(net, a) ==> Attached(n, a) && (a !in ys ==> Record(n, a) == Record(net, a)))
            && (Least(net, net.segment(x), x) && config.vector == OwnAt(net, x)
                ==> forall y :: y in ys ==> Attached(n, y) && Record(n, y) == config.vector)
    decreases |ys|
  {
    hide Final, Least, CameFrom, Honest, Improved;
    if ys != [] {
      var y, d := ys[0], Deliver(net, ys[0], config);
      FinalDelivery(base, net, m, x, y, config);
      FinalStays(base, net, d, m);
      CameStays(base, net, d, x, config.vector);
      if Least(net, net.segment(x), x) && config.vector == OwnAt(net, x) {
        LeastIsRecorded(base, net, m, x, y, config);
        LeastStays(base, net, d, m, net.segment(x), x);
      }
      assert d.segment == net.segment;
      hide Deliver;
      forall z | z in ys[1..] ensures Neighbours(d, x, z) {
        assert Neighbours(net, x, z);
      }
      FinalSpread(base, d, m, x, ys[1..], config);
      assert forall a :: a in ys <==> a == y || a in ys[1..];
    }
  }

  ghost predicate Calmed(net: Net, s: int, v: Vector) {
    forall y {:trigger OnSegment(net, s, y)} :: OnSegment(net, s, y) ==> Record(net, y) == v
  }

  lemma TurnCalms(base: Net, net: Net, m: int, s: int, z: Place, ys: seq<Place>)
    requires Final(base, net, m) && Shared(net) && Least(net, s, z) && Proper(net, Send(z, ys))
    ensures Calmed(Apply(net, Send(z, ys)), s, OwnAt(net, z))
  {
    var n := Apply(net, Send(z, ys));
    LeastLeads(base, net, s, z);
    HelloIsSent(base, net, z);
    FinalSpread(base, net, m, z, ys, Hello(net, z));
    ApplyKeeps(base, net, Send(z, ys));
    hide Final, Shared, Least, Honest, CameFrom, Hello, Apply;
    forall y | OnSegment(n, s, y) ensures Record(n, y) == OwnAt(net, z) {
      SameNetAttached(net, n, y);
      assert y == z || Neighbours(net, z, y);
    }
  }

  lemma MoveKeepsCalm(base: Net, net: Net, m: int, s: int, z: Place, move: Move)
    requires Final(base, net, m) && Shared(net) && Least(net, s, z) && Proper(net, move)
    requires Calmed(net, s, OwnAt(net, z))
    ensures Calmed(Apply(net, move), s, OwnAt(net, z))
  {
    if move.Quiet? {
      QuietImproves(net, move.at, Step(net.bridges[move.at], move.event));
      var n := Apply(net, move);
      forall y | OnSegment(n, s, y) ensures Record(n, y) == OwnAt(net, z) {
        SameNetAttached(net, n, y);
        assert OnSegment(net, s, y);
      }
    } else if Leads(net, move.from) {
      if net.segment(move.from) == s {
        assert OnSegment(net, s, move.from);
        OnlyLeastLeads(base, net, s, z, move.from);
        TurnCalms(base, net, m, s, z, move.to);
      } else {
        ElsewhereKeepsCalm(base, net, m, s, z, move.from, move.to);
      }
    }
  }

  lemma OnlyLeastLeads(base: Net, net: Net, s: int, z: Place, x: Place)
    requires Honest(base, net) && OnSegment(net, s, x) && OnSegment(net, s, z) && Leads(net, x)
    requires Record(net, x) == OwnAt(net, z)
    ensures x == z
  {
    if x != z {
      OwnsDiffer(base, net, x, z);
    }
  }

  lemma ElsewhereKeepsCalm(base: Net, net: Net, m: int, s: int, z: Place, x: Place, ys: seq<Place>)
    requires Final(base, net, m) && Shared(net) && Least(net, s, z) && Calmed(net, s, OwnAt(net, z))
    requires Leads(net, x) && net.segment(x) != s && Proper(net, Send(x, ys))
    ensures Calmed(Apply(net, Send(x, ys)), s, OwnAt(net, z))
  {
    var n := Apply(net, Send(x, ys));
    HelloIsSent(base, net, x);
    FinalSpread(base, net, m, x, ys, Hello(net, x));
    ApplyKeeps(base, net, Send(x, ys));
    forall y | OnSegment(n, s, y) ensures Record(n, y) == OwnAt(net, z) {
      SameNetAttached(net, n, y);
      assert OnSegment(net, s, y) && y !in ys;
    }
  }

  lemma {:induction false} CalmStays(base: Net, net: Net, m: int, s: int, z: Place, moves: seq<Move>)
    requires Final(base, net, m) && Shared(net) && Least(net, s, z) && ProperMoves(net, moves)
    requires Calmed(net, s, OwnAt(net, z))
    ensures Calmed(After(net, moves), s, OwnAt(net, z))
    decreases |moves|
  {
    if moves != [] {
      var d := Apply(net, moves[0]);
      MoveKeepsCalm(base, net, m, s, z, moves[0]);
      ApplyKeeps(base, net, moves[0]);
      hide Shared, Calmed, Honest, Least, Apply, Proper;
      LeastStays(base, net, d, m, s, z);
      FinalStays(base, net, d, m);
      hide Final;
      CalmStays(base, d, m, s, z, moves[1..]);
    }
  }

  lemma {:induction false} RoundCalms(base: Net, net: Net, m: int, s: int, z: Place, moves: seq<Move>)
    requires Final(base, net, m) && Shared(net) && Least(net, s, z) && ProperMoves(net, moves) && HasTurn(moves, z)
    ensures Calmed(After(net, moves), s, OwnAt(net, z))
    decreases |moves|
  {
    var move, rest := moves[0], moves[1..];
    var d := Apply(net, move);
    ApplyKeeps(base, net, move);
    hide Shared, Calmed, Honest, Least, Apply, Proper;
    LeastStays(base, net, d, m, s, z);
    FinalStays(base, net, d, m);
    hide Final;
    if move.Send? && move.from == z {
      TurnCalms(base, net, m, s, z, move.to);
      CalmStays(base, d, m, s, z, rest);
    } else {
      var k :| 0 <= k < |moves| && moves[k].Send? && moves[k].from == z;
      assert rest[k - 1] == moves[k];
      RoundCalms(base, d, m, s, z, rest);
    }
  }

  // ----- convergence

  /** A port with the least vector of the segment. */
  ghost function Pick(net: Net, s: int): Place {
    if exists z :: Least(net, s, z) then var z :| Least(net, s, z); z else Place(0, 0)
  }

  /** The network with the ports of least vectors taken for designated. */
  ghost function Led(net: Net, leader: Net): Net { net.(designated := s => Pick(leader, s)) }

  lemma CalmIsStable(base: Net, net: Net, n: Net, m: int)
    requires Final(base, net, m) && Honest(base, n) && Improved(net, n)
    requires forall s, z {:trigger Least(net, s, z)} :: Least(net, s, z) ==> Calmed(n, s, OwnAt(net, z))
    ensures Stable(Led(n, net)) && LoopFree(Led(n, net))
  {
    var led := Led(n, net);
    FinalStays(base, net, n, m);
    hide Final;
    forall i | 0 <= i < |led.bridges| ensures Settled(led.bridges[i]) && Costly(led.bridges[i]) {
      assert Good(base, n, i);
    }
    forall x | Attached(led, x) ensures PortAt(led, x).pathCost > 0 && Informed(led, x) {
      SameNetAttached(net, n, x);
      var s := net.segment(x);
      var z := LeastExists(net, x);
      var d := Pick(net, s);
      assert Least(net, s, d);
      assert Calmed(n, s, OwnAt(net, d)) && OnSegment(n, s, x);
      assert Costly(led.bridges[x.bridge]);
    }
    LedIsLoopFree(base, n, led);
  }

  lemma LedIsLoopFree(base: Net, net: Net, led: Net)
    requires Honest(base, net) && led.bridges == net.bridges && Stable(led)
    ensures LoopFree(led)
  {
    forall i | 0 <= i < |led.bridges| ensures Inv(led.bridges[i]) {
      assert Good(base, net, i);
    }
    hide Stable, Honest;
    StableIsLoopFree(led);
  }

  /** From honest bridges: after as many rounds as there are bridges, or more, the network
      is stable and no frame loops. */
  lemma RoundsConverge(base: Net, net: Net, rounds: seq<seq<Move>>, m: int)
    requires Honest(base, net) && Shared(net) && ProperRounds(base, net, rounds)
    requires Connected(base) && Smallest(base, m) && |rounds| >= |base.bridges|
    ensures var led := Led(AfterRounds(net, rounds), AfterRounds(net, rounds[..|rounds| - 1]));
            Stable(led) && LoopFree(led) && Final(base, AfterRounds(net, rounds), m)
  {
    var front, last := rounds[..|rounds| - 1], rounds[|rounds| - 1];
    var d, n := AfterRounds(net, front), AfterRounds(net, rounds);
    RoundsKeep(base, net, front);
    RoundsMakeExact(base, net, front, m);
    MovesKeep(base, d, last);
    assert Final(base, d, m);
    FinalStays(base, d, n, m);
    hide Shared, Honest, Improved, Least, Calmed;
    forall s, z | Least(d, s, z) ensures Calmed(n, s, OwnAt(d, z)) {
      LeastHasTurn(base, d, s, z, last);
      hide Final;
      RoundCalms(base, d, m, s, z, last);
    }
    CalmIsStable(base, d, n, m);
  }

  lemma LeastHasTurn(base: Net, net: Net, s: int, z: Place, moves: seq<Move>)
    requires Honest(base, net) && Least(net, s, z) && Complete(base, moves)
    ensures HasTurn(moves, z)
  {
    SameNetAttached(base, net, z);
  }

  // ----- from bridges that know nothing

  /** A bridge that knows of no other bridge. */
  predicate Unaware(b: Bridge) {
    && Sound(b) && Inv(b) && b.rootPort == -1
    && forall j: PortNo :: Enabled(b.ports[j]) ==> IsDesignated(b, b.ports[j])
  }

  lemma UnawareIsHonest(net: Net)
    requires Distinct(net) && forall i :: 0 <= i < |net.bridges| ==> Unaware(net.bridges[i])
    ensures Honest(net, net) && Shared(net)
  {
    forall i | 0 <= i < |net.bridges| ensures Good(net, net, i) {
      SettledClaim(net.bridges[i]);
      GroundHere(net, i);
    }
    forall y | Attached(net, y) ensures Truthful(net, net, y) && Leads(net, y) {
      OwnRecord(net.bridges[y.bridge], y.port);
      assert Good(net, net, y.bridge);
      assert CameFrom(net, net, y, Record(net, y));
    }
    forall x, y | Neighbours(net, x, y) ensures SharedBy(net, x, y) {
      assert Truthful(net, net, x);
    }
  }

  /** The claim names bridge `m` and the cost of the shortest walk from `i` to it. */
  ghost predicate Shortest(net: Net, m: int, i: int, k: Claim)
    requires 0 <= m < |net.bridges|
  {
    && k.root == net.bridges[m].bridgeId
    && (exists hops :: Leading(net, i, m, hops) && WalkCost(net, hops) == k.cost)
    && (forall hops :: Leading(net, i, m, hops) ==> k.cost <= WalkCost(net, hops))
  }

  /** The network is stable and free of loops, and all bridges agree on `m` for root, each
      at the cost of its shortest walk to it. */
  ghost predicate Arrived(base: Net, net: Net, leader: Net, m: int)
    requires 0 <= m < |base.bridges|
  {
    && Stable(Led(net, leader)) && LoopFree(Led(net, leader)) && |net.bridges| == |base.bridges|
    && forall i {:trigger Shortest(base, m, i, ClaimOf(net.bridges[i]))} :: 0 <= i < |net.bridges|
                ==> Shortest(base, m, i, ClaimOf(net.bridges[i]))
  }

  /** A connected network of bridges that know nothing of each other arrives after as many
      rounds of hellos as there are bridges, in any order and with anything quiet between. */
  lemma UnawareNetworkConverges(net: Net, rounds: seq<seq<Move>>, m: int)
    requires Distinct(net) && Connected(net) && Smallest(net, m)
    requires forall i :: 0 <= i < |net.bridges| ==> Unaware(net.bridges[i])
    requires ProperRounds(net, net, rounds) && |rounds| >= |net.bridges|
    ensures Arrived(net, AfterRounds(net, rounds), AfterRounds(net, rounds[..|rounds| - 1]), m)
  {
    UnawareIsHonest(net);
    RoundsConverge(net, net, rounds, m);
    var n := AfterRounds(net, rounds);
    assert |n.bridges| == |net.bridges|;
    hide Stable, LoopFree;
    forall i | 0 <= i < |n.bridges| ensures Shortest(net, m, i, ClaimOf(n.bridges[i])) {
      var hops := ExactClaim(net, n, m, i);
      assert Leading(net, i, m, hops) && WalkCost(net, hops) == n.bridges[i].rootPathCost;
      forall other | Leading(net, i, m, other) ensures n.bridges[i].rootPathCost <= WalkCost(net, other) {
        assert AsGood(net, n, m, i, other);
      }
    }
  }

  // ----- where such bridges come from

  /** Switching ports on and setting their costs. */
  predicate Setup(e: Event) { e.Enable? || e.Speed? || (e.PathCost? && e.cost > 0) }

  lemma EnableIsUnaware(b: Bridge, i: PortNo)
    requires Unaware(b) && Sound(EnablePort(b, i)) && Inv(EnablePort(b, i))
    ensures Unaware(EnablePort(b, i))
  {
    var c := InitializePort(b, i, Blocking);
    SelectionSameVectors(c, 0);
    hide Sound, Inv;
  }

  lemma CostIsUnaware(b: Bridge, i: PortNo, cost: nat)
    requires Unaware(b) && Sound(SetPathCost(b, i, cost)) && Inv(SetPathCost(b, i, cost))
    ensures Unaware(SetPathCost(b, i, cost))
  {
    var c := SetPort(b, i, b.ports[i].(pathCost := cost));
    ReselectSelects(c, -1);
    hide Sound, Inv, Reselect;
  }

  lemma SetupKeeps(b: Bridge, e: Event)
    requires Unaware(b) && Setup(e)
    ensures Unaware(Step(b, e))
  {
    StepSound(b, e);
    StepKeeps(b, e);
    hide Unaware, Inv, Sound;
    if e.Enable? {
      EnableIsUnaware(b, e.i);
    } else {
      CostIsUnaware(b, e.i, if e.PathCost? then e.cost else SpeedCost(e.speed));
    }
  }

  lemma {:induction false} SetupIsUnaware(id: nat, events: seq<Event>)
    requires forall k :: 0 <= k < |events| ==> Setup(events[k])
    ensures Unaware(Run(Create(id), events))
  {
    if events == [] {
      CreateSound(id);
      CreateEstablishes(id);
    } else {
      hide Unaware;
      var front := events[..|events| - 1];
      SetupIsUnaware(id, front);
      SetupKeeps(Run(Create(id), front), events[|events| - 1]);
    }
  }

  /** A tick of at least both maximum ages. */
  predicate LongTick(b: Bridge, e: Event) {
    e.Ticks? && e.elapsed > 0 && e.elapsed >= b.times.maxAge && e.elapsed >= b.times.bridgeMaxAge
  }

  /** A bridge forgets everything in a long tick, whatever it has seen before. */
  lemma AgedIsUnaware(id: nat, events: seq<Event>, e: Event)
    requires Orderly(Create(id), events) && LongTick(Run(Create(id), events), e)
    ensures Unaware(Run(Create(id), events + [e]))
  {
    var all := events + [e];
    assert all[..|events|] == events;
    RunSettled(id, all);
    StaleInformationAgesOut(id, events, e.elapsed);
    SettledMeans(Run(Create(id), all));
    hide Step, Create, Orderly;
  }

  /** A new bridge with some ports set up, or one whose last call was a long tick. */
  predicate KnowsNothing(o: Origin) {
    || (forall k :: 0 <= k < |o.events| ==> Setup(o.events[k]))
    || (o.events != [] && var front := o.events[..|o.events| - 1];
        Orderly(Create(o.id), front) && LongTick(Run(Create(o.id), front), o.events[|o.events| - 1]))
  }

  /** Any connected network of bridges that are new, or have run as they like and then aged
      out what they knew, arrives. */
  lemma NewNetworkConverges(net: Net, origins: seq<Origin>, rounds: seq<seq<Move>>, m: int)
    requires Distinct(net) && Connected(net) && Smallest(net, m) && |origins| == |net.bridges|
    requires forall i {:trigger Grown(origins[i])} :: 0 <= i < |origins|
               ==> KnowsNothing(origins[i]) && net.bridges[i] == Grown(origins[i])
    requires ProperRounds(net, net, rounds) && |rounds| >= |net.bridges|
    ensures Arrived(net, AfterRounds(net, rounds), AfterRounds(net, rounds[..|rounds| - 1]), m)
  {
    forall i | 0 <= i < |net.bridges| ensures Unaware(net.bridges[i]) {
      assert net.bridges[i] == Grown(origins[i]);
      OriginIsUnaware(origins[i]);
    }
    hide Unaware, Arrived;
    UnawareNetworkConverges(net, rounds, m);
  }

  lemma OriginIsUnaware(o: Origin)
    requires KnowsNothing(o)
    ensures Unaware(Grown(o))
  {
    if forall k :: 0 <= k < |o.events| ==> Setup(o.events[k]) {
      SetupIsUnaware(o.id, o.events);
    } else {
      var front, e := o.events[..|o.events| - 1], o.events[|o.events| - 1];
      assert front + [e] == o.events;
      AgedIsUnaware(o.id, front, e);
    }
  }
}
