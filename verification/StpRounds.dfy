/** Rounds of hellos: claims approach the shortest distances. */
module StpRounds {
  import opened StpModel
  import opened StpInvariants
  import opened StpRuns
  import opened StpNetwork
  import opened StpSettling
  import opened StpHearing
  import opened StpBroadcast

  // In a round every port has its turn to send at least once, in any order and with
  // anything quiet in between.  After k rounds the claim of a bridge is as good as every
  // walk of at most k hops.

  // ----- one move

  lemma BelowTransitive(a: Claim, b: Claim, c: Claim)
    requires Below(a, b) && Below(b, c)
    ensures Below(a, c)
  {
  }

  lemma HelloIsSent(base: Net, net: Net, x: Place)
    requires Honest(base, net) && Leads(net, x)
    ensures CameFrom(base, net, x, Hello(net, x).vector) && Hello(net, x).vector == Record(net, x)
    ensures Said(Hello(net, x).vector) == ClaimOf(net.bridges[x.bridge])
  {
    assert Good(base, net, x.bridge);
    OwnRecord(net.bridges[x.bridge], x.port);
  }

  /** After the turn of `x` every neighbour has heard something as good as its claim. */
  ghost predicate HasReached(net: Net, n: Net, x: Place) {
    Attached(net, x) ==>
      forall y {:trigger Neighbours(net, x, y)} :: Neighbours(net, x, y)
        ==> Attached(n, y) && Below(Said(Record(n, y)), ClaimOf(net.bridges[x.bridge]))
  }

  lemma SendKeeps(base: Net, net: Net, x: Place, ys: seq<Place>)
    requires Honest(base, net) && Shared(net) && Leads(net, x) && Proper(net, Send(x, ys))
    ensures var n := Apply(net, Send(x, ys)); Honest(base, n) && Improved(net, n) && Shared(n) && HasReached(net, n, x)
  {
    var config, n := Hello(net, x), Apply(net, Send(x, ys));
    HelloIsSent(base, net, x);
    SpreadKeeps(base, net, x, ys, config);
    hide Honest, CameFrom, Hello, Spread;
    forall a, b | Neighbours(n, a, b) ensures SharedBy(n, a, b) {
      SendShares(net, n, x, ys, config.vector, a, b);
    }
  }

  lemma SendShares(net: Net, n: Net, x: Place, ys: seq<Place>, v: Vector, a: Place, b: Place)
    requires Shared(net) && Improved(net, n) && Rewritten(net, n, net.segment(x), v) && Reached(n, ys, v)
    requires Attached(net, x) && Record(net, x) == v && (forall y :: y in ys <==> Neighbours(net, x, y))
    requires Neighbours(n, a, b)
    ensures SharedBy(n, a, b)
  {
    NeighboursStay(net, n, a, b);
    assert SharedBy(net, a, b) && PlaceRewritten(net, n, net.segment(x), v, a);
    assert PlaceImproved(net, n, b) && PlaceImproved(net, n, x);
    if Record(n, a) == Record(net, a) {
      LeadsByRecord(net, n, a);
    } else if !Leads(n, a) {
      assert b == x || Neighbours(net, x, b);
    }
  }

  /** A port that is not designated has nothing to say that its neighbours have not heard. */
  lemma SilenceReaches(base: Net, net: Net, x: Place)
    requires Honest(base, net) && Shared(net) && Attached(net, x) && !Leads(net, x)
    ensures HasReached(net, net, x)
  {
    assert Good(base, net, x.bridge);
    OwnRecord(net.bridges[x.bridge], x.port);
    forall y | Neighbours(net, x, y) ensures Below(Said(Record(net, y)), ClaimOf(net.bridges[x.bridge])) {
      assert SharedBy(net, x, y);
    }
  }

  lemma QuietImproves(net: Net, i: int, c: Bridge)
    requires 0 <= i < |net.bridges| && SameVectors(net.bridges[i], c)
    ensures var n := Updated(net, i, c);
            && Improved(net, n)
            && forall y :: Attached(net, y) ==> Attached(n, y) && Record(n, y) == Record(net, y)
  {
    var n := Updated(net, i, c);
    forall y | Attached(net, y) ensures PlaceImproved(net, n, y) && Record(n, y) == Record(net, y) {
    }
  }

  lemma QuietIsHonest(base: Net, net: Net, i: int, c: Bridge)
    requires Honest(base, net) && 0 <= i < |net.bridges| && SameVectors(net.bridges[i], c) && Inv(c)
    ensures Honest(base, Updated(net, i, c))
  {
    var n := Updated(net, i, c);
    QuietImproves(net, i, c);
    forall j | 0 <= j < |net.bridges| ensures SameFrame(base.bridges[j], n.bridges[j]) && Good(base, n, j) {
      assert SameFrame(base.bridges[j], net.bridges[j]) && Good(base, net, j);
      if j == i {
        SameVectorsSound(net.bridges[i], c);
      }
    }
    hide Sound, Ground, Inv;
    forall y | Attached(n, y) ensures Truthful(base, n, y) {
      SameNetAttached(net, n, y);
      assert Truthful(base, net, y);
      TruthStays(base, net, n, y);
    }
  }

  lemma QuietKeeps(base: Net, net: Net, i: int, c: Bridge)
    requires Honest(base, net) && Shared(net) && 0 <= i < |net.bridges| && SameVectors(net.bridges[i], c) && Inv(c)
    ensures var n := Updated(net, i, c); Honest(base, n) && Improved(net, n) && Shared(n)
  {
    var n := Updated(net, i, c);
    QuietIsHonest(base, net, i, c);
    QuietImproves(net, i, c);
    hide Honest, SameVectors;
    forall x, y | Neighbours(n, x, y) ensures SharedBy(n, x, y) {
      NeighboursStay(net, n, x, y);
      assert SharedBy(net, x, y);
      LeadsByRecord(net, n, x);
    }
  }

  lemma ApplyKeeps(base: Net, net: Net, m: Move)
    requires Honest(base, net) && Shared(net) && Proper(net, m)
    ensures var n := Apply(net, m);
            Honest(base, n) && Improved(net, n) && Shared(n) && (m.Send? ==> HasReached(net, n, m.from))
  {
    if m.Quiet? {
      var b := net.bridges[m.at];
      assert Good(base, net, m.at);
      StepKeeps(b, m.event);
      hide Step;
      QuietKeeps(base, net, m.at, Step(b, m.event));
    } else if Leads(net, m.from) {
      SendKeeps(base, net, m.from, m.to);
    } else {
      SilenceReaches(base, net, m.from);
      ImprovedReflexive(net);
    }
  }

  // ----- sequences of moves

  function After(net: Net, moves: seq<Move>): Net
    decreases |moves|
  {
    if moves == [] then net else After(Apply(net, moves[0]), moves[1..])
  }

  ghost predicate ProperMoves(net: Net, moves: seq<Move>)
    decreases |moves|
  {
    moves != [] ==> Proper(net, moves[0]) && ProperMoves(Apply(net, moves[0]), moves[1..])
  }

  lemma {:induction false} MovesKeep(base: Net, net: Net, moves: seq<Move>)
    requires Honest(base, net) && Shared(net) && ProperMoves(net, moves)
    ensures var n := After(net, moves); Honest(base, n) && Improved(net, n) && Shared(n)
    decreases |moves|
  {
    hide Honest, Improved, Shared, Proper, Apply;
    if moves == [] {
      ImprovedReflexive(net);
    } else {
      var d := Apply(net, moves[0]);
      ApplyKeeps(base, net, moves[0]);
      MovesKeep(base, d, moves[1..]);
      ImprovedTransitive(net, d, After(net, moves));
    }
  }

  predicate HasTurn(moves: seq<Move>, x: Place) { exists k :: 0 <= k < |moves| && moves[k].Send? && moves[k].from == x }

  /** Whatever else happens, a turn of `x` reaches its neighbours. */
  lemma {:induction false} TurnReaches(base: Net, net: Net, moves: seq<Move>, x: Place, y: Place)
    requires Honest(base, net) && Shared(net) && ProperMoves(net, moves)
    requires HasTurn(moves, x) && Neighbours(net, x, y)
    ensures var n := After(net, moves);
            Attached(n, y) && Below(Said(Record(n, y)), ClaimOf(net.bridges[x.bridge]))
    decreases |moves|
  {
    var m, rest := moves[0], moves[1..];
    var d, n := Apply(net, m), After(net, moves);
    ApplyKeeps(base, net, m);
    MovesKeep(base, d, rest);
    hide Honest, Apply, Proper, Shared;
    NeighboursStay(net, d, x, y);
    assert PlaceImproved(d, n, y) && BridgeImproved(net, d, x.bridge);
    if m.Send? && m.from == x {
      BelowTransitive(Said(Record(n, y)), Said(Record(d, y)), ClaimOf(net.bridges[x.bridge]));
    } else {
      var k :| 0 <= k < |moves| && moves[k].Send? && moves[k].from == x;
      assert rest[k - 1] == moves[k];
      TurnReaches(base, d, rest, x, y);
      BelowTransitive(Said(Record(n, y)), ClaimOf(d.bridges[x.bridge]), ClaimOf(net.bridges[x.bridge]));
    }
  }

  // ----- rounds

  ghost predicate Complete(base: Net, moves: seq<Move>) {
    forall x {:trigger HasTurn(moves, x)} :: Attached(base, x) ==> HasTurn(moves, x)
  }

  function AfterRounds(net: Net, rounds: seq<seq<Move>>): Net {
    if rounds == [] then net else After(AfterRounds(net, rounds[..|rounds| - 1]), rounds[|rounds| - 1])
  }

  ghost predicate ProperRounds(base: Net, net: Net, rounds: seq<seq<Move>>) {
    rounds != [] ==>
      var front, last := rounds[..|rounds| - 1], rounds[|rounds| - 1];
      ProperRounds(base, net, front) && ProperMoves(AfterRounds(net, front), last) && Complete(base, last)
  }

  lemma {:induction false} RoundsKeep(base: Net, net: Net, rounds: seq<seq<Move>>)
    requires Honest(base, net) && Shared(net) && ProperRounds(base, net, rounds)
    ensures var n := AfterRounds(net, rounds); Honest(base, n) && Improved(net, n) && Shared(n)
  {
    hide Honest, Improved, Shared;
    if rounds == [] {
      ImprovedReflexive(net);
    } else {
      var front := rounds[..|rounds| - 1];
      RoundsKeep(base, net, front);
      MovesKeep(base, AfterRounds(net, front), rounds[|rounds| - 1]);
      ImprovedTransitive(net, AfterRounds(net, front), AfterRounds(net, rounds));
    }
  }

  /** A round carries every claim over one hop. */
  lemma RoundCrossesHop(base: Net, net: Net, moves: seq<Move>, h: Hop)
    requires Honest(base, net) && Shared(net) && ProperMoves(net, moves) && Complete(base, moves)
    requires Attached(base, h.out) && Attached(base, h.into) && base.segment(h.out) == base.segment(h.into)
    ensures |After(net, moves).bridges| == |net.bridges|
    ensures var n := After(net, moves);
            Below(ClaimOf(n.bridges[h.out.bridge]),
                  Further(ClaimOf(net.bridges[h.into.bridge]), PortAt(base, h.out).pathCost))
  {
    var n, y, x := After(net, moves), h.out, h.into;
    MovesKeep(base, net, moves);
    assert HasTurn(moves, x);
    SameNetAttached(base, net, x);
    SameNetAttached(base, net, y);
    SameNetAttached(base, n, y);
    if x == y {
      assert BridgeImproved(net, n, y.bridge);
    } else {
      TurnReaches(base, net, moves, x, y);
      assert Good(base, n, y.bridge);
      PortBoundsClaim(n.bridges[y.bridge], y.port, ClaimOf(net.bridges[x.bridge]));
    }
  }

  /** After k rounds a claim is as good as any walk of at most k hops to any bridge. */
  lemma {:induction false} ClaimsApproach(base: Net, net: Net, rounds: seq<seq<Move>>, i: int, hops: seq<Hop>, m: int)
    requires Honest(base, net) && Shared(net) && ProperRounds(base, net, rounds)
    requires 0 <= i < |base.bridges| && 0 <= m < |base.bridges| && Walk(base, i, hops, m) && |hops| <= |rounds|
    requires forall h :: h in hops ==> Attached(base, h.out)
    ensures |AfterRounds(net, rounds).bridges| == |base.bridges|
    ensures Below(ClaimOf(AfterRounds(net, rounds).bridges[i]), Claim(base.bridges[m].bridgeId, WalkCost(base, hops)))
    decreases |rounds|
  {
    RoundsKeep(base, net, rounds);
    var n := AfterRounds(net, rounds);
    if hops == [] {
      assert Good(base, n, i) && SameFrame(base.bridges[i], n.bridges[i]);
      SettledClaim(n.bridges[i]);
    } else {
      var front, last := rounds[..|rounds| - 1], rounds[|rounds| - 1];
      var d := AfterRounds(net, front);
      RoundsKeep(base, net, front);
      hide Honest, Shared, Improved;
      ClaimsApproach(base, net, front, hops[0].into.bridge, hops[1..], m);
      RoundCrossesHop(base, d, last, hops[0]);
    }
  }
}
