/** What the bridges of `lib/stp.c` agree on once settled. */
module StpNetwork {
  // A network is stable when no bridge would change anything by reselecting and
  // every port has recorded what the designated port of its segment now transmits.
  // In a stable network the root is the smallest bridge id, path costs are the
  // true shortest distances, and frames cannot loop.

  import opened StpModel
  import opened StpSelection
  import opened StpInvariants
  import opened StpRuns

  /** One port of one bridge of the network. */
  datatype Place = Place(bridge: int, port: int)

  /** `segment` says which LAN segment a port is attached to; `designated` names
      the port that transmits configuration BPDUs on a segment. */
  datatype Net = Net(bridges: seq<Bridge>, segment: Place -> int, designated: int -> Place)

  predicate Attached(net: Net, x: Place) {
    && 0 <= x.bridge < |net.bridges| && 0 <= x.port < MAX_PORTS
    && Enabled(net.bridges[x.bridge].ports[x.port])
  }

  function PortAt(net: Net, x: Place): Port
    requires Attached(net, x)
  {
    net.bridges[x.bridge].ports[x.port]
  }

  predicate Settled(b: Bridge) { Numbered(b) && ConfigurationUpdate(b) == b }

  /** The recorded vector at `x` is what the designated port of the segment sends. */
  predicate Informed(net: Net, x: Place)
    requires Attached(net, x)
  {
    var d := net.designated(net.segment(x));
    && Attached(net, d) && net.segment(d) == net.segment(x)
    && PortAt(net, x).designated == Own(net.bridges[d.bridge], PortAt(net, d))
  }

  ghost predicate Stable(net: Net) {
    && (forall i, j :: 0 <= i < j < |net.bridges| ==> net.bridges[i].bridgeId != net.bridges[j].bridgeId)
    && (forall i {:trigger Settled(net.bridges[i])} :: 0 <= i < |net.bridges| ==> Settled(net.bridges[i]))
    && (forall x {:trigger Informed(net, x)} :: Attached(net, x) ==> PortAt(net, x).pathCost > 0 && Informed(net, x))
  }

  // ----- one settled bridge

  /** Settledness spelled out: the root port is the best candidate, and every
      port that should be designated already is. */
  predicate SettledFacts(b: Bridge) {
    && Best(b, b.rootPort, MAX_PORTS) && b == WithRoot(b, b.rootPort)
    && forall j: PortNo :: b.ports[j] == DesignatedTarget(b, b.ports[j])
  }

  lemma SettledMeans(b: Bridge)
    requires Numbered(b)
    ensures ConfigurationUpdate(b) == b <==> SettledFacts(b)
  {
    UpdateEffect(b);
    var c := ConfigurationUpdate(b);
    if SettledFacts(b) {
      RootSelectionIsUniqueMinimum(b, b.rootPort);
      assert c.ports == b.ports;
    }
  }

  lemma SettledCost(b: Bridge, p: PortNo)
    requires Settled(b) && Enabled(b.ports[p])
    ensures Dominated(b) && b.root <= b.bridgeId
    ensures b.rootPort == -1 <==> b.root == b.bridgeId
    ensures b.rootPort == -1 ==> b.rootPathCost == 0
    ensures b.rootPort != -1 ==>
              var r := b.ports[b.rootPort];
              Enabled(r) && !IsDesignated(b, r) && r.designated.root == b.root
              && b.rootPathCost == r.designated.cost + r.pathCost
    ensures IsDesignated(b, b.ports[p]) ==> b.ports[p].designated == Own(b, b.ports[p])
    ensures !IsDesignated(b, b.ports[p]) ==>
              b.rootPathCost <= b.ports[p].designated.cost + b.ports[p].pathCost
  {
    SettledMeans(b);
    UpdateDominates(b);
    assert DominatedPort(b, b.ports[p]);
    assert Candidate(b, b.ports[p]) && p != b.rootPort && b.rootPort != -1
           ==> SupersedesRoot(b.ports[p], b.ports[b.rootPort]);
  }

  // ----- one segment

  /** The designated port of the segment `x` is attached to. */
  function Des(net: Net, x: Place): Place { net.designated(net.segment(x)) }

  /** A port that believes it is designated is the segment's designated port. */
  lemma DesignatedIsUnique(net: Net, x: Place)
    requires Stable(net) && Attached(net, x)
    ensures Attached(net, Des(net, x))
    ensures IsDesignated(net.bridges[x.bridge], PortAt(net, x)) <==> x == Des(net, x)
  {
    var d := Des(net, x);
    assert Informed(net, x);
    assert Settled(net.bridges[x.bridge]) && Settled(net.bridges[d.bridge]);
    if IsDesignated(net.bridges[x.bridge], PortAt(net, x)) {
      assert PortAt(net, x).portId % 256 == x.port + 1;
      assert PortAt(net, d).portId % 256 == d.port + 1;
    }
  }

  /** All bridges on a segment believe in the same root, and the designated one
      is at least as close to it as any other. */
  lemma SegmentAgrees(net: Net, x: Place)
    requires Stable(net) && Attached(net, x)
    ensures Attached(net, Des(net, x))
    ensures var b := net.bridges[x.bridge];
            var c := net.bridges[Des(net, x).bridge];
            && b.root == c.root && c.rootPathCost <= b.rootPathCost
            && PortAt(net, x).designated.cost == c.rootPathCost
  {
    assert Informed(net, x);
    assert Settled(net.bridges[x.bridge]);
    SettledCost(net.bridges[x.bridge], x.port);
    assert DominatedPort(net.bridges[x.bridge], PortAt(net, x));
  }

  predicate HasRootPort(net: Net, i: int) {
    0 <= i < |net.bridges| && net.bridges[i].rootPort != -1
  }

  function RootPlace(net: Net, i: int): Place
    requires HasRootPort(net, i)
  {
    Place(i, net.bridges[i].rootPort)
  }

  /** Following a root port leads to a bridge with the same root that is closer
      to it by exactly the cost of the port. */
  lemma RootPortDescends(net: Net, i: int)
    requires Stable(net) && HasRootPort(net, i)
    ensures var x := RootPlace(net, i);
            && Attached(net, x) && Attached(net, Des(net, x)) && x != Des(net, x)
            && net.bridges[Des(net, x).bridge].root == net.bridges[i].root
            && net.bridges[i].rootPathCost
               == net.bridges[Des(net, x).bridge].rootPathCost + PortAt(net, x).pathCost
            && net.bridges[Des(net, x).bridge].rootPathCost < net.bridges[i].rootPathCost
  {
    var x := RootPlace(net, i);
    var b := net.bridges[i];
    assert Settled(b);
    SettledMeans(b);
    SettledCost(b, b.rootPort);
    SegmentAgrees(net, x);
    DesignatedIsUnique(net, x);
    assert Informed(net, x);
  }

  // ----- walks through the network

  /** Leave a bridge through `out` and enter the next one through `into`. */
  datatype Hop = Hop(out: Place, into: Place)

  predicate Walk(net: Net, i: int, hops: seq<Hop>, k: int)
    decreases |hops|
  {
    if hops == [] then i == k
    else
      && Attached(net, hops[0].out) && hops[0].out.bridge == i
      && Attached(net, hops[0].into) && net.segment(hops[0].into) == net.segment(hops[0].out)
      && Walk(net, hops[0].into.bridge, hops[1..], k)
  }

  function WalkCost(net: Net, hops: seq<Hop>): nat
    requires forall h :: h in hops ==> Attached(net, h.out)
  {
    if hops == [] then 0 else PortAt(net, hops[0].out).pathCost + WalkCost(net, hops[1..])
  }

  lemma {:induction false} WalkIsAttached(net: Net, i: int, hops: seq<Hop>, k: int)
    requires Walk(net, i, hops, k)
    ensures forall h :: h in hops ==> Attached(net, h.out)
    decreases |hops|
  {
    if hops != [] {
      WalkIsAttached(net, hops[0].into.bridge, hops[1..], k);
      assert forall h :: h in hops ==> h == hops[0] || h in hops[1..];
    }
  }

  ghost predicate Linked(net: Net, i: int, k: int) { exists hops :: Walk(net, i, hops, k) }

  ghost predicate Connected(net: Net) {
    forall i, k :: 0 <= i < |net.bridges| && 0 <= k < |net.bridges| ==> Linked(net, i, k)
  }

  lemma {:induction false} WalkAgrees(net: Net, i: int, hops: seq<Hop>, k: int)
    requires Stable(net) && Walk(net, i, hops, k) && 0 <= i < |net.bridges|
    ensures 0 <= k < |net.bridges| && net.bridges[i].root == net.bridges[k].root
    decreases |hops|
  {
    if hops != [] {
      SegmentAgrees(net, hops[0].out);
      SegmentAgrees(net, hops[0].into);
      WalkAgrees(net, hops[0].into.bridge, hops[1..], k);
    }
  }

  /** The path of root ports from bridge `i`: it ends, and ends at the bridge that
      `i` takes for the root, at total cost `rootPathCost`. */
  lemma {:induction false} RootPathReachesRoot(net: Net, i: int) returns (hops: seq<Hop>, k: int)
    requires Stable(net) && 0 <= i < |net.bridges|
    ensures Walk(net, i, hops, k) && 0 <= k < |net.bridges|
    ensures net.bridges[k].bridgeId == net.bridges[i].root && net.bridges[k].rootPort == -1
    ensures forall h :: h in hops ==> Attached(net, h.out)
    ensures WalkCost(net, hops) == net.bridges[i].rootPathCost
    ensures forall h :: h in hops ==> && h.out.port == net.bridges[h.out.bridge].rootPort
                                      && h.into == Des(net, h.out)
    decreases net.bridges[i].rootPathCost
  {
    if net.bridges[i].rootPort == -1 {
      hops, k := [], i;
      assert Settled(net.bridges[i]);
      SettledMeans(net.bridges[i]);
    } else {
      RootPortDescends(net, i);
      var x := RootPlace(net, i);
      var d := Des(net, x);
      var rest;
      rest, k := RootPathReachesRoot(net, d.bridge);
      assert Informed(net, x);
      hops := [Hop(x, d)] + rest;
      assert hops[1..] == rest;
    }
  }

  /** On a connected stable network every bridge takes the smallest id for the root. */
  lemma RootIsSmallestId(net: Net, i: int, k: int)
    requires Stable(net) && Connected(net)
    requires 0 <= i < |net.bridges| && 0 <= k < |net.bridges|
    ensures net.bridges[i].root <= net.bridges[k].bridgeId
    ensures exists m :: 0 <= m < |net.bridges| && net.bridges[i].root == net.bridges[m].bridgeId
  {
    assert Linked(net, i, k);
    var hops :| Walk(net, i, hops, k);
    WalkAgrees(net, i, hops, k);
    assert Settled(net.bridges[k]);
    SettledMeans(net.bridges[k]);
    var rest, m := RootPathReachesRoot(net, i);
  }

  lemma HopIsNoShortcut(net: Net, h: Hop)
    requires Stable(net) && Attached(net, h.out) && Attached(net, h.into)
    requires net.segment(h.out) == net.segment(h.into)
    ensures net.bridges[h.out.bridge].rootPathCost
            <= PortAt(net, h.out).pathCost + net.bridges[h.into.bridge].rootPathCost
  {
    SegmentAgrees(net, h.out);
    SegmentAgrees(net, h.into);
    assert Settled(net.bridges[h.out.bridge]);
    SettledCost(net.bridges[h.out.bridge], h.out.port);
  }

  /** No walk to a root is shorter than `rootPathCost`. */
  lemma {:induction false} NoShorterWalk(net: Net, i: int, hops: seq<Hop>, k: int)
    requires Stable(net) && Walk(net, i, hops, k) && 0 <= i < |net.bridges|
    requires 0 <= k < |net.bridges| && net.bridges[k].rootPort == -1
    requires forall h :: h in hops ==> Attached(net, h.out)
    ensures net.bridges[i].rootPathCost <= WalkCost(net, hops)
    decreases |hops|
  {
    if hops == [] {
      assert Settled(net.bridges[i]);
      SettledMeans(net.bridges[i]);
    } else {
      HopIsNoShortcut(net, hops[0]);
      NoShorterWalk(net, hops[0].into.bridge, hops[1..], k);
    }
  }

  // ----- frames cannot loop

  /** A port that may carry traffic: the root port or a designated port.  By the
      loop guard, every other enabled port is blocking. */
  predicate Active(net: Net, x: Place) {
    && Attached(net, x)
    && (x.port == net.bridges[x.bridge].rootPort || IsDesignated(net.bridges[x.bridge], PortAt(net, x)))
  }

  lemma UnblockedIsActive(net: Net, x: Place)
    requires Attached(net, x) && Inv(net.bridges[x.bridge]) && !PortAt(net, x).state.Blocking?
    ensures Active(net, x)
  {
  }

  /** A bridge relaying a frame from one port to another. */
  datatype Relay = Relay(bridge: int, inPort: int, outPort: int)

  function In(r: Relay): Place { Place(r.bridge, r.inPort) }

  function Out(r: Relay): Place { Place(r.bridge, r.outPort) }

  predicate Relays(net: Net, r: Relay) {
    r.inPort != r.outPort && Active(net, In(r)) && Active(net, Out(r))
  }

  /** The way of a frame: each bridge takes it from a segment and puts it on
      another port; the next bridge picks it up from that segment. */
  ghost predicate FramePath(net: Net, s: seq<Relay>) {
    && (forall t {:trigger Relays(net, s[t])} :: 0 <= t < |s| ==> Relays(net, s[t]))
    && (forall t {:trigger PassesOn(net, s, t)} :: 0 <= t < |s| - 1 ==> PassesOn(net, s, t))
  }

  predicate PassesOn(net: Net, s: seq<Relay>, t: int)
    requires 0 <= t < |s| - 1
  {
    Crosses(net, s[t], s[t + 1])
  }

  predicate Crosses(net: Net, r: Relay, q: Relay) {
    net.segment(Out(r)) == net.segment(In(q)) && Out(r) != In(q)
  }

  function CostOf(net: Net, r: Relay): nat
    requires Relays(net, r)
  {
    net.bridges[r.bridge].rootPathCost
  }

  /** The relay sends the frame away from the root. */
  predicate Down(net: Net, r: Relay) { Out(r) == Des(net, Out(r)) }

  /** A frame arriving through a designated port has just gone up, one arriving
      through a root port goes down; either way the cost changes. */
  lemma RelayStep(net: Net, r: Relay, q: Relay)
    requires Stable(net) && Relays(net, r) && Relays(net, q) && Crosses(net, r, q)
    ensures Down(net, r) ==> Down(net, q) && CostOf(net, r) < CostOf(net, q)
    ensures !Down(net, q) ==> !Down(net, r) && CostOf(net, q) < CostOf(net, r)
  {
    DesignatedIsUnique(net, Out(r));
    DesignatedIsUnique(net, In(q));
    DesignatedIsUnique(net, Out(q));
    if In(q) == Des(net, In(q)) {
      assert RootPlace(net, r.bridge) == Out(r);
      RootPortDescends(net, r.bridge);
    } else {
      assert RootPlace(net, q.bridge) == In(q);
      RootPortDescends(net, q.bridge);
    }
  }

  lemma {:induction false} DownStaysDown(net: Net, s: seq<Relay>, a: nat, b: nat)
    requires Stable(net) && FramePath(net, s) && a <= b < |s| && Down(net, s[a])
    ensures Down(net, s[b]) && CostOf(net, s[a]) <= CostOf(net, s[b])
    ensures a < b ==> CostOf(net, s[a]) < CostOf(net, s[b])
    decreases b - a
  {
    if a < b {
      assert PassesOn(net, s, a);
      RelayStep(net, s[a], s[a + 1]);
      DownStaysDown(net, s, a + 1, b);
    }
  }

  lemma {:induction false} UpWasUp(net: Net, s: seq<Relay>, a: nat, b: nat)
    requires Stable(net) && FramePath(net, s) && a <= b < |s| && !Down(net, s[b])
    ensures !Down(net, s[a]) && CostOf(net, s[b]) <= CostOf(net, s[a])
    ensures a < b ==> CostOf(net, s[b]) < CostOf(net, s[a])
    decreases b - a
  {
    if a < b {
      assert PassesOn(net, s, b - 1);
      RelayStep(net, s[b - 1], s[b]);
      UpWasUp(net, s, a, b - 1);
    }
  }

  /** In a stable network a frame never passes the same bridge twice. */
  lemma {:induction false} NoForwardingLoop(net: Net, s: seq<Relay>, a: nat, b: nat)
    requires Stable(net) && FramePath(net, s) && a < b < |s|
    ensures s[a].bridge != s[b].bridge
    decreases b - a
  {
    if s[a].bridge == s[b].bridge {
      if Down(net, s[a]) {
        DownStaysDown(net, s, a, b);
      } else if In(s[b]) == Des(net, In(s[b])) {
        assert PassesOn(net, s, b - 1);
        ArrivesByDesignated(net, s[b - 1], s[b]);
        UpWasUp(net, s, a, b - 1);
      } else {
        SameRootPort(net, s[a], s[b]);
        NoReturnThroughRootPort(net, s, a, b);
      }
      assert false;
    }
  }

  lemma ArrivesByDesignated(net: Net, r: Relay, q: Relay)
    requires Stable(net) && Relays(net, r) && Relays(net, q) && Crosses(net, r, q)
    requires In(q) == Des(net, In(q))
    ensures !Down(net, r) && CostOf(net, q) < CostOf(net, r)
  {
    DesignatedIsUnique(net, Out(r));
    assert RootPlace(net, r.bridge) == Out(r);
    RootPortDescends(net, r.bridge);
  }

  lemma SameRootPort(net: Net, r: Relay, q: Relay)
    requires Stable(net) && Relays(net, r) && Relays(net, q) && r.bridge == q.bridge
    requires !Down(net, r) && In(q) != Des(net, In(q))
    ensures HasRootPort(net, r.bridge) && Out(r) == In(q) == RootPlace(net, r.bridge)
  {
    DesignatedIsUnique(net, Out(r));
    DesignatedIsUnique(net, In(q));
  }

  /** A frame that left a bridge by its root port does not come back through it:
      it would have to turn around in the segment above, which takes a smaller loop. */
  lemma NoReturnThroughRootPort(net: Net, s: seq<Relay>, a: nat, b: nat)
    requires Stable(net) && FramePath(net, s) && a < b < |s| && HasRootPort(net, s[a].bridge)
    ensures Out(s[a]) == RootPlace(net, s[a].bridge) ==> In(s[b]) != Out(s[a])
    decreases b - a, 0
  {
    if Out(s[a]) == In(s[b]) == RootPlace(net, s[a].bridge) {
      assert PassesOn(net, s, a) && PassesOn(net, s, b - 1);
      assert Relays(net, s[a + 1]) && Relays(net, s[b - 1]);
      var d := Des(net, Out(s[a]));
      DesignatedIsUnique(net, In(s[a + 1]));
      DesignatedIsUnique(net, Out(s[b - 1]));
      if In(s[a + 1]) != d {
        assert RootPlace(net, s[a + 1].bridge) == In(s[a + 1]);
        RootPortDescends(net, s[a + 1].bridge);
        DesignatedIsUnique(net, Out(s[a + 1]));
        DownStaysDown(net, s, a + 1, b - 1);
      } else if Out(s[b - 1]) != d {
        assert RootPlace(net, s[b - 1].bridge) == Out(s[b - 1]);
        RootPortDescends(net, s[b - 1].bridge);
        UpWasUp(net, s, a + 1, b - 1);
      } else if a + 1 < b - 1 {
        NoForwardingLoop(net, s, a + 1, b - 1);
      }
      assert false;
    }
  }

  // ----- hellos keep a stable network stable

  predicate SameVectors(b: Bridge, c: Bridge) {
    && SameTree(b, c)
    && forall j: PortNo ::
         && b.ports[j].portId == c.ports[j].portId && b.ports[j].pathCost == c.ports[j].pathCost
         && b.ports[j].designated == c.ports[j].designated
         && (Enabled(b.ports[j]) <==> Enabled(c.ports[j]))
  }

  lemma SettledTransfers(b: Bridge, c: Bridge)
    requires Settled(b) && SameVectors(b, c)
    ensures Settled(c)
  {
    SettledMeans(b);
    SettledMeans(c);
    assert Best(c, c.rootPort, MAX_PORTS);
    forall j: PortNo ensures c.ports[j] == DesignatedTarget(c, c.ports[j]) {
      assert b.ports[j] == DesignatedTarget(b, b.ports[j]);
    }
  }

  lemma SelectionSameVectors(b: Bridge, p: PortNo)
    ensures SameVectors(b, StateSelection(b, 0))
    ensures Enabled(b.ports[p]) && !IsDesignated(b, b.ports[p])
            ==> StateSelection(b, 0).ports[p].messageAge == b.ports[p].messageAge
  {
    StateSelectionPointwise(b, 0);
    var c := StateSelection(b, 0);
    assert forall j: PortNo :: SamePort(StateTarget(b, j), c.ports[j]);
  }

  lemma SameCoreVectors(b: Bridge, c: Bridge, p: PortNo)
    requires SameCore(b, c)
    ensures SameVectors(b, c) && c.ports[p].messageAge == b.ports[p].messageAge
  {
    assert forall j: PortNo :: SamePort(b.ports[j], c.ports[j]);
  }

  /** Hearing the recorded vector again restarts its timer and changes nothing else. */
  lemma RepeatedBpdu(b: Bridge, p: PortNo, config: Config)
    requires Settled(b) && Enabled(b.ports[p]) && config.messageAge < config.maxAge
    requires config.vector == b.ports[p].designated && !IsDesignated(b, b.ports[p])
    ensures Accepted(b, p, config) && SameVectors(b, ReceivedConfig(b, p, config))
    ensures ReceivedConfig(b, p, config).ports[p].messageAge == Start(config.messageAge)
  {
    var r := RecordConfig(b, p, config);
    assert SameVectors(b, r);
    SettledTransfers(b, r);
    assert Reselect(r) == StateSelection(r, 0);
    SelectionSameVectors(r, p);
    AcceptedCore(b, p, config);
    SameCoreVectors(Reselect(r), ReceivedConfig(b, p, config), p);
  }

  function Updated(net: Net, i: int, b: Bridge): Net
    requires 0 <= i < |net.bridges|
  {
    net.(bridges := net.bridges[i := b])
  }

  /** A hello sent by the designated port of a segment is accepted by every other
      port on it and leaves the network stable. */
  lemma HelloKeepsStable(net: Net, x: Place)
    requires Stable(net) && Attached(net, x) && x != Des(net, x)
    ensures Attached(net, Des(net, x))
    ensures var d := Des(net, x);
            var config := ConfigFor(net.bridges[d.bridge], PortAt(net, d));
            config.messageAge < config.maxAge ==>
              && Accepted(net.bridges[x.bridge], x.port, config)
              && Stable(Updated(net, x.bridge, ReceivedConfig(net.bridges[x.bridge], x.port, config)))
  {
    DesignatedIsUnique(net, x);
    assert Informed(net, x);
    var d := Des(net, x);
    var b := net.bridges[x.bridge];
    var config := ConfigFor(net.bridges[d.bridge], PortAt(net, d));
    if config.messageAge < config.maxAge {
      assert Settled(b);
      RepeatedBpdu(b, x.port, config);
      SettledTransfers(b, ReceivedConfig(b, x.port, config));
      ReplaceKeepsStable(net, x.bridge, ReceivedConfig(b, x.port, config));
    }
  }

  lemma ReplaceKeepsStable(net: Net, i: int, c: Bridge)
    requires Stable(net) && 0 <= i < |net.bridges| && SameVectors(net.bridges[i], c) && Settled(c)
    ensures Stable(Updated(net, i, c))
  {
    var n := Updated(net, i, c);
    forall x | Attached(n, x) ensures PortAt(n, x).pathCost > 0 && Informed(n, x) {
      assert Attached(net, x) && Informed(net, x);
      var d := Des(net, x);
      assert Attached(n, d);
    }
  }

  // ----- two bridges reach a stable network

  predicate PositiveCosts(b: Bridge) {
    forall i: PortNo :: Enabled(b.ports[i]) ==> b.ports[i].pathCost > 0
  }

  /** After an accepted BPDU a bridge has nothing left to reselect. */
  lemma AcceptedBpduSettles(b: Bridge, i: PortNo, config: Config)
    requires Numbered(b) && PositiveCosts(b) && Accepted(b, i, config)
    ensures Settled(ReceivedConfig(b, i, config))
  {
    var r := RecordConfig(b, i, config);
    PositiveCostsNotSelfDefeating(r);
    UpdateTwice(r);
    UpdateEffect(r);
    var u := ConfigurationUpdate(r);
    SelectionSameVectors(u, i);
    SettledTransfers(u, Reselect(r));
    AcceptedCore(b, i, config);
    SameCoreVectors(Reselect(r), ReceivedConfig(b, i, config), i);
    SettledTransfers(Reselect(r), ReceivedConfig(b, i, config));
  }

  /** Only port 0 is enabled, and the bridge knows no other bridge. */
  predicate Alone(b: Bridge, id: nat) {
    && Inv(b) && Dominated(b) && b.bridgeId == b.root == id && b.rootPathCost == 0
    && Enabled(b.ports[0]) && b.ports[0].pathCost > 0 && IsDesignated(b, b.ports[0])
    && b.times.maxAge > 0
    && forall j: PortNo :: j != 0 ==> !Enabled(b.ports[j])
  }

  lemma EnableOne(id: nat)
    ensures Alone(EnablePort(Create(id), 0), DefaultId(id))
  {
    var a := Create(id);
    CreateEstablishes(id);
    EnablePortKeeps(a, 0);
    var c := InitializePort(a, 0, Blocking);
    StateSelectionPointwise(c, 0);
    var d := StateSelection(c, 0);
    assert SamePort(StateTarget(c, 0), d.ports[0]);
    SelectionCalm(c);
  }

  lemma AloneIsSettled(b: Bridge, id: nat)
    requires Alone(b, id)
    ensures Settled(b)
  {
    assert Best(b, -1, MAX_PORTS);
    forall j: PortNo ensures b.ports[j] == DesignatedTarget(b, b.ports[j]) {
      assert DominatedPort(b, b.ports[j]);
    }
    SettledMeans(b);
  }

  /** The second bridge hears the first one's hello and adopts its root. */
  lemma HearsHello(a: Bridge, b: Bridge, x: nat, y: nat)
    requires Alone(a, x) && Alone(b, y) && x < y
    ensures var config := ConfigFor(a, a.ports[0]);
            var c := ReceivedConfig(b, 0, config);
            && Accepted(b, 0, config) && Settled(c) && c.bridgeId == y && c.root == x
            && c.ports[0].designated == Own(a, a.ports[0])
            && forall j: PortNo :: && (Enabled(c.ports[j]) <==> j == 0)
                                   && c.ports[j].pathCost == b.ports[j].pathCost
  {
    var config := ConfigFor(a, a.ports[0]);
    assert DominatedPort(b, b.ports[0]);
    AcceptedBpduSettles(b, 0, config);
    var r := RecordConfig(b, 0, config);
    assert Best(r, 0, MAX_PORTS);
    RootSelectionIsUniqueMinimum(r, 0);
    UpdateEffect(r);
    SelectionSameVectors(ConfigurationUpdate(r), 0);
    AcceptedCore(b, 0, config);
    SameCoreVectors(Reselect(r), ReceivedConfig(b, 0, config), 0);
  }

  /** Two bridges whose first ports share a segment, the first one designated. */
  function Pair(a: Bridge, c: Bridge): Net {
    Net([a, c], (z: Place) => 0, (s: int) => Place(0, 0))
  }

  lemma PairIsStable(a: Bridge, c: Bridge, x: nat)
    requires Alone(a, x) && Settled(a) && Settled(c) && a.bridgeId != c.bridgeId
    requires c.ports[0].designated == Own(a, a.ports[0]) && c.ports[0].pathCost > 0
    requires forall j: PortNo :: Enabled(c.ports[j]) <==> j == 0
    ensures Stable(Pair(a, c)) && Connected(Pair(a, c))
  {
    var net := Pair(a, c);
    assert DominatedPort(a, a.ports[0]);
    assert Attached(net, Place(0, 0)) && Attached(net, Place(1, 0));
    forall z | Attached(net, z) ensures PortAt(net, z).pathCost > 0 && Informed(net, z) {
      assert z == Place(0, 0) || z == Place(1, 0);
    }
    PairIsConnected(a, c);
  }

  lemma PairIsConnected(a: Bridge, c: Bridge)
    requires Enabled(a.ports[0]) && Enabled(c.ports[0])
    ensures Connected(Pair(a, c))
  {
    var net := Pair(a, c);
    assert Attached(net, Place(0, 0)) && Attached(net, Place(1, 0));
    forall i, k | 0 <= i < 2 && 0 <= k < 2 ensures Linked(net, i, k) {
      if i == k {
        assert Walk(net, i, [], k);
      } else {
        OneHop(net, Hop(Place(i, 0), Place(k, 0)));
      }
    }
  }

  /** Two fresh bridges on one segment: after a single hello from the one with the
      smaller id the network is stable and connected. */
  lemma TwoBridgesConverge(x: nat, y: nat)
    requires DefaultId(x) < DefaultId(y)
    ensures var a := Step(Create(x), Enable(0));
            var c := Step(Step(Create(y), Enable(0)), Bpdu(0, ConfigFor(a, a.ports[0])));
            Stable(Pair(a, c)) && Connected(Pair(a, c)) && a.root == c.root == DefaultId(x)
  {
    var a := Step(Create(x), Enable(0));
    var b := Step(Create(y), Enable(0));
    EnableOne(x);
    EnableOne(y);
    AloneIsSettled(a, DefaultId(x));
    HearsHello(a, b, DefaultId(x), DefaultId(y));
    PairIsStable(a, Step(b, Bpdu(0, ConfigFor(a, a.ports[0]))), DefaultId(x));
  }

  lemma OneHop(net: Net, h: Hop)
    requires Attached(net, h.out) && Attached(net, h.into) && net.segment(h.out) == net.segment(h.into)
    ensures Linked(net, h.out.bridge, h.into.bridge)
  {
    assert Walk(net, h.into.bridge, [h][1..], h.into.bridge);
    assert Walk(net, h.out.bridge, [h], h.into.bridge);
  }
}
