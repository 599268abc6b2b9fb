/** The orders that selection follows, and what management calls set. */
module StpManagement {
  import opened StpModel
  import opened StpSelection
  import opened StpInvariants
  import opened StpRuns
  import opened StpNetwork
  import opened StpSettling
  import opened StpDelay
  import StpTimes

  // ----- orders

  /** Lexicographic order. */
  predicate LexLess(s: seq<nat>, t: seq<nat>)
    requires |s| == |t|
  {
    s != [] && (s[0] < t[0] || (s[0] == t[0] && LexLess(s[1..], t[1..])))
  }

  lemma LexCons(x: nat, s: seq<nat>, y: nat, t: seq<nat>)
    requires |s| == |t|
    ensures LexLess([x] + s, [y] + t) <==> x < y || (x == y && LexLess(s, t))
  {
    assert ([x] + s)[1..] == s && ([y] + t)[1..] == t;
  }

  lemma LexTwo(x: nat, y: nat, u: nat, v: nat)
    ensures LexLess([x, y], [u, v]) <==> x < u || (x == u && y < v)
  {
    assert [x, y] == [x] + [y] && [u, v] == [u] + [v];
    assert [y] == [y] + [] && [v] == [v] + [];
    LexCons(y, [], v, []);
    LexCons(x, [y], u, [v]);
  }

  lemma LexThree(x: nat, y: nat, z: nat, u: nat, v: nat, w: nat)
    ensures LexLess([x, y, z], [u, v, w]) <==> x < u || (x == u && (y < v || (y == v && z < w)))
  {
    assert [x, y, z] == [x] + [y, z] && [u, v, w] == [u] + [v, w];
    LexTwo(y, z, v, w);
    LexCons(x, [y, z], u, [v, w]);
  }

  function VectorKey(v: Vector): seq<nat> { [v.root, v.cost, v.bridge, v.port] }

  /** What a candidate offers: the root, the cost through the port, the sender, its port,
      and the port of this bridge. */
  function OfferKey(p: Port): seq<nat> {
    [p.designated.root, p.designated.cost + p.pathCost, p.designated.bridge, p.designated.port, p.portId]
  }

  lemma VectorsAreLexicographic(v: Vector, w: Vector)
    ensures Less(v, w) <==> LexLess(VectorKey(v), VectorKey(w))
  {
    assert VectorKey(v) == [v.root] + [v.cost, v.bridge, v.port];
    assert VectorKey(w) == [w.root] + [w.cost, w.bridge, w.port];
    LexThree(v.cost, v.bridge, v.port, w.cost, w.bridge, w.port);
    LexCons(v.root, [v.cost, v.bridge, v.port], w.root, [w.cost, w.bridge, w.port]);
  }

  lemma OffersAreLexicographic(p: Port, q: Port)
    ensures SupersedesRoot(p, q) <==> LexLess(OfferKey(q), OfferKey(p))
  {
    var s := [q.designated.bridge, q.designated.port, q.portId];
    var t := [p.designated.bridge, p.designated.port, p.portId];
    var (x, y) := (q.designated.cost + q.pathCost, p.designated.cost + p.pathCost);
    LexThree(s[0], s[1], s[2], t[0], t[1], t[2]);
    LexCons(x, s, y, t);
    LexCons(q.designated.root, [x] + s, p.designated.root, [y] + t);
    assert OfferKey(q) == [q.designated.root] + ([x] + s) && OfferKey(p) == [p.designated.root] + ([y] + t);
  }

  /** The root port offers less than every other candidate. */
  lemma RootPortOffersLeast(b: Bridge, r: PortNo, j: PortNo)
    requires Sound(b) && r == b.rootPort && j != r && Candidate(b, b.ports[j])
    ensures Candidate(b, b.ports[r]) && LexLess(OfferKey(b.ports[r]), OfferKey(b.ports[j]))
  {
    SettledMeans(b);
    OffersAreLexicographic(b.ports[j], b.ports[r]);
  }

  /** A BPDU replaces a record if it says better, or says the same of the same bridge; from
      the bridge itself it must not name a larger port. */
  lemma BpduIsAccepted(b: Bridge, i: PortNo, config: Config)
    ensures var v, w := config.vector, b.ports[i].designated;
            Accepted(b, i, config) <==>
            && Enabled(b.ports[i]) && config.messageAge < config.maxAge
            && (|| LexLess([v.root, v.cost, v.bridge], [w.root, w.cost, w.bridge])
                || (v == w.(port := v.port) && (v.bridge != b.bridgeId || v.port <= w.port)))
  {
    var v, w := config.vector, b.ports[i].designated;
    LexThree(v.root, v.cost, v.bridge, w.root, w.cost, w.bridge);
  }

  // ----- ports

  lemma EnableTakesEffect(b: Bridge, i: PortNo)
    ensures var c := Step(b, Enable(i));
            if Enabled(b.ports[i]) then c == b
            else
              && c.ports[i].state.Listening? && c.ports[i].forwardDelay == Start(0) && IsDesignated(c, c.ports[i])
              && c.ports[i].designated == Own(b, b.ports[i]) && SameTree(b, c)
              && c.ports[i].changeDetection && !c.ports[i].messageAge.active
              && forall j: PortNo :: j != i ==> (Enabled(c.ports[j]) <==> Enabled(b.ports[j]))
  {
    if !Enabled(b.ports[i]) {
      var c := InitializePort(b, i, Blocking);
      assert SameTree(b, c) && c.ports[i].state.Blocking? && c.ports[i].designated == Own(b, b.ports[i]);
      assert c.ports[i].changeDetection && !c.ports[i].messageAge.active && IsDesignated(c, c.ports[i]);
      assert forall j: PortNo :: j != i ==> c.ports[j] == b.ports[j];
      hide InitializePort;
      StateSelectionPointwise(c, 0);
      hide StateSelection;
      var d := StateSelection(c, 0);
      assert SamePort(StateTarget(c, i), d.ports[i]);
      forall j: PortNo | j != i ensures Enabled(d.ports[j]) <==> Enabled(b.ports[j]) {
        assert SamePort(StateTarget(c, j), d.ports[j]);
      }
    }
  }

  lemma DisableTakesEffect(b: Bridge, i: PortNo)
    requires Inv(b)
    ensures var c := Step(b, Disable(i));
            && c.ports[i].state.Disabled? && c.rootPort != i
            && forall j: PortNo :: j != i ==> (Enabled(c.ports[j]) <==> Enabled(b.ports[j]))
  {
    if Enabled(b.ports[i]) {
      var d := Detach(b, i);
      assert forall j: PortNo :: j != i ==> d.ports[j] == b.ports[j];
      InstallPort(b, d, i);
      assert d.ports[i].state.Disabled?;
      hide Detach, ReselectAsRoot;
      ReselectAsRootRestores(d, IsRoot(b));
      DisabledStays(d, IsRoot(b), i);
    }
  }

  /** Everything but states, records and timers of the ports. */
  predicate SameSettings(p: Port, q: Port) {
    q.portId == p.portId && q.pathCost == p.pathCost && q.changeDetection == p.changeDetection
  }

  lemma SelectionSameSettings(b: Bridge, j: PortNo)
    ensures SameSettings(b.ports[j], StateSelection(b, 0).ports[j]) && StateSelection(b, 0).bridgeId == b.bridgeId
  {
    StateSelectionPointwise(b, 0);
    hide StateSelection;
    assert SamePort(StateTarget(b, j), StateSelection(b, 0).ports[j]);
  }

  lemma ReselectSameSettings(b: Bridge, wasRoot: bool, j: PortNo)
    ensures SameSettings(b.ports[j], Reselect(b).ports[j]) && Reselect(b).bridgeId == b.bridgeId
    ensures SameSettings(b.ports[j], ReselectAsRoot(b, wasRoot).ports[j])
    ensures ReselectAsRoot(b, wasRoot).bridgeId == b.bridgeId
  {
    var c := ConfigurationUpdate(b);
    DesignatedSelectionPointwise(RootSelection(b), 0);
    assert SameSettings(b.ports[j], c.ports[j]) && c.bridgeId == b.bridgeId;
    SelectionSameSettings(c, j);
    hide ConfigurationUpdate, StateSelection;
    var d := Reselect(b);
    BecomeRootFrame(d);
    assert SamePort(d.ports[j], BecomeRootBridge(d).ports[j]);
    hide BecomeRootBridge;
  }

  /** Costs, port ids and the id of the bridge are what was set last. */
  lemma CostTakesEffect(b: Bridge, i: PortNo, j: PortNo, cost: nat)
    ensures var c := Step(b, PathCost(i, cost));
            SameSettings(if i == j then b.ports[j].(pathCost := cost) else b.ports[j], c.ports[j])
  {
    ReselectSameSettings(SetPort(b, i, b.ports[i].(pathCost := cost)), false, j);
    hide Reselect;
  }

  lemma PriorityTakesEffect(b: Bridge, i: PortNo, j: PortNo, priority: nat)
    ensures var c := Step(b, Priority(i, priority));
            SameSettings(if i == j then b.ports[j].(portId := b.ports[j].portId % 256 + priority * 256) else b.ports[j],
                         c.ports[j])
  {
    SelectionSameSettings(BecomeDesignated(Reprioritized(b, i, priority), i), j);
    hide StateSelection;
  }

  lemma ChangeDetectionTakesEffect(b: Bridge, i: PortNo, j: PortNo, on: bool)
    ensures var c := Step(b, ChangeDetection(i, on));
            c == b.(ports := c.ports) && c.ports[j] == if i == j then b.ports[j].(changeDetection := on) else b.ports[j]
  {
  }

  lemma IdTakesEffect(b: Bridge, mac: nat, priority: nat)
    ensures var id := Step(b, BridgeMac(mac)).bridgeId;
            id / MAC_SPAN == b.bridgeId / MAC_SPAN && id % MAC_SPAN == mac % MAC_SPAN
    ensures var id := Step(b, BridgePriority(priority)).bridgeId;
            id / MAC_SPAN == priority && id % MAC_SPAN == b.bridgeId % MAC_SPAN
  {
    RenameTakesEffect(b, WithMac(b.bridgeId, mac));
    RenameTakesEffect(b, WithPriority(b.bridgeId, priority));
    hide SetBridgeId;
  }

  lemma RenameTakesEffect(b: Bridge, id: nat)
    ensures SetBridgeId(b, id).bridgeId == id
  {
    RenamePointwise(b, 0, id);
    ReselectSameSettings(RenameDesignated(b, 0, id).(bridgeId := id), IsRoot(b), 0);
    hide ReselectAsRoot;
  }

  /** The costs of IEEE 802.1D for the usual speeds, in Mb/s; faster is never dearer. */
  lemma SpeedCosts(x: nat, y: nat)
    ensures SpeedCost(4) == 250 && SpeedCost(10) == 100 && SpeedCost(16) == 62 && SpeedCost(100) == 19
    ensures SpeedCost(1000) == 4 && SpeedCost(10000) == 2
    ensures 4 <= x <= y ==> SpeedCost(x) >= SpeedCost(y)
  {
  }

  // ----- times

  /** `ticks` is the nearest value in range to `ms` milliseconds, in ticks. */
  predicate Nearest(ticks: nat, ms: int, lo: nat, hi: nat) {
    ticks == (if ms < lo then lo else if ms > hi then hi else ms) * 256 / 1000
  }

  /** Requested times are used as far as their ranges allow, and for the root at once. */
  lemma TimesTakeEffect(b: Bridge, ms: int)
    ensures var t := Step(b, HelloTime(ms)).times;
            Nearest(t.bridgeHelloTime, ms, 1000, 10000) && t.rqHelloTime == ms
    ensures var t := Step(b, MaxAge(ms)).times;
            && (b.times.rqHelloTime <= 2000 ==> Nearest(t.bridgeMaxAge, ms, 6000, 40000)) && t.rqMaxAge == ms
            && (b.times.rqHelloTime >= 2000 ==>
                  var ht := if b.times.rqHelloTime > 10000 then 10000 else b.times.rqHelloTime;
                  Nearest(t.bridgeMaxAge, ms, 2 * ht + 2000, 40000))
    ensures var t := Step(b, ForwardDelay(ms)).times;
            && t.rqForwardDelay == ms && t.bridgeMaxAge == StpTimes.MaxAgeMs(b.times) * 256 / 1000
            && Nearest(t.bridgeForwardDelay, ms, StpTimes.MaxAgeMs(b.times) / 2 + 1000, 30000)
    ensures forall e: Event :: (e.HelloTime? || e.MaxAge? || e.ForwardDelay?) && IsRoot(b) ==>
              var t := Step(b, e).times;
              t.helloTime == t.bridgeHelloTime && t.maxAge == t.bridgeMaxAge && t.forwardDelay == t.bridgeForwardDelay
  {
  }

  // ----- notifications

  /** A notification on a designated port is acted upon and acknowledged: in a BPDU that
      leaves at once, or in the next one on that port. */
  lemma TcnIsAcknowledged(b: Bridge, i: PortNo)
    requires Enabled(b.ports[i]) && IsDesignated(b, b.ports[i]) && (IsRoot(b) || b.rootPort != -1)
    ensures var c := Step(b, Tcn(i));
            && c.signals.topologyChangeDetected
            && (IsRoot(b) ==> c.signals.topologyChange && c.signals.topologyChangeTimer == Start(0))
            && (!IsRoot(b) && !b.signals.topologyChangeDetected ==>
                  c.signals.tcn == Start(0) && SentTcn(b.rootPort) in c.signals.sent)
            && var n := |c.signals.sent|;
               if c.ports[i].out.topologyChangeAck
               then b.ports[i].out.hold.active ==> c.ports[i].out.configPending
               else n > 0 && c.signals.sent[n - 1].SentConfig? && c.signals.sent[n - 1].port == i
                    && c.signals.sent[n - 1].config.topologyChangeAck
    ensures Step(b, Tcn(i)).ports[i].out.topologyChangeAck <==>
            b.ports[i].out.hold.active || TransmittedAge(b) >= b.times.maxAge
  {
    var d := TopologyChangeDetection(b);
    assert d.ports == b.ports && d.times == b.times && SameTree(b, d) && TransmittedAge(d) == TransmittedAge(b);
    var x := SetPort(d, i, d.ports[i].(out := d.ports[i].out.(topologyChangeAck := true)));
    assert TransmittedAge(x) == TransmittedAge(b);
  }

  /** On any other port it is ignored. */
  lemma TcnIsIgnored(b: Bridge, i: PortNo)
    requires !Enabled(b.ports[i]) || !IsDesignated(b, b.ports[i])
    ensures Step(b, Tcn(i)) == b
  {
  }
}
