/** Whole-run results of `lib/stp.c`: recorded vectors never exceed the bridge's
    own, and stale information always ages out. */
module StpAgeing {
  import opened StpModel
  import opened StpSelection
  import opened StpInvariants
  import opened StpRuns

  // ----- vector dominance over runs

  /** The new port id would make a port look designated although it carries
      another cost: the recorded vector names this bridge and exactly that id. */
  predicate Confusing(b: Bridge, i: PortNo, priority: nat) {
    var p := b.ports[i];
    && Enabled(p) && !IsDesignated(b, p)
    && p.designated.bridge == b.bridgeId && p.designated.port == PriorityId(p, priority)
    && p.designated.cost != b.rootPathCost
  }

  /** Changing a port priority keeps every recorded vector dominated exactly when
      the new id is not the one already recorded from this bridge itself. */
  lemma PriorityKeepsDominance(b: Bridge, i: PortNo, priority: nat)
    requires Inv(b) && Dominated(b)
    ensures Dominated(SetPriority(b, i, priority)) <==> !Confusing(b, i, priority)
  {
    var c := Reprioritized(b, i, priority);
    var q := c.ports[i];
    assert DominatedPort(b, b.ports[i]);
    forall j: PortNo | j != i ensures DominatedPort(c, c.ports[j]) {
      assert DominatedPort(b, b.ports[j]);
    }
    if c.bridgeId == q.designated.bridge && q.portId < q.designated.port {
      var d := BecomeDesignated(c, i);
      forall j: PortNo ensures DominatedPort(d, d.ports[j]) {
        assert j != i ==> DominatedPort(c, c.ports[j]);
      }
      ReprioritizedKeeps(b, i, priority);
      BecomeDesignatedKeeps(c, i);
      SelectionKeeps(d);
    } else {
      assert DominatedPort(c, q) <==> !Confusing(b, i, priority);
    }
  }

  /** No priority change in the run is confusing when it is made. */
  predicate Unconfused(b: Bridge, events: seq<Event>) {
    events != [] ==>
      var front := events[..|events| - 1];
      var e := events[|events| - 1];
      Unconfused(b, front) && (e.Priority? ==> !Confusing(Run(b, front), e.i, e.priority))
  }

  lemma {:induction false} RunDominated(id: nat, events: seq<Event>)
    requires Unconfused(Create(id), events)
    ensures Dominated(Run(Create(id), events))
  {
    if events == [] {
      CreateEstablishes(id);
    } else {
      var front := events[..|events| - 1];
      var e := events[|events| - 1];
      RunDominated(id, front);
      RunInvariant(id, front);
      var b := Run(Create(id), front);
      if e.Priority? {
        PriorityKeepsDominance(b, e.i, e.priority);
      } else {
        StepKeeps(b, e);
      }
    }
  }

  lemma EnabledPortIsDesignated(b: Bridge, i: PortNo)
    requires Inv(b) && !Enabled(b.ports[i])
    ensures var c := EnablePort(b, i);
            && SameTree(b, c) && Enabled(c.ports[i]) && c.ports[i].pathCost == b.ports[i].pathCost
            && c.ports[i].designated == Own(b, b.ports[i]) && c.ports[i].portId == b.ports[i].portId
            && forall j: PortNo :: j != i ==> (Enabled(c.ports[j]) <==> Enabled(b.ports[j]))
  {
    var c := InitializePort(b, i, Blocking);
    StateSelectionPointwise(c, 0);
    assert SamePort(StateTarget(c, i), EnablePort(b, i).ports[i]);
    SelectionCalm(c);
  }

  /** Port 0 is the only enabled port and has recorded a vector, for root 0, that
      names this bridge as its sender. */
  predicate Forged(b: Bridge) {
    var v := b.ports[0].designated;
    && Enabled(b.ports[0]) && (forall j: PortNo :: j != 0 ==> !Enabled(b.ports[j]))
    && v.root == 0 < b.bridgeId && v.bridge == b.bridgeId && v.cost == 0 < b.ports[0].pathCost
    && v.port != b.ports[0].portId
  }

  lemma ForgedReselect(r: Bridge)
    requires Numbered(r) && Forged(r)
    ensures var c := Reselect(r);
            && c.bridgeId == r.bridgeId && Enabled(c.ports[0]) && c.ports[0].portId == r.ports[0].portId
            && c.ports[0].designated == r.ports[0].designated && c.rootPathCost > 0
  {
    assert Best(r, 0, MAX_PORTS);
    RootSelectionIsUniqueMinimum(r, 0);
    UpdateEffect(r);
    var u := ConfigurationUpdate(r);
    StateSelectionPointwise(u, 0);
    assert SamePort(StateTarget(u, 0), Reselect(r).ports[0]);
  }

  lemma ForgedIsConfusing(b: Bridge, config: Config)
    requires Inv(b) && Enabled(b.ports[0]) && config.messageAge < config.maxAge
    requires config.vector.root < b.ports[0].designated.root
    requires Forged(RecordConfig(b, 0, config)) && config.vector.port == PriorityId(b.ports[0], 1)
    ensures Confusing(ReceivedConfig(b, 0, config), 0, 1)
  {
    var r := RecordConfig(b, 0, config);
    ForgedReselect(r);
    AcceptedCore(b, 0, config);
    assert SamePort(Reselect(r).ports[0], ReceivedConfig(b, 0, config).ports[0]);
  }

  function ForgedConfig(b: Bridge): Config {
    Config(Vector(0, 0, b.bridgeId, 257), 0, 10, 10, 10, false, false)
  }

  lemma ForgedStep(a: Bridge, config: Config)
    requires Inv(a) && Dominated(a) && config == ForgedConfig(a)
    requires (forall j: PortNo :: !Enabled(a.ports[j])) && a.root > 0
    requires a.ports[0].portId == 1 + DEFAULT_PORT_PRIORITY * 256 && a.ports[0].pathCost > 0
    ensures var c := Step(Step(a, Enable(0)), Bpdu(0, config));
            Inv(c) && Dominated(c) && Confusing(c, 0, 1)
  {
    EnabledPortIsDesignated(a, 0);
    EnablePortKeeps(a, 0);
    var b := EnablePort(a, 0);
    ForgedIsConfusing(b, config);
    ReceivedConfigKeeps(b, 0, config);
  }

  /** Confusion does happen, on every bridge: a forged BPDU that names the bridge
      itself, then a change of priority to the port id it carries. */
  lemma ConfusionIsReachable(id: nat) returns (events: seq<Event>)
    ensures var b := Run(Create(id), events); Dominated(b) && !Dominated(Step(b, Priority(0, 1)))
  {
    var a := Create(id);
    CreateEstablishes(id);
    var config := ForgedConfig(a);
    ForgedStep(a, config);
    events := [Enable(0), Bpdu(0, config)];
    RunOfTwo(a, Enable(0), Bpdu(0, config));
    PriorityKeepsDominance(Run(a, events), 0, 1);
  }

  // ----- ageing

  predicate DesignatedBelow(b: Bridge, n: int) {
    forall j: PortNo :: j < n && Enabled(b.ports[j]) ==> IsDesignated(b, b.ports[j])
  }

  lemma AgePortAgesOut(b: Bridge, i: PortNo, elapsed: nat)
    requires Inv(b) && Enabled(b.ports[i]) && DesignatedBelow(b, i)
    requires b.rootPort == -1 || b.rootPort >= i
    requires elapsed >= b.times.maxAge && elapsed >= b.times.bridgeMaxAge
    ensures var c := AgePort(b, i, elapsed);
            && Inv(c) && DesignatedBelow(c, i + 1) && (c.rootPort == -1 || c.rootPort > i)
            && elapsed >= c.times.maxAge && elapsed >= c.times.bridgeMaxAge
  {
    AgePortKeeps(b, i, elapsed);
    assert PortOk(b, b.ports[i]);
    var t := b.ports[i].messageAge;
    var c := SetPort(b, i, b.ports[i].(messageAge := Advance(t, elapsed, b.times.maxAge)));
    if t.active {
      var d := BecomeDesignated(c, i);
      forall j: PortNo ensures PortOk(d, d.ports[j]) {
        assert PortOk(b, b.ports[j]);
      }
      assert DesignatedBelow(d, i + 1);
      ReselectAsRootRestores(d, IsRoot(c));
      DesignatedStays(d, ReselectAsRoot(d, IsRoot(c)), i + 1);
    }
  }

  lemma DesignatedStays(b: Bridge, c: Bridge, n: int)
    requires DesignatedBelow(b, n) && Kept(b, c) && FreshRoot(b, c) && RootOk(c)
    ensures DesignatedBelow(c, n) && (c.rootPort == -1 || c.rootPort >= n)
  {
  }

  lemma {:induction false} AgePortsAgeOut(b: Bridge, i: nat, elapsed: nat)
    requires Inv(b) && i <= MAX_PORTS && DesignatedBelow(b, i)
    requires b.rootPort == -1 || b.rootPort >= i
    requires elapsed >= b.times.maxAge && elapsed >= b.times.bridgeMaxAge
    ensures var c := AgePorts(b, i, elapsed); IsRoot(c) && DesignatedBelow(c, MAX_PORTS)
    decreases MAX_PORTS - i
  {
    if i < MAX_PORTS {
      if Enabled(b.ports[i]) {
        AgePortAgesOut(b, i, elapsed);
        AgePortsAgeOut(AgePort(b, i, elapsed), i + 1, elapsed);
      } else {
        AgePortsAgeOut(b, i + 1, elapsed);
      }
    }
  }

  /** In every reachable state, one sufficiently long tick discards everything
      heard from other bridges: the bridge is root and all its ports designated. */
  lemma StaleInformationAgesOut(id: nat, events: seq<Event>, elapsed: nat)
    requires elapsed > 0
    requires var t := Run(Create(id), events).times;
             elapsed >= t.maxAge && elapsed >= t.bridgeMaxAge
    ensures var c := Step(Run(Create(id), events), Ticks(elapsed));
            IsRoot(c) && DesignatedBelow(c, MAX_PORTS)
  {
    var b := Run(Create(id), events);
    RunInvariant(id, events);
    var c := TopologyChangeTick(TcnTick(HelloTick(b, elapsed), elapsed), elapsed);
    TimerFrames(b, elapsed);
    CoreSafe(b, c);
    AgePortsAgeOut(c, 0, elapsed);
    AgePortsKeeps(c, 0, elapsed);
    AdvancePortsKeeps(AgePorts(c, 0, elapsed), 0, elapsed);
  }
}
