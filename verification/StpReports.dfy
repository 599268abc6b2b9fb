/** Changes of port states are reported, to the user and to the root. */
module StpReports {
  import opened Prelude
  import opened StpModel
  import opened StpSelection
  import opened StpInvariants
  import opened StpRuns

  // A port that is not marked as changed is in the state that was last reported of it.  A
  // port with change detection that stops learning or forwarding, or starts to forward on
  // a bridge that is designated somewhere, makes the bridge note a topology change.

  predicate Carries(s: PortState) { s.Learning? || s.Forwarding? }

  /** A change of state leaves a mark, and marks stay; leaving is noted. */
  predicate Seen(p: Port, q: Port, noted: bool) {
    && (q.state != p.state ==> q.stateChanged) && (p.stateChanged ==> q.stateChanged)
    && q.changeDetection == p.changeDetection
    && (p.changeDetection && Carries(p.state) && !Carries(q.state) ==> noted)
  }

  predicate Noted(b: Bridge) { b.signals.topologyChangeDetected }

  predicate Observed(b: Bridge, c: Bridge) {
    (Noted(b) ==> Noted(c)) && forall i: PortNo :: Seen(b.ports[i], c.ports[i], Noted(c))
  }

  lemma ObservedTransitive(b: Bridge, c: Bridge, d: Bridge)
    requires Observed(b, c) && Observed(c, d)
    ensures Observed(b, d)
  {
    forall i: PortNo ensures Seen(b.ports[i], d.ports[i], Noted(d)) {
      assert Seen(b.ports[i], c.ports[i], Noted(c)) && Seen(c.ports[i], d.ports[i], Noted(d));
    }
  }

  // ----- reselection

  lemma BlockingObserved(b: Bridge, i: PortNo)
    ensures Observed(b, MakeBlocking(b, i))
  {
  }

  lemma SelectStateObserved(b: Bridge, i: PortNo)
    ensures Observed(b, SelectState(b, i))
  {
    var p := b.ports[i];
    var c, d := SetPort(b, i, ClearOutbox(p)), SetPort(b, i, p.(messageAge := Stop(p.messageAge)));
    assert Observed(b, c) && Observed(b, d);
    BlockingObserved(c, i);
    assert Observed(c, MakeForwarding(c, i)) && Observed(d, MakeForwarding(d, i));
    hide MakeBlocking, MakeForwarding, Observed;
    ObservedTransitive(b, c, MakeBlocking(c, i));
    ObservedTransitive(b, c, MakeForwarding(c, i));
    ObservedTransitive(b, d, MakeForwarding(d, i));
  }

  lemma {:induction false} SelectionObserved(b: Bridge, i: nat)
    requires i <= MAX_PORTS
    ensures Observed(b, StateSelection(b, i))
    decreases MAX_PORTS - i
  {
    if i < MAX_PORTS {
      if Enabled(b.ports[i]) {
        SelectStateObserved(b, i);
        hide SelectState, Observed;
        SelectionObserved(SelectState(b, i), i + 1);
        ObservedTransitive(b, SelectState(b, i), StateSelection(SelectState(b, i), i + 1));
      } else {
        hide Observed;
        SelectionObserved(b, i + 1);
      }
    }
  }

  lemma BecomeRootObserved(b: Bridge)
    ensures IsRoot(b) ==> Observed(b, BecomeRootBridge(b))
  {
    var c := TopologyChangeDetection(b.(times := OwnTimes(b.times)));
    var d := c.(signals := c.signals.(tcn := Stop(c.signals.tcn)));
    BecomeRootFrame(b);
    NotedStays(d, 0);
    hide ConfigGeneration;
    assert forall i: PortNo :: SamePort(b.ports[i], BecomeRootBridge(b).ports[i]);
  }

  lemma {:induction false} NotedStays(b: Bridge, i: nat)
    requires i <= MAX_PORTS
    ensures Noted(ConfigGeneration(b, i)) <==> Noted(b)
    decreases MAX_PORTS - i
  {
    if i < MAX_PORTS {
      NotedStays(TransmitConfig(b, i), i + 1);
      NotedStays(b, i + 1);
    }
  }

  lemma ReselectObserved(b: Bridge, wasRoot: bool)
    ensures Observed(b, Reselect(b)) && Observed(b, ReselectAsRoot(b, wasRoot))
  {
    var c := ConfigurationUpdate(b);
    DesignatedSelectionPointwise(RootSelection(b), 0);
    assert Observed(b, c);
    SelectionObserved(c, 0);
    BecomeRootObserved(Reselect(b));
    hide ConfigurationUpdate, StateSelection, BecomeRootBridge, Observed;
    ObservedTransitive(b, c, Reselect(b));
    if IsRoot(Reselect(b)) {
      ObservedTransitive(b, Reselect(b), BecomeRootBridge(Reselect(b)));
    }
  }

  /** A modification that nobody sees, and reselection. */
  lemma ThenReselectObserved(b: Bridge, c: Bridge, wasRoot: bool)
    requires Observed(b, c)
    ensures Observed(b, Reselect(c)) && Observed(b, ReselectAsRoot(c, wasRoot))
  {
    ReselectObserved(c, wasRoot);
    hide Observed, Reselect, ReselectAsRoot;
    ObservedTransitive(b, c, Reselect(c));
    ObservedTransitive(b, c, ReselectAsRoot(c, wasRoot));
  }

  // ----- ticks

  lemma {:induction false} AgePortsObserved(b: Bridge, i: nat, elapsed: nat)
    requires i <= MAX_PORTS
    ensures Observed(b, AgePorts(b, i, elapsed))
    decreases MAX_PORTS - i
  {
    if i < MAX_PORTS {
      if Enabled(b.ports[i]) {
        var c := SetPort(b, i, b.ports[i].(messageAge := Advance(b.ports[i].messageAge, elapsed, b.times.maxAge)));
        assert Observed(b, c) && Observed(b, BecomeDesignated(c, i));
        ThenReselectObserved(b, BecomeDesignated(c, i), IsRoot(c));
        assert Observed(b, AgePort(b, i, elapsed));
        hide AgePort, Observed, ReselectAsRoot;
        AgePortsObserved(AgePort(b, i, elapsed), i + 1, elapsed);
        ObservedTransitive(b, AgePort(b, i, elapsed), AgePorts(AgePort(b, i, elapsed), i + 1, elapsed));
      } else {
        AgePortsObserved(b, i + 1, elapsed);
      }
    }
  }

  /** A port that starts to forward is noted, if the bridge is designated somewhere. */
  predicate Arriving(b: Bridge, p: Port, q: Port) {
    p.changeDetection && !p.state.Forwarding? && q.state.Forwarding? && DesignatedForSomePort(b)
  }

  predicate SameDesignated(b: Bridge, c: Bridge) {
    && c.bridgeId == b.bridgeId
    && forall j: PortNo :: c.ports[j].designated == b.ports[j].designated
                           && (Enabled(c.ports[j]) <==> Enabled(b.ports[j]))
  }

  lemma SameDesignation(b: Bridge, c: Bridge)
    requires SameDesignated(b, c)
    ensures DesignatedForSomePort(b) <==> DesignatedForSomePort(c)
  {
    if i: PortNo :| Enabled(b.ports[i]) && b.ports[i].designated.bridge == b.bridgeId {
      assert Enabled(c.ports[i]) && c.ports[i].designated.bridge == c.bridgeId;
    }
    if i: PortNo :| Enabled(c.ports[i]) && c.ports[i].designated.bridge == c.bridgeId {
      assert Enabled(b.ports[i]) && b.ports[i].designated.bridge == b.bridgeId;
    }
  }

  lemma SetPortStateObserved(b: Bridge, i: PortNo, s: PortState)
    requires Enabled(b.ports[i]) && !s.Disabled? && (Carries(b.ports[i].state) ==> Carries(s))
    ensures var c := SetPortState(b, i, s);
            && Observed(b, c) && SameDesignated(b, c) && c.signals == b.signals && c.ports[i].state == s
            && c.ports[i].changeDetection == b.ports[i].changeDetection
            && forall j: PortNo :: j != i ==> c.ports[j] == b.ports[j]
  {
  }

  lemma LearningObserved(b: Bridge, i: PortNo)
    requires b.ports[i].state.Learning?
    ensures var c := ForwardDelayExpiry(b, i);
            && Observed(b, c) && (Arriving(b, b.ports[i], c.ports[i]) ==> Noted(c))
            && SameDesignated(b, c) && forall j: PortNo :: j != i ==> c.ports[j] == b.ports[j]
  {
    var s := SetPortState(b, i, Forwarding);
    SetPortStateObserved(b, i, Forwarding);
    SameDesignation(b, s);
    hide DesignatedForSomePort, SetPortState;
    var d := TopologyChangeDetection(s);
    assert d.ports == s.ports && d.bridgeId == s.bridgeId && Noted(d);
    hide TopologyChangeDetection;
  }

  lemma ForwardDelayObserved(b: Bridge, i: PortNo, elapsed: nat)
    requires Enabled(b.ports[i])
    ensures var c := AdvanceForwardDelay(b, i, elapsed);
            && Observed(b, c) && (Arriving(b, b.ports[i], c.ports[i]) ==> Noted(c))
            && SameDesignated(b, c) && forall j: PortNo :: j != i ==> c.ports[j] == b.ports[j]
  {
    var p := b.ports[i];
    var a := SetPort(b, i, p.(forwardDelay := Advance(p.forwardDelay, elapsed, b.times.forwardDelay)));
    assert Observed(b, a) && SameDesignated(b, a);
    SameDesignation(b, a);
    hide DesignatedForSomePort;
    if p.state.Learning? {
      LearningObserved(a, i);
      hide ForwardDelayExpiry;
    } else if p.state.Listening? {
      SetPortStateObserved(a, i, Learning);
      hide SetPortState;
    }
  }

  lemma HoldObserved(b: Bridge, i: PortNo, elapsed: nat)
    ensures var c := AdvanceHold(b, i, elapsed);
            && Observed(b, c) && c.bridgeId == b.bridgeId
            && forall j: PortNo :: SamePort(b.ports[j], c.ports[j])
  {
  }

  lemma AdvanceOneObserved(b: Bridge, i: PortNo, elapsed: nat)
    requires Enabled(b.ports[i])
    ensures var d := AdvanceHold(AdvanceForwardDelay(b, i, elapsed), i, elapsed);
            && Observed(b, d) && (DesignatedForSomePort(b) <==> DesignatedForSomePort(d))
            && forall j: PortNo :: (Arriving(b, b.ports[j], d.ports[j]) ==> Noted(d))
                                   && (j != i ==> d.ports[j].state == b.ports[j].state)
  {
    var c := AdvanceForwardDelay(b, i, elapsed);
    ForwardDelayObserved(b, i, elapsed);
    HoldObserved(c, i, elapsed);
    var d := AdvanceHold(c, i, elapsed);
    hide AdvanceForwardDelay, AdvanceHold;
    assert SameDesignated(c, d) by {
      assert forall j: PortNo :: SamePort(c.ports[j], d.ports[j]);
    }
    SameDesignation(b, d);
    hide DesignatedForSomePort;
    ObservedTransitive(b, c, d);
    forall j: PortNo
      ensures (Arriving(b, b.ports[j], d.ports[j]) ==> Noted(d)) && (j != i ==> d.ports[j].state == b.ports[j].state)
    {
      assert SamePort(c.ports[j], d.ports[j]);
    }
  }

  lemma {:induction false} AdvanceObserved(b: Bridge, i: nat, elapsed: nat)
    requires i <= MAX_PORTS
    ensures var c := AdvancePorts(b, i, elapsed);
            Observed(b, c) && (forall j: PortNo :: Arriving(b, b.ports[j], c.ports[j]) ==> Noted(c))
            && (DesignatedForSomePort(b) <==> DesignatedForSomePort(c))
    decreases MAX_PORTS - i
  {
    if i < MAX_PORTS {
      if Enabled(b.ports[i]) {
        var d := AdvanceHold(AdvanceForwardDelay(b, i, elapsed), i, elapsed);
        AdvanceOneObserved(b, i, elapsed);
        hide AdvanceForwardDelay, AdvanceHold, DesignatedForSomePort;
        AdvanceObserved(d, i + 1, elapsed);
        var c := AdvancePorts(d, i + 1, elapsed);
        hide AdvancePorts;
        ObservedTransitive(b, d, c);
        forall j: PortNo | Arriving(b, b.ports[j], c.ports[j]) ensures Noted(c) {
          assert Seen(b.ports[j], d.ports[j], Noted(d));
          assert Arriving(b, b.ports[j], d.ports[j]) || Arriving(d, d.ports[j], c.ports[j]);
        }
        assert AdvancePorts(b, i, elapsed) == c;
      } else {
        AdvanceObserved(b, i + 1, elapsed);
      }
    }
  }

  lemma TickSeen(b: Bridge, elapsed: nat, i: PortNo)
    ensures var c := Tick(b, elapsed);
            Seen(b.ports[i], c.ports[i], Noted(c)) && (elapsed > 0 && Arriving(c, b.ports[i], c.ports[i]) ==> Noted(c))
  {
    if elapsed > 0 {
      var d := TopologyChangeTick(TcnTick(HelloTick(b, elapsed), elapsed), elapsed);
      TimerFrames(b, elapsed);
      assert SamePort(b.ports[i], d.ports[i]);
      hide TopologyChangeTick, TcnTick, HelloTick;
      AgePortsObserved(d, 0, elapsed);
      AgePortsCalm(d, 0, elapsed);
      var f := AgePorts(d, 0, elapsed);
      hide AgePorts;
      AdvanceObserved(f, 0, elapsed);
      var c := AdvancePorts(f, 0, elapsed);
      hide AdvancePorts, DesignatedForSomePort;
      ObservedTransitive(d, f, c);
      assert Seen(d.ports[i], c.ports[i], Noted(c)) && Seen(d.ports[i], f.ports[i], Noted(f));
    }
  }

  /** Ageing lets no port forward. */
  lemma {:induction false} AgePortsCalm(b: Bridge, i: nat, elapsed: nat)
    requires i <= MAX_PORTS
    ensures forall j: PortNo :: AgePorts(b, i, elapsed).ports[j].state.Forwarding? ==> b.ports[j].state.Forwarding?
    decreases MAX_PORTS - i
  {
    if i < MAX_PORTS {
      if Enabled(b.ports[i]) {
        AgePortCalm(b, i, elapsed);
        hide AgePort;
        AgePortsCalm(AgePort(b, i, elapsed), i + 1, elapsed);
      } else {
        AgePortsCalm(b, i + 1, elapsed);
      }
    }
  }

  lemma AgePortCalm(b: Bridge, i: PortNo, elapsed: nat)
    ensures forall j: PortNo :: AgePort(b, i, elapsed).ports[j].state.Forwarding? ==> b.ports[j].state.Forwarding?
  {
    var c := SetPort(b, i, b.ports[i].(messageAge := Advance(b.ports[i].messageAge, elapsed, b.times.maxAge)));
    var d := BecomeDesignated(c, i);
    var u := ConfigurationUpdate(d);
    DesignatedSelectionPointwise(RootSelection(d), 0);
    assert forall j: PortNo :: u.ports[j].state == b.ports[j].state;
    SelectionCalm(u);
    BecomeRootFrame(Reselect(d));
    hide ConfigurationUpdate, StateSelection, BecomeRootBridge;
    assert forall j: PortNo :: SamePort(Reselect(d).ports[j], BecomeRootBridge(Reselect(d)).ports[j]);
  }

  // ----- calls

  lemma BpduSeen(b: Bridge, j: PortNo, config: Config, i: PortNo)
    ensures var c := ReceivedConfig(b, j, config);
            Seen(b.ports[i], c.ports[i], Noted(c) || config.topologyChangeAck)
  {
    var c := ReceivedConfig(b, j, config);
    if Accepted(b, j, config) {
      var r := RecordConfig(b, j, config);
      assert Observed(b, r);
      ThenReselectObserved(b, r, false);
      AcceptedCore(b, j, config);
      var s := Reselect(r);
      assert Seen(b.ports[i], s.ports[i], Noted(s)) && SamePort(s.ports[i], c.ports[i]);
      var d := if !IsRoot(s) && IsRoot(b) then LoseRoot(s) else s;
      hide Reselect;
      NotedStays(d.(times := d.times.(maxAge := config.maxAge, helloTime := config.helloTime,
                                      forwardDelay := config.forwardDelay),
                    signals := d.signals.(topologyChange := config.topologyChange)), 0);
      assert Noted(s) ==> Noted(d);
      assert Noted(d) ==> Noted(c) || config.topologyChangeAck;
      hide ReceivedConfig;
    } else {
      TransmitConfigFrame(b, j);
      assert SamePort(b.ports[i], c.ports[i]);
    }
  }

  lemma ManagementSeen(b: Bridge, e: Event, i: PortNo)
    requires e.Disable? || e.Priority? || e.PathCost? || e.Speed? || e.BridgeMac? || e.BridgePriority?
    ensures var c := Step(b, e); Seen(b.ports[i], c.ports[i], Noted(c) || (e.Disable? && e.i == i))
  {
    hide Reselect, ReselectAsRoot, StateSelection, WithMac, WithPriority;
    match e
    case Disable(j) => DisableSeen(b, j, i);
    case Priority(j, priority) =>
      var r := BecomeDesignated(Reprioritized(b, j, priority), j);
      SelectionObserved(r, 0);
      assert Seen(r.ports[i], StateSelection(r, 0).ports[i], Noted(StateSelection(r, 0)));
    case PathCost(j, cost) => CostSeen(b, j, cost, i);
    case Speed(j, speed) => CostSeen(b, j, SpeedCost(speed), i);
    case BridgeMac(mac) => RenameSeen(b, WithMac(b.bridgeId, mac), i);
    case BridgePriority(priority) => RenameSeen(b, WithPriority(b.bridgeId, priority), i);
  }

  lemma DisableSeen(b: Bridge, j: PortNo, i: PortNo)
    ensures var c := DisablePort(b, j); Seen(b.ports[i], c.ports[i], Noted(c) || j == i)
  {
    var d := Detach(b, j);
    ReselectObserved(d, IsRoot(b));
    var c := ReselectAsRoot(d, IsRoot(b));
    hide ReselectAsRoot;
    assert Seen(d.ports[i], c.ports[i], Noted(c));
  }

  lemma CostSeen(b: Bridge, j: PortNo, cost: nat, i: PortNo)
    ensures var c := SetPathCost(b, j, cost); Seen(b.ports[i], c.ports[i], Noted(c))
  {
    var d := SetPort(b, j, b.ports[j].(pathCost := cost));
    assert Observed(b, d);
    ThenReselectObserved(b, d, false);
    assert Seen(b.ports[i], Reselect(d).ports[i], Noted(Reselect(d)));
    hide Reselect;
  }

  lemma RenameSeen(b: Bridge, id: nat, i: PortNo)
    ensures var c := SetBridgeId(b, id); Seen(b.ports[i], c.ports[i], Noted(c))
  {
    RenamePointwise(b, 0, id);
    var d := RenameDesignated(b, 0, id).(bridgeId := id);
    assert Observed(b, d);
    ThenReselectObserved(b, d, IsRoot(b));
    var c := ReselectAsRoot(d, IsRoot(b));
    assert Seen(b.ports[i], c.ports[i], Noted(c));
    hide ReselectAsRoot, RenameDesignated;
  }

  lemma EnableSeen(b: Bridge, j: PortNo, i: PortNo)
    ensures var c := EnablePort(b, j);
      Seen(b.ports[i].(changeDetection := c.ports[i].changeDetection), c.ports[i], Noted(c))
  {
    if !Enabled(b.ports[j]) {
      var d := InitializePort(b, j, Blocking);
      SelectionObserved(d, 0);
      var c := StateSelection(d, 0);
      hide StateSelection;
      assert Seen(d.ports[i], c.ports[i], Noted(c));
    }
  }

  /** A change of state leaves a mark, whatever call makes it. */
  lemma ChangeLeavesMark(b: Bridge, e: Event, i: PortNo)
    requires !e.ChangedPort?
    ensures var p, q := b.ports[i], Step(b, e).ports[i];
            (q.state != p.state ==> q.stateChanged) && (p.stateChanged ==> q.stateChanged)
  {
    match e
    case Ticks(elapsed) => TickSeen(b, elapsed, i);
    case Bpdu(j, config) => BpduSeen(b, j, config, i);
    case Tcn(j) =>
      ReceivedTcnKeeps(b, j);
      assert SamePort(b.ports[i], ReceivedTcn(b, j).ports[i]);
    case Enable(j) => EnableSeen(b, j, i);
    case HelloTime(_) =>
    case MaxAge(_) =>
    case ForwardDelay(_) =>
    case ChangeDetection(_, _) =>
    case _ => ManagementSeen(b, e, i);
  }

  /** The state last reported of a port. */
  function Reported(id: nat, events: seq<Event>, i: PortNo): Option<PortState> {
    if events == [] then None
    else
      var front := events[..|events| - 1];
      var b := Run(Create(id), front);
      if events[|events| - 1].ChangedPort? && FirstChangedFrom(b.ports, b.firstChanged) == i then Some(b.ports[i].state)
      else Reported(id, front, i)
  }

  /** In every run: a port that is not marked as changed is in the state last reported. */
  lemma {:induction false} NoChangeGoesUnreported(id: nat, events: seq<Event>, i: PortNo)
    ensures var p := Run(Create(id), events).ports[i];
            p.stateChanged || Reported(id, events, i) == Some(p.state)
  {
    if events != [] {
      var front, e := events[..|events| - 1], events[|events| - 1];
      NoChangeGoesUnreported(id, front, i);
      if e.ChangedPort? {
        hide Create;
      } else {
        ChangeLeavesMark(Run(Create(id), front), e, i);
        hide Step, Create;
      }
    }
  }

  /** A port with change detection that stops learning or forwarding makes the bridge note a
      change, unless it is disabled or the same call acknowledges the change; one that
      starts to forward does so if the bridge is designated on some port. */
  lemma ChangeIsNoted(b: Bridge, e: Event, i: PortNo)
    requires b.ports[i].changeDetection && (e.Disable? ==> e.i != i) && (e.Bpdu? ==> !e.config.topologyChangeAck)
    ensures var c := Step(b, e);
            var s, t := b.ports[i].state, c.ports[i].state;
            && (Carries(s) && !Carries(t) ==> Noted(c))
            && (e.Ticks? && !s.Forwarding? && t.Forwarding? && DesignatedForSomePort(c) ==> Noted(c))
  {
    match e
    case Ticks(elapsed) => TickSeen(b, elapsed, i);
    case Bpdu(j, config) => BpduSeen(b, j, config, i);
    case Tcn(j) =>
      ReceivedTcnKeeps(b, j);
      assert SamePort(b.ports[i], ReceivedTcn(b, j).ports[i]);
    case Enable(j) => EnableNotes(b, j, i);
    case HelloTime(_) =>
    case MaxAge(_) =>
    case ForwardDelay(_) =>
    case ChangeDetection(_, _) =>
    case ChangedPort =>
    case _ => ManagementSeen(b, e, i);
  }

  lemma EnableNotes(b: Bridge, j: PortNo, i: PortNo)
    requires b.ports[i].changeDetection
    ensures var c := EnablePort(b, j); Carries(b.ports[i].state) && !Carries(c.ports[i].state) ==> Noted(c)
  {
    if !Enabled(b.ports[j]) {
      var d := InitializePort(b, j, Blocking);
      SelectionObserved(d, 0);
      var c := StateSelection(d, 0);
      hide StateSelection;
      assert Seen(d.ports[i], c.ports[i], Noted(c));
    }
  }
}
