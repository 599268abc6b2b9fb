/** No port sends more than one configuration BPDU in a second. */
module StpHold {
  import opened StpModel
  import opened StpSelection
  import opened StpRuns

  // Every BPDU costs a second of waiting.  What a port has spent and waited never exceeds
  // the ticks that have passed, plus one BPDU for each time that the port was enabled.

  /** The configuration BPDUs of port `i` in a log. */
  function Configs(sent: seq<Sent>, i: PortNo): nat {
    if sent == [] then 0
    else Configs(sent[..|sent| - 1], i)
         + if sent[|sent| - 1].SentConfig? && sent[|sent| - 1].port == i then 1 else 0
  }

  lemma ConfigsAppend(sent: seq<Sent>, s: Sent, i: PortNo)
    ensures Configs(sent + [s], i) == Configs(sent, i) + if s.SentConfig? && s.port == i then 1 else 0
  {
    assert (sent + [s])[..|sent|] == sent;
  }

  function Waited(t: Timer): nat { if t.active then t.value else HOLD_TIME }

  function Spent(b: Bridge, i: PortNo): nat {
    HOLD_TIME * Configs(b.signals.sent, i) + Waited(b.ports[i].out.hold)
  }

  // ----- what costs nothing, or pays for itself

  lemma TransmitSpends(b: Bridge, j: PortNo, i: PortNo)
    ensures Spent(TransmitConfig(b, j), i) == Spent(b, i)
  {
    ConfigsAppend(b.signals.sent, SentConfig(j, ConfigFor(b, b.ports[j])), i);
  }

  lemma {:induction false} GenerationSpends(b: Bridge, j: nat, i: PortNo)
    requires j <= MAX_PORTS
    ensures Spent(ConfigGeneration(b, j), i) == Spent(b, i)
    decreases MAX_PORTS - j
  {
    if j < MAX_PORTS {
      if Enabled(b.ports[j]) && IsDesignated(b, b.ports[j]) {
        TransmitSpends(b, j, i);
        hide TransmitConfig, Spent;
        GenerationSpends(TransmitConfig(b, j), j + 1, i);
      } else {
        hide Spent;
        GenerationSpends(b, j + 1, i);
      }
    }
  }

  /** Same log, same hold timer. */
  predicate SameHold(b: Bridge, c: Bridge, i: PortNo) {
    c.signals.sent == b.signals.sent && c.ports[i].out.hold == b.ports[i].out.hold
  }

  lemma DetectionSpends(b: Bridge, i: PortNo)
    ensures Spent(TopologyChangeDetection(b), i) == Spent(b, i) && Spent(TransmitTcn(b), i) == Spent(b, i)
    ensures TopologyChangeDetection(b).ports == b.ports
  {
    if b.rootPort != -1 {
      ConfigsAppend(b.signals.sent, SentTcn(b.rootPort), i);
    }
  }

  lemma BlockingSpends(b: Bridge, j: PortNo, i: PortNo)
    ensures Spent(MakeBlocking(b, j), i) == Spent(b, i)
  {
    DetectionSpends(b, i);
    hide TopologyChangeDetection, Configs;
  }

  lemma SelectStateSpends(b: Bridge, j: PortNo, i: PortNo)
    ensures Spent(SelectState(b, j), i) == Spent(b, i)
  {
    var p := b.ports[j];
    var c, d := SetPort(b, j, ClearOutbox(p)), SetPort(b, j, p.(messageAge := Stop(p.messageAge)));
    assert SameHold(b, c, i) && SameHold(b, d, i);
    BlockingSpends(c, j, i);
    assert SameHold(c, MakeForwarding(c, j), i) && SameHold(d, MakeForwarding(d, j), i);
    hide MakeBlocking, MakeForwarding, Configs;
  }

  lemma {:induction false} SelectionSpends(b: Bridge, j: nat, i: PortNo)
    requires j <= MAX_PORTS
    ensures Spent(StateSelection(b, j), i) == Spent(b, i)
    decreases MAX_PORTS - j
  {
    if j < MAX_PORTS {
      if Enabled(b.ports[j]) {
        SelectStateSpends(b, j, i);
        hide SelectState, Spent;
        SelectionSpends(SelectState(b, j), j + 1, i);
      } else {
        hide Spent;
        SelectionSpends(b, j + 1, i);
      }
    }
  }

  lemma ReselectSpends(b: Bridge, wasRoot: bool, i: PortNo)
    ensures Spent(Reselect(b), i) == Spent(b, i) && Spent(ReselectAsRoot(b, wasRoot), i) == Spent(b, i)
  {
    DesignatedSelectionPointwise(RootSelection(b), 0);
    assert SameHold(b, ConfigurationUpdate(b), i);
    SelectionSpends(ConfigurationUpdate(b), 0, i);
    BecomeRootSpends(Reselect(b), i);
    hide ConfigurationUpdate, StateSelection, BecomeRootBridge, Configs;
  }

  lemma BecomeRootSpends(b: Bridge, i: PortNo)
    ensures Spent(BecomeRootBridge(b), i) == Spent(b, i)
  {
    var a := b.(times := OwnTimes(b.times));
    var c := TopologyChangeDetection(a);
    DetectionSpends(a, i);
    var d := c.(signals := c.signals.(tcn := Stop(c.signals.tcn)));
    GenerationSpends(d, 0, i);
    hide TopologyChangeDetection, ConfigGeneration, Configs;
  }

  lemma LoseRootSpends(b: Bridge, i: PortNo)
    ensures Spent(LoseRoot(b), i) == Spent(b, i)
  {
    var s := b.signals.(hello := Stop(b.signals.hello));
    DetectionSpends(b.(signals := s.(topologyChangeTimer := Stop(s.topologyChangeTimer))), i);
    hide TransmitTcn, Configs;
  }

  lemma FollowRootSpends(b: Bridge, config: Config, i: PortNo)
    ensures Spent(FollowRoot(b, config), i) == Spent(b, i)
  {
    GenerationSpends(b.(times := b.times.(maxAge := config.maxAge, helloTime := config.helloTime,
                                          forwardDelay := config.forwardDelay),
                        signals := b.signals.(topologyChange := config.topologyChange)), 0, i);
    hide ConfigGeneration, Configs;
  }

  lemma BpduSpends(b: Bridge, j: PortNo, config: Config, i: PortNo)
    ensures Spent(ReceivedConfig(b, j, config), i) == Spent(b, i)
  {
    var r := RecordConfig(b, j, config);
    assert Spent(r, i) == Spent(b, i);
    hide RecordConfig, Reselect, LoseRoot, FollowRoot, TransmitConfig, Spent;
    var c := Reselect(r);
    ReselectSpends(r, false, i);
    LoseRootSpends(c, i);
    FollowRootSpends(if !IsRoot(c) && IsRoot(b) then LoseRoot(c) else c, config, i);
    TransmitSpends(b, j, i);
  }

  lemma TcnSpends(b: Bridge, j: PortNo, i: PortNo)
    ensures Spent(ReceivedTcn(b, j), i) == Spent(b, i)
  {
    var c := TopologyChangeDetection(b);
    DetectionSpends(b, i);
    var d := SetPort(c, j, c.ports[j].(out := c.ports[j].out.(topologyChangeAck := true)));
    TransmitSpends(d, j, i);
    hide TopologyChangeDetection, TransmitConfig, Configs;
  }

  // ----- ticks

  lemma HelloTickSpends(b: Bridge, elapsed: nat, i: PortNo)
    ensures Spent(HelloTick(b, elapsed), i) == Spent(b, i)
  {
    var a := b.(signals := b.signals.(hello := Advance(b.signals.hello, elapsed, b.times.helloTime)));
    GenerationSpends(a, 0, i);
    hide ConfigGeneration, Configs;
  }

  lemma TcnTickSpends(b: Bridge, elapsed: nat, i: PortNo)
    ensures Spent(TcnTick(b, elapsed), i) == Spent(b, i)
  {
    DetectionSpends(b.(signals := b.signals.(tcn := Advance(b.signals.tcn, elapsed, b.times.bridgeHelloTime))), i);
    hide TransmitTcn, Configs;
  }

  lemma TimersSpend(b: Bridge, elapsed: nat, i: PortNo)
    ensures Spent(TopologyChangeTick(TcnTick(HelloTick(b, elapsed), elapsed), elapsed), i) == Spent(b, i)
  {
    hide HelloTick, TcnTick, Configs;
    HelloTickSpends(b, elapsed, i);
    TcnTickSpends(HelloTick(b, elapsed), elapsed, i);
  }

  lemma {:induction false} AgeingSpends(b: Bridge, j: nat, elapsed: nat, i: PortNo)
    requires j <= MAX_PORTS
    ensures Spent(AgePorts(b, j, elapsed), i) == Spent(b, i)
    decreases MAX_PORTS - j
  {
    if j < MAX_PORTS {
      if Enabled(b.ports[j]) {
        var c := SetPort(b, j, b.ports[j].(messageAge := Advance(b.ports[j].messageAge, elapsed, b.times.maxAge)));
        ReselectSpends(BecomeDesignated(c, j), IsRoot(c), i);
        hide ReselectAsRoot, Configs;
        assert Spent(AgePort(b, j, elapsed), i) == Spent(b, i);
        hide AgePort;
        AgeingSpends(AgePort(b, j, elapsed), j + 1, elapsed, i);
      } else {
        AgeingSpends(b, j + 1, elapsed, i);
      }
    }
  }

  lemma ForwardDelaySpends(b: Bridge, j: PortNo, elapsed: nat, i: PortNo)
    ensures Spent(AdvanceForwardDelay(b, j, elapsed), i) == Spent(b, i)
  {
    var timer := Advance(b.ports[j].forwardDelay, elapsed, b.times.forwardDelay);
    var a := SetPort(b, j, b.ports[j].(forwardDelay := timer));
    DetectionSpends(SetPortState(a, j, Forwarding), i);
    hide TopologyChangeDetection, Configs;
  }

  lemma HoldSpends(b: Bridge, j: PortNo, elapsed: nat, i: PortNo)
    ensures Spent(AdvanceHold(b, j, elapsed), i) <= Spent(b, i) + if i == j then elapsed else 0
  {
    var p := b.ports[j];
    var d := SetPort(b, j, p.(out := p.out.(hold := Advance(p.out.hold, elapsed, HOLD_TIME))));
    TransmitSpends(d, j, i);
    hide TransmitConfig, Configs;
  }

  /** The hold timer of a port advances once in a tick. */
  lemma AdvanceOneSpends(b: Bridge, j: PortNo, elapsed: nat, i: PortNo)
    ensures Spent(AdvanceHold(AdvanceForwardDelay(b, j, elapsed), j, elapsed), i)
            <= Spent(b, i) + if i == j then elapsed else 0
  {
    hide AdvanceForwardDelay, AdvanceHold, Spent;
    ForwardDelaySpends(b, j, elapsed, i);
    HoldSpends(AdvanceForwardDelay(b, j, elapsed), j, elapsed, i);
  }

  lemma {:induction false} AdvanceSpends(b: Bridge, j: nat, elapsed: nat, i: PortNo)
    requires j <= MAX_PORTS
    ensures Spent(AdvancePorts(b, j, elapsed), i) <= Spent(b, i) + if i >= j then elapsed else 0
    decreases MAX_PORTS - j
  {
    if j < MAX_PORTS {
      if Enabled(b.ports[j]) {
        var d := AdvanceHold(AdvanceForwardDelay(b, j, elapsed), j, elapsed);
        AdvanceOneSpends(b, j, elapsed, i);
        hide AdvanceForwardDelay, AdvanceHold, Spent;
        AdvanceSpends(d, j + 1, elapsed, i);
      } else {
        hide Spent;
        AdvanceSpends(b, j + 1, elapsed, i);
      }
    }
  }

  lemma TickSpends(b: Bridge, elapsed: nat, i: PortNo)
    ensures Spent(Tick(b, elapsed), i) <= Spent(b, i) + elapsed
  {
    TimersSpend(b, elapsed, i);
    var c := TopologyChangeTick(TcnTick(HelloTick(b, elapsed), elapsed), elapsed);
    hide TopologyChangeTick, TcnTick, HelloTick, Spent;
    AgeingSpends(c, 0, elapsed, i);
    AdvanceSpends(AgePorts(c, 0, elapsed), 0, elapsed, i);
  }

  // ----- runs

  lemma EnableSpends(b: Bridge, j: PortNo, i: PortNo)
    ensures Spent(EnablePort(b, j), i) <= Spent(b, i) + if i == j then HOLD_TIME else 0
  {
    var c := InitializePort(b, j, Blocking);
    assert Spent(c, i) <= Spent(b, i) + if i == j then HOLD_TIME else 0;
    SelectionSpends(c, 0, i);
    hide InitializePort, StateSelection, Spent;
  }

  lemma ManagementSpends(b: Bridge, e: Event, i: PortNo)
    requires e.Disable? || e.Priority? || e.PathCost? || e.Speed? || e.BridgeMac? || e.BridgePriority?
    ensures Spent(Step(b, e), i) == Spent(b, i)
  {
    hide Reselect, ReselectAsRoot, StateSelection, Configs, WithMac, WithPriority;
    match e
    case Disable(j) => ReselectSpends(Detach(b, j), IsRoot(b), i);
    case Priority(j, priority) => SelectionSpends(BecomeDesignated(Reprioritized(b, j, priority), j), 0, i);
    case PathCost(j, cost) => ReselectSpends(SetPort(b, j, b.ports[j].(pathCost := cost)), false, i);
    case Speed(j, speed) => ReselectSpends(SetPort(b, j, b.ports[j].(pathCost := SpeedCost(speed))), false, i);
    case BridgeMac(mac) => RenameSpends(b, WithMac(b.bridgeId, mac), i);
    case BridgePriority(priority) => RenameSpends(b, WithPriority(b.bridgeId, priority), i);
  }

  lemma RenameSpends(b: Bridge, id: nat, i: PortNo)
    ensures Spent(SetBridgeId(b, id), i) == Spent(b, i)
  {
    RenamePointwise(b, 0, id);
    var d := RenameDesignated(b, 0, id).(bridgeId := id);
    assert SameHold(b, d, i);
    ReselectSpends(d, IsRoot(b), i);
    hide ReselectAsRoot, Configs;
  }

  /** The ticks of a call, or a second for enabling the port. */
  function Earned(e: Event, i: PortNo): nat {
    match e
    case Ticks(elapsed) => elapsed
    case Enable(j) => if i == j then HOLD_TIME else 0
    case _ => 0
  }

  lemma StepSpends(b: Bridge, e: Event, i: PortNo)
    ensures Spent(Step(b, e), i) <= Spent(b, i) + Earned(e, i)
  {
    match e
    case Ticks(elapsed) => TickSpends(b, elapsed, i);
    case Bpdu(j, config) => BpduSpends(b, j, config, i);
    case Tcn(j) => TcnSpends(b, j, i);
    case Enable(j) => EnableSpends(b, j, i);
    case HelloTime(_) =>
    case MaxAge(_) =>
    case ForwardDelay(_) =>
    case ChangeDetection(_, _) =>
    case ChangedPort =>
    case _ => ManagementSpends(b, e, i);
  }

  function AllEarned(events: seq<Event>, i: PortNo): nat {
    if events == [] then 0 else AllEarned(events[..|events| - 1], i) + Earned(events[|events| - 1], i)
  }

  /** In every run a port has sent at most one BPDU for each second that has passed and each
      time that it was enabled. */
  lemma {:induction false} BpdusAreRare(id: nat, events: seq<Event>, i: PortNo)
    ensures var b := Run(Create(id), events);
            HOLD_TIME * Configs(b.signals.sent, i) + Waited(b.ports[i].out.hold) <= AllEarned(events, i) + HOLD_TIME
  {
    if events != [] {
      var front := events[..|events| - 1];
      BpdusAreRare(id, front, i);
      StepSpends(Run(Create(id), front), events[|events| - 1], i);
    }
  }
}
