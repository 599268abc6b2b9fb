/** Who sends hellos, who reports changes, and whose times are in force. */
module StpDuties {
  import opened StpModel
  import opened StpSelection
  import opened StpRuns
  import opened StpNetwork
  import opened StpSettling
  import opened StpHearing
  import opened StpFollowing

  // The root, and no other bridge, runs the hello timer and uses its own times.  It
  // announces a change exactly while its topology change timer runs.  Another bridge that
  // has seen a change and was not acknowledged runs the notification timer.

  predicate Dutiful(b: Bridge) {
    var s := b.signals;
    if IsRoot(b) then
      && s.hello.active && !s.tcn.active && b.times == OwnTimes(b.times)
      && (s.topologyChange <==> s.topologyChangeTimer.active)
      && (s.topologyChangeDetected <==> s.topologyChangeTimer.active)
    else
      !s.hello.active && !s.topologyChangeTimer.active && (s.topologyChangeDetected ==> s.tcn.active)
  }

  /** Signals but for the log. */
  function Bare(b: Bridge): Signals { b.signals.(sent := []) }

  /** `c` is `b`, or `b` after it has detected a change, as far as duties are concerned. */
  predicate MayDetect(b: Bridge, c: Bridge) {
    && c.bridgeId == b.bridgeId && c.root == b.root && c.times == b.times
    && (Bare(c) == Bare(b) || Bare(c) == Bare(TopologyChangeDetection(b)))
  }

  lemma DetectsOnce(b: Bridge, c: Bridge, d: Bridge)
    requires MayDetect(b, c) && MayDetect(c, d)
    ensures MayDetect(b, d)
  {
  }

  lemma SelectStateDetects(b: Bridge, i: PortNo)
    ensures MayDetect(b, SelectState(b, i))
  {
  }

  lemma {:induction false} SelectionDetects(b: Bridge, i: nat)
    requires i <= MAX_PORTS
    ensures MayDetect(b, StateSelection(b, i))
    decreases MAX_PORTS - i
  {
    hide SelectState;
    if i < MAX_PORTS {
      if Enabled(b.ports[i]) {
        SelectStateDetects(b, i);
        SelectionDetects(SelectState(b, i), i + 1);
        hide MayDetect;
        DetectsOnce(b, SelectState(b, i), StateSelection(SelectState(b, i), i + 1));
      } else {
        SelectionDetects(b, i + 1);
      }
    }
  }

  /** Detecting a change is part of the duties. */
  lemma DetectionIsDutiful(b: Bridge, c: Bridge)
    requires Dutiful(b) && MayDetect(b, c)
    ensures Dutiful(c)
  {
  }

  /** Nothing that duties depend on has changed. */
  predicate SameDuties(b: Bridge, c: Bridge) {
    c.bridgeId == b.bridgeId && c.root == b.root && c.times == b.times && Bare(c) == Bare(b)
  }

  lemma SameIsDutiful(b: Bridge, c: Bridge)
    requires Dutiful(b) && SameDuties(b, c)
    ensures Dutiful(c)
  {
  }

  // ----- reselection

  lemma ReselectDetects(b: Bridge)
    ensures var u := ConfigurationUpdate(b);
            && MayDetect(u, Reselect(b)) && u.bridgeId == b.bridgeId && u.times == b.times && u.signals == b.signals
  {
    DesignatedSelectionPointwise(RootSelection(b), 0);
    SelectionDetects(ConfigurationUpdate(b), 0);
  }

  /** Root before and after, or neither. */
  lemma ReselectIsDutiful(b: Bridge, d: Bridge)
    requires Dutiful(b) && d.times == b.times && Bare(d) == Bare(b)
    requires IsRoot(Reselect(d)) <==> IsRoot(b)
    ensures Dutiful(Reselect(d))
  {
    ReselectDetects(d);
    var u := ConfigurationUpdate(d);
    hide ConfigurationUpdate, Reselect;
    assert IsRoot(u) <==> IsRoot(b);
    assert Dutiful(u);
    DetectionIsDutiful(u, Reselect(d));
  }

  lemma BecomeRootIsDutiful(b: Bridge)
    requires IsRoot(b)
    ensures Dutiful(BecomeRootBridge(b))
  {
    var c := TopologyChangeDetection(b.(times := OwnTimes(b.times)));
    GenerationSignals(c.(signals := c.signals.(tcn := Stop(c.signals.tcn))), 0);
    hide ConfigGeneration;
  }

  lemma ReselectAsRootIsDutiful(b: Bridge, d: Bridge)
    requires Dutiful(b) && d.times == b.times && Bare(d) == Bare(b)
    requires IsRoot(b) ==> IsRoot(Reselect(d))
    ensures Dutiful(ReselectAsRoot(d, IsRoot(b)))
  {
    if IsRoot(Reselect(d)) && !IsRoot(b) {
      hide Reselect;
      BecomeRootIsDutiful(Reselect(d));
    } else {
      hide Reselect;
      ReselectIsDutiful(b, d);
    }
  }

  // ----- roots stay roots

  /** A bridge is root exactly if it has no candidate. */
  lemma RootHasNoCandidate(b: Bridge)
    requires Sound(b)
    ensures IsRoot(b) <==> forall i: PortNo :: !Candidate(b, b.ports[i])
    ensures IsRoot(b) ==> forall i: PortNo :: Enabled(b.ports[i]) ==> b.ports[i].designated.root == b.bridgeId
  {
    SettledMeans(b);
    SettledClaim(b);
    forall i: PortNo | IsRoot(b) && Enabled(b.ports[i]) ensures b.ports[i].designated.root == b.bridgeId {
      OwnRecord(b, i);
    }
  }

  lemma ReselectRoot(d: Bridge)
    requires Numbered(d)
    ensures IsRoot(Reselect(d)) <==> forall i: PortNo :: !Candidate(d, d.ports[i])
    ensures Reselect(d).bridgeId == d.bridgeId
  {
    UpdateEffect(d);
    ReselectDetects(d);
    hide ConfigurationUpdate, Reselect, RootScan;
  }

  // ----- BPDUs

  /** A BPDU that claims to come from this very port takes away the only candidate. */
  predicate Usurping(b: Bridge, i: PortNo, config: Config) {
    && !IsRoot(b) && Accepted(b, i, config) && !Foreign(b, i, config.vector)
    && forall j: PortNo :: j != i ==> !Candidate(b, b.ports[j])
  }

  lemma OnlyUsurpingMakesRoot(b: Bridge, i: PortNo, config: Config)
    requires Sound(b) && Accepted(b, i, config) && !IsRoot(b)
    ensures IsRoot(Reselect(RecordConfig(b, i, config))) <==> Usurping(b, i, config)
  {
    var r := RecordConfig(b, i, config);
    SettledClaim(b);
    SettledMeans(b);
    AcceptedImproves(b, i, config);
    ReselectRoot(r);
    assert Foreign(b, i, config.vector) ==> Candidate(r, r.ports[b.rootPort]);
    assert forall j: PortNo :: j != i ==> (Candidate(r, r.ports[j]) <==> Candidate(b, b.ports[j]));
  }

  lemma LoseRootIsDutiful(b: Bridge, d: Bridge)
    requires Dutiful(b) && IsRoot(b) && Bare(d) == Bare(b) && !IsRoot(Reselect(d))
    ensures Dutiful(LoseRoot(Reselect(d)))
  {
    ReselectDetects(d);
    hide ConfigurationUpdate, Reselect;
  }

  lemma FollowIsDutiful(b: Bridge, config: Config)
    requires Dutiful(b) && !IsRoot(b)
    ensures Dutiful(FollowRoot(b, config))
  {
    GenerationSignals(TakenOver(b, config), 0);
    hide ConfigGeneration;
  }

  /** A BPDU leaves the duties in order exactly if it is not usurping. */
  lemma BpduIsDutiful(b: Bridge, i: PortNo, config: Config)
    requires Sound(b) && Dutiful(b)
    ensures Dutiful(ReceivedConfig(b, i, config)) <==> !Usurping(b, i, config)
  {
    if Accepted(b, i, config) {
      var r := RecordConfig(b, i, config);
      var c, d := Reselect(r), Recorded(b, i, config);
      ReselectDetects(r);
      RecordedLogs(b, i, config);
      if !IsRoot(b) {
        OnlyUsurpingMakesRoot(b, i, config);
      }
      if i == d.rootPort {
        RootPortIsSubordinate(r, d, i);
      }
      hide Reselect, ConfigurationUpdate;
      if Usurping(b, i, config) {
        assert IsRoot(c) && !Bare(c).hello.active;
      } else {
        if IsRoot(b) && !IsRoot(c) {
          LoseRootIsDutiful(b, r);
        } else {
          ReselectIsDutiful(b, r);
        }
        if i == d.rootPort {
          FollowIsDutiful(d, config);
        }
      }
    } else {
      SameIsDutiful(b, ReceivedConfig(b, i, config));
    }
  }

  lemma RootPortIsSubordinate(r: Bridge, d: Bridge, i: PortNo)
    requires Numbered(r) && SameCore(Reselect(r), d) && d.rootPort == i
    ensures !IsRoot(d)
  {
    UpdateEffect(r);
    StateSelectionPointwise(ConfigurationUpdate(r), 0);
    hide ConfigurationUpdate, StateSelection;
  }

  // ----- management

  /** A larger id for a root bridge that blocks a port makes it take its old self for root. */
  predicate Unrooting(b: Bridge, id: nat) {
    && IsRoot(b) && id > b.bridgeId
    && exists i: PortNo :: Undesignated(b, id, b.ports[i])
  }

  predicate Undesignated(b: Bridge, id: nat, p: Port) {
    Enabled(p) && !IsDesignated(b, p) && (p.designated.bridge != id || p.designated.port != p.portId)
  }

  lemma RenamedCandidates(b: Bridge, id: nat)
    requires Sound(b) && IsRoot(b) && id != b.bridgeId
    ensures var d := RenameDesignated(b, 0, id).(bridgeId := id);
            && (forall i: PortNo :: Candidate(d, d.ports[i]) <==> id > b.bridgeId && Undesignated(b, id, b.ports[i]))
            && Numbered(d) && d.times == b.times && Bare(d) == Bare(b)
  {
    RenamePointwise(b, 0, id);
    RootHasNoCandidate(b);
    forall i: PortNo | Enabled(b.ports[i]) && IsDesignated(b, b.ports[i])
      ensures b.ports[i].designated == Own(b, b.ports[i])
    {
      OwnRecord(b, i);
    }
  }

  lemma RenameIsDutiful(b: Bridge, id: nat)
    requires Sound(b) && Dutiful(b)
    ensures Dutiful(SetBridgeId(b, id)) <==> !Unrooting(b, id)
  {
    if id != b.bridgeId {
      var d := RenameDesignated(b, 0, id).(bridgeId := id);
      RenamePointwise(b, 0, id);
      if IsRoot(b) {
        RenamedCandidates(b, id);
      }
      ReselectRoot(d);
      ReselectDetects(d);
      hide Reselect, ConfigurationUpdate, RenameDesignated;
      if Unrooting(b, id) {
        var i: PortNo :| Undesignated(b, id, b.ports[i]);
        assert Candidate(d, d.ports[i]);
        assert !IsRoot(Reselect(d)) && Bare(Reselect(d)).hello.active;
      } else {
        ReselectAsRootIsDutiful(b, d);
      }
    }
  }

  lemma DetachIsDutiful(b: Bridge, i: PortNo)
    requires Sound(b) && Dutiful(b)
    ensures Dutiful(DisablePort(b, i))
  {
    var d := Detach(b, i);
    RootHasNoCandidate(b);
    ReselectRoot(d);
    hide Reselect;
    ReselectAsRootIsDutiful(b, d);
  }

  lemma CostIsDutiful(b: Bridge, i: PortNo, cost: nat)
    requires Sound(b) && Dutiful(b)
    ensures Dutiful(SetPathCost(b, i, cost))
  {
    var d := SetPort(b, i, b.ports[i].(pathCost := cost));
    RootHasNoCandidate(b);
    ReselectRoot(d);
    assert forall j: PortNo :: Candidate(d, d.ports[j]) <==> Candidate(b, b.ports[j]);
    hide Reselect;
    ReselectIsDutiful(b, d);
  }

  lemma EnableIsDutiful(b: Bridge, i: PortNo)
    requires Dutiful(b)
    ensures Dutiful(EnablePort(b, i))
  {
    var c := InitializePort(b, i, Blocking);
    assert SameDuties(b, c);
    SelectionDetects(c, 0);
    hide InitializePort, StateSelection;
    SameIsDutiful(b, c);
    if !Enabled(b.ports[i]) {
      DetectionIsDutiful(c, EnablePort(b, i));
    }
  }

  lemma PriorityIsDutiful(b: Bridge, i: PortNo, priority: nat)
    requires Dutiful(b)
    ensures Dutiful(SetPriority(b, i, priority))
  {
    var c := Reprioritized(b, i, priority);
    var d := BecomeDesignated(c, i);
    SelectionDetects(d, 0);
    assert SameDuties(b, c) && SameDuties(b, d);
    SameIsDutiful(b, c);
    SameIsDutiful(b, d);
    hide StateSelection;
    DetectionIsDutiful(d, StateSelection(d, 0));
  }

  lemma TcnIsDutiful(b: Bridge, i: PortNo)
    requires Dutiful(b)
    ensures Dutiful(ReceivedTcn(b, i))
  {
    var c := TopologyChangeDetection(b);
    DetectionIsDutiful(b, c);
    var p := c.ports[i];
    var d := SetPort(c, i, p.(out := p.out.(topologyChangeAck := true)));
    SameIsDutiful(c, d);
    SameIsDutiful(d, TransmitConfig(d, i));
  }

  // ----- ticks

  lemma TimersAreDutiful(b: Bridge, elapsed: nat)
    requires Dutiful(b)
    ensures Dutiful(TopologyChangeTick(TcnTick(HelloTick(b, elapsed), elapsed), elapsed))
  {
    var t := b.signals.hello;
    var a := b.(signals := b.signals.(hello := Advance(t, elapsed, b.times.helloTime)));
    GenerationSignals(a, 0);
    hide ConfigGeneration;
    var h := HelloTick(b, elapsed);
    assert Dutiful(h);
    hide HelloTick;
    var k := TcnTick(h, elapsed);
    assert Dutiful(k);
    hide TcnTick;
  }

  lemma AgePortIsDutiful(b: Bridge, i: PortNo, elapsed: nat)
    requires Sound(b) && Dutiful(b)
    ensures Dutiful(AgePort(b, i, elapsed))
  {
    var c := SetPort(b, i, b.ports[i].(messageAge := Advance(b.ports[i].messageAge, elapsed, b.times.maxAge)));
    var d := BecomeDesignated(c, i);
    assert SameDuties(b, c) && SameDuties(b, d);
    SameIsDutiful(b, c);
    RootHasNoCandidate(b);
    ReselectRoot(d);
    hide Reselect;
    ReselectAsRootIsDutiful(c, d);
  }

  lemma {:induction false} AgePortsAreDutiful(b: Bridge, i: nat, elapsed: nat)
    requires Sound(b) && Dutiful(b) && i <= MAX_PORTS
    ensures Dutiful(AgePorts(b, i, elapsed))
    decreases MAX_PORTS - i
  {
    hide Sound, Dutiful;
    if i < MAX_PORTS {
      if Enabled(b.ports[i]) {
        AgePortSound(b, i, elapsed);
        AgePortIsDutiful(b, i, elapsed);
        hide AgePort;
        AgePortsAreDutiful(AgePort(b, i, elapsed), i + 1, elapsed);
      } else {
        AgePortsAreDutiful(b, i + 1, elapsed);
      }
    }
  }

  lemma AdvanceOneDetects(b: Bridge, i: PortNo, elapsed: nat)
    ensures MayDetect(b, AdvanceHold(AdvanceForwardDelay(b, i, elapsed), i, elapsed))
  {
    var c := AdvanceForwardDelay(b, i, elapsed);
    assert MayDetect(b, c);
    hide AdvanceForwardDelay;
    assert MayDetect(c, AdvanceHold(c, i, elapsed));
    hide AdvanceHold;
    DetectsOnce(b, c, AdvanceHold(c, i, elapsed));
  }

  lemma {:induction false} AdvanceDetects(b: Bridge, i: nat, elapsed: nat)
    requires i <= MAX_PORTS
    ensures MayDetect(b, AdvancePorts(b, i, elapsed))
    decreases MAX_PORTS - i
  {
    if i < MAX_PORTS {
      if Enabled(b.ports[i]) {
        var d := AdvanceHold(AdvanceForwardDelay(b, i, elapsed), i, elapsed);
        AdvanceOneDetects(b, i, elapsed);
        hide AdvanceForwardDelay, AdvanceHold, MayDetect;
        AdvanceDetects(d, i + 1, elapsed);
        DetectsOnce(b, d, AdvancePorts(d, i + 1, elapsed));
      } else {
        AdvanceDetects(b, i + 1, elapsed);
      }
    }
  }

  lemma TickIsDutiful(b: Bridge, elapsed: nat)
    requires Sound(b) && Dutiful(b)
    ensures Dutiful(Tick(b, elapsed))
  {
    var c := TopologyChangeTick(TcnTick(HelloTick(b, elapsed), elapsed), elapsed);
    TimersAreDutiful(b, elapsed);
    TimerFrames(b, elapsed);
    CoreSound(b, c);
    hide TopologyChangeTick, TcnTick, HelloTick, Sound, Dutiful;
    AgePortsAreDutiful(c, 0, elapsed);
    var d := AgePorts(c, 0, elapsed);
    AdvanceDetects(d, 0, elapsed);
    DetectionIsDutiful(d, AdvancePorts(d, 0, elapsed));
  }

  // ----- runs

  /** The two calls after which the duties are not in order. */
  predicate Upsetting(b: Bridge, e: Event) {
    match e
    case Bpdu(i, config) => Usurping(b, i, config)
    case BridgeMac(mac) => Unrooting(b, WithMac(b.bridgeId, mac))
    case BridgePriority(priority) => Unrooting(b, WithPriority(b.bridgeId, priority))
    case _ => false
  }

  /** A call leaves the duties in order exactly if it is not upsetting. */
  lemma StepIsDutiful(b: Bridge, e: Event)
    requires Sound(b) && Dutiful(b)
    ensures Dutiful(Step(b, e)) <==> !Upsetting(b, e)
  {
    hide Sound, Unrooting, Usurping, WithMac, WithPriority;
    match e
    case Ticks(elapsed) => TickIsDutiful(b, elapsed);
    case Bpdu(i, config) => BpduIsDutiful(b, i, config);
    case Tcn(i) => TcnIsDutiful(b, i);
    case Enable(i) => EnableIsDutiful(b, i);
    case Disable(i) => DetachIsDutiful(b, i);
    case Priority(i, priority) => PriorityIsDutiful(b, i, priority);
    case PathCost(i, cost) => CostIsDutiful(b, i, cost);
    case Speed(i, speed) => CostIsDutiful(b, i, SpeedCost(speed));
    case BridgeMac(mac) => RenameIsDutiful(b, WithMac(b.bridgeId, mac));
    case BridgePriority(priority) => RenameIsDutiful(b, WithPriority(b.bridgeId, priority));
    case ChangeDetection(i, on) => SameIsDutiful(b, Step(b, e));
    case ChangedPort => SameIsDutiful(b, Step(b, e));
    case _ =>
  }

  predicate Peaceful(b: Bridge, events: seq<Event>) {
    events != [] ==>
      var front := events[..|events| - 1];
      Peaceful(b, front) && !Upsetting(Run(b, front), events[|events| - 1])
  }

  /** After every orderly run without an upsetting call the duties are in order. */
  lemma {:induction false} RunIsDutiful(id: nat, events: seq<Event>)
    requires Orderly(Create(id), events) && Peaceful(Create(id), events)
    ensures Dutiful(Run(Create(id), events))
  {
    if events != [] {
      var front := events[..|events| - 1];
      RunIsDutiful(id, front);
      RunSettled(id, front);
      hide Sound, Dutiful, Upsetting, Step, Create;
      StepIsDutiful(Run(Create(id), front), events[|events| - 1]);
    }
  }

  // ----- both upsetting calls happen

  lemma OpeningIsPeaceful(id: nat, config: Config, i: PortNo)
    requires config.messageAge < config.maxAge
    ensures var events := [Enable(0), Enable(1), Bpdu(i, config)];
            && Opening(EnablePort(EnablePort(Create(id), 0), 1), 2)
            && Run(Create(id), events) == ReceivedConfig(EnablePort(EnablePort(Create(id), 0), 1), i, config)
            && Orderly(Create(id), events) && Peaceful(Create(id), events)
  {
    var a := Create(id);
    var events := [Enable(0), Enable(1), Bpdu(i, config)];
    CreateOpens(id);
    EnableOpens(a, 0);
    EnableOpens(EnablePort(a, 0), 1);
    OrdinaryIsOrderly(a, events);
    RunOfThree(a, Enable(0), Enable(1), Bpdu(i, config));
    hide Create, EnablePort, ReceivedConfig, Orderly;
    PeacefulStart(a, Enable(0), Enable(1), Bpdu(i, config));
  }

  lemma PeacefulStart(a: Bridge, d: Event, e: Event, f: Event)
    requires d.Enable? && e.Enable? && f.Bpdu? && IsRoot(Step(Step(a, d), e))
    ensures Peaceful(a, [d, e, f])
  {
    RunOfTwo(a, d, e);
    assert [d, e, f][..2] == [d, e] && [d, e][..1] == [d] && [d][..0] == [];
    hide Step, Run;
    assert Peaceful(a, []) && Peaceful(a, [d]) && Peaceful(a, [d, e]);
  }

  /** Port 1 hears port 0 of the same bridge. */
  function Echo(b: Bridge): Config { Config(Own(b, b.ports[0]), 0, 10, 10, 10, false, false) }

  lemma EchoBlocks(b: Bridge)
    requires Opening(b, 2)
    ensures var c := ReceivedConfig(b, 1, Echo(b));
            && IsRoot(c) && c.bridgeId == b.bridgeId && Enabled(c.ports[1]) && !IsDesignated(c, c.ports[1])
            && c.ports[1].designated.bridge == b.bridgeId
  {
    assert Best(RecordConfig(b, 1, Echo(b)), -1, MAX_PORTS);
    BpduSelects(b, 1, Echo(b), -1);
    hide ReceivedConfig;
  }

  /** A root with two ports on one segment, given a larger id, takes its old id for the
      root, and sends hellos as if it were root. */
  lemma LargerIdUpsets(id: nat, priority: nat) returns (events: seq<Event>)
    requires WithPriority(Create(id).bridgeId, priority) > Create(id).bridgeId
    ensures var b := Run(Create(id), events);
            Orderly(Create(id), events) && Dutiful(b) && !Dutiful(Step(b, BridgePriority(priority)))
  {
    var b := EnablePort(EnablePort(Create(id), 0), 1);
    var config := Echo(b);
    events := [Enable(0), Enable(1), Bpdu(1, config)];
    OpeningIsPeaceful(id, config, 1);
    EchoBlocks(b);
    var c := Run(Create(id), events);
    RunIsDutiful(id, events);
    RunSettled(id, events);
    EnableKeepsId(Create(id));
    hide Create, EnablePort, ReceivedConfig, Run, Orderly, Peaceful, Dutiful, Sound, WithPriority;
    assert Undesignated(c, WithPriority(c.bridgeId, priority), c.ports[1]);
    StepIsDutiful(c, BridgePriority(priority));
  }

  lemma EnableKeepsId(b: Bridge)
    ensures EnablePort(EnablePort(b, 0), 1).bridgeId == b.bridgeId
  {
    SelectionSameVectors(InitializePort(b, 0, Blocking), 0);
    SelectionSameVectors(InitializePort(EnablePort(b, 0), 1, Blocking), 0);
  }

  /** A BPDU in the name of the port itself makes a bridge root that does not know it. */
  lemma OwnBpduUpsets(id: nat) returns (events: seq<Event>, own: Config)
    ensures var b := Run(Create(id), events);
            Orderly(Create(id), events) && Dutiful(b) && !Dutiful(Step(b, Bpdu(0, own)))
  {
    var b := EnablePort(EnablePort(Create(id), 0), 1);
    events := [Enable(0), Enable(1), Bpdu(0, Offer(b))];
    OpeningIsPeaceful(id, Offer(b), 0);
    FirstOffer(b);
    var c := Run(Create(id), events);
    RunIsDutiful(id, events);
    RunSettled(id, events);
    own := Config(Vector(3, 0, c.bridgeId, c.ports[0].portId), 0, 10, 10, 10, false, false);
    hide Create, EnablePort, ReceivedConfig, Run, Orderly, Peaceful, Dutiful, Sound;
    assert Usurping(c, 0, own);
    StepIsDutiful(c, Bpdu(0, own));
  }
}
