/** Every run of public calls keeps the invariants of the spanning tree entity. */
module StpRuns {
  import opened StpModel
  import opened StpSelection
  import opened StpInvariants

  /** `c` is a good successor of the good state `b`, reached without moving any
      port towards forwarding. */
  predicate Safe(b: Bridge, c: Bridge) { Inv(c) && Calm(b, c) && (Dominated(b) ==> Dominated(c)) }

  lemma SafeTransitive(b: Bridge, c: Bridge, d: Bridge)
    requires Safe(b, c) && Safe(c, d)
    ensures Safe(b, d)
  {
  }

  lemma CoreSafe(b: Bridge, c: Bridge)
    requires Inv(b) && SameCore(b, c)
    ensures Safe(b, c)
  {
    CoreKeeps(b, c);
  }

  /** Reselecting from a weakly consistent, calm modification of `b` is safe. */
  lemma ReselectSafe(b: Bridge, c: Bridge, wasRoot: bool)
    requires Weak(c) && Calm(b, c)
    ensures Safe(b, Reselect(c)) && Safe(b, ReselectAsRoot(c, wasRoot))
  {
    ReselectRestores(c);
    ReselectAsRootRestores(c, wasRoot);
  }

  // ----- BPDU arrival

  lemma SignalFrames(b: Bridge, config: Config)
    ensures SameCore(b, TopologyChangeDetection(b)) && SameCore(b, TransmitTcn(b))
    ensures SameCore(b, LoseRoot(b)) && SameCore(b, FollowRoot(b, config))
  {
    ConfigGenerationFrame(
      b.(times := b.times.(maxAge := config.maxAge, helloTime := config.helloTime,
                           forwardDelay := config.forwardDelay),
         signals := b.signals.(topologyChange := config.topologyChange)), 0);
  }

  lemma RecordKeeps(b: Bridge, i: PortNo, config: Config)
    requires Weak(b)
    ensures Weak(RecordConfig(b, i, config)) && Calm(b, RecordConfig(b, i, config))
  {
    var c := RecordConfig(b, i, config);
    forall j: PortNo ensures PortOk(c, c.ports[j]) {
      assert PortOk(b, b.ports[j]);
    }
  }

  predicate Accepted(b: Bridge, i: PortNo, config: Config) {
    && config.messageAge < config.maxAge && Enabled(b.ports[i])
    && SupersedesPortInfo(b.bridgeId, b.ports[i], config.vector)
  }

  /** An accepted BPDU acts on the tree by recording and reselecting only. */
  lemma AcceptedCore(b: Bridge, i: PortNo, config: Config)
    requires Accepted(b, i, config)
    ensures SameCore(Reselect(RecordConfig(b, i, config)), ReceivedConfig(b, i, config))
  {
    var c := Reselect(RecordConfig(b, i, config));
    var d := if !IsRoot(c) && IsRoot(b) then LoseRoot(c) else c;
    SignalFrames(c, config);
    SignalFrames(d, config);
  }

  lemma ReceivedConfigKeeps(b: Bridge, i: PortNo, config: Config)
    requires Inv(b)
    ensures Safe(b, ReceivedConfig(b, i, config))
  {
    if Accepted(b, i, config) {
      var r := RecordConfig(b, i, config);
      RecordKeeps(b, i, config);
      ReselectSafe(b, r, IsRoot(b));
      AcceptedCore(b, i, config);
      CoreSafe(Reselect(r), ReceivedConfig(b, i, config));
      SafeTransitive(b, Reselect(r), ReceivedConfig(b, i, config));
    } else {
      TransmitConfigFrame(b, i);
      CoreSafe(b, ReceivedConfig(b, i, config));
    }
  }

  lemma ReceivedTcnKeeps(b: Bridge, i: PortNo)
    ensures SameCore(b, ReceivedTcn(b, i))
  {
    var c := TopologyChangeDetection(b);
    var d := SetPort(c, i, c.ports[i].(out := c.ports[i].out.(topologyChangeAck := true)));
    assert SameCore(b, d);
    TransmitConfigFrame(d, i);
  }

  // ----- management

  /** Installing a designated, non-ageing port in slot `i` keeps the weak invariant. */
  lemma InstallPort(b: Bridge, c: Bridge, i: PortNo)
    requires Weak(b) && SameTree(b, c) && Tracked(c)
    requires forall j: PortNo :: j != i ==> c.ports[j] == b.ports[j]
    requires c.ports[i].portId == b.ports[i].portId && IsDesignated(c, c.ports[i])
    requires !c.ports[i].forwardDelay.active
    requires !c.ports[i].state.Listening? && !c.ports[i].state.Learning?
    ensures Weak(c)
  {
    forall j: PortNo ensures PortOk(c, c.ports[j]) {
      assert PortOk(b, b.ports[j]);
    }
  }

  lemma EnablePortKeeps(b: Bridge, i: PortNo)
    requires Inv(b)
    ensures Safe(b, EnablePort(b, i))
  {
    if !Enabled(b.ports[i]) {
      var c := InitializePort(b, i, Blocking);
      InstallPort(b, c, i);
      if Dominated(b) {
        forall j: PortNo ensures DominatedPort(c, c.ports[j]) {
          assert DominatedPort(b, b.ports[j]);
        }
      }
      SelectionKeeps(c);
      SelectionCalm(c);
    }
  }

  lemma DisablePortKeeps(b: Bridge, i: PortNo)
    requires Inv(b)
    ensures Safe(b, DisablePort(b, i))
  {
    if Enabled(b.ports[i]) {
      InstallPort(b, Detach(b, i), i);
      ReselectSafe(b, Detach(b, i), IsRoot(b));
    }
  }

  lemma SetPathCostKeeps(b: Bridge, i: PortNo, cost: nat)
    requires Inv(b)
    ensures Safe(b, SetPathCost(b, i, cost))
  {
    var c := SetPort(b, i, b.ports[i].(pathCost := cost));
    forall j: PortNo ensures PortOk(c, c.ports[j]) {
      assert PortOk(b, b.ports[j]);
    }
    ReselectSafe(b, c, IsRoot(b));
  }

  function Renamed(b: Bridge, p: Port, id: nat): Port {
    if Enabled(p) && IsDesignated(b, p) then p.(designated := p.designated.(bridge := id)) else p
  }

  lemma {:induction false} RenamePointwise(b: Bridge, i: nat, id: nat)
    requires i <= MAX_PORTS
    ensures var c := RenameDesignated(b, i, id);
            c == b.(ports := c.ports)
            && forall j: PortNo :: c.ports[j] == if j < i then b.ports[j] else Renamed(b, b.ports[j], id)
    decreases MAX_PORTS - i
  {
    if i < MAX_PORTS {
      var p := b.ports[i];
      if Enabled(p) && IsDesignated(b, p) {
        RenamePointwise(SetPort(b, i, p.(designated := p.designated.(bridge := id))), i + 1, id);
      } else {
        RenamePointwise(b, i + 1, id);
      }
    }
  }

  lemma RenameKeeps(b: Bridge, id: nat)
    requires Weak(b)
    ensures var c := RenameDesignated(b, 0, id).(bridgeId := id); Weak(c) && Calm(b, c)
  {
    RenamePointwise(b, 0, id);
    var c := RenameDesignated(b, 0, id).(bridgeId := id);
    forall j: PortNo ensures PortOk(c, c.ports[j]) {
      assert PortOk(b, b.ports[j]);
    }
  }

  lemma SetBridgeIdKeeps(b: Bridge, id: nat)
    requires Inv(b)
    ensures Safe(b, SetBridgeId(b, id))
  {
    RenameKeeps(b, id);
    ReselectSafe(b, RenameDesignated(b, 0, id).(bridgeId := id), IsRoot(b));
  }

  /** The port whose id `SetPriority` is about to change, and its new id. */
  function Reprioritized(b: Bridge, i: PortNo, priority: nat): Bridge {
    var p := b.ports[i];
    var id := PriorityId(p, priority);
    SetPort(b, i, (if IsDesignated(b, p) then p.(designated := p.designated.(port := id)) else p)
                  .(portId := id))
  }

  lemma ReprioritizedKeeps(b: Bridge, i: PortNo, priority: nat)
    requires Inv(b)
    ensures Inv(Reprioritized(b, i, priority))
  {
    var c := Reprioritized(b, i, priority);
    assert c.ports[i].portId % 256 == i + 1;
    forall j: PortNo ensures PortOk(c, c.ports[j]) {
      assert PortOk(b, b.ports[j]);
    }
  }

  lemma BecomeDesignatedKeeps(b: Bridge, i: PortNo)
    requires Inv(b)
    ensures Inv(BecomeDesignated(b, i))
  {
    var c := BecomeDesignated(b, i);
    forall j: PortNo ensures PortOk(c, c.ports[j]) {
      assert PortOk(b, b.ports[j]);
    }
  }

  lemma SetPriorityKeeps(b: Bridge, i: PortNo, priority: nat)
    requires Inv(b)
    ensures Inv(SetPriority(b, i, priority)) && Calm(b, SetPriority(b, i, priority))
  {
    ReprioritizedKeeps(b, i, priority);
    var c := Reprioritized(b, i, priority);
    BecomeDesignatedKeeps(c, i);
    SelectionKeeps(BecomeDesignated(c, i));
    SelectionCalm(BecomeDesignated(c, i));
  }

  lemma ChangeDetectionKeeps(b: Bridge, i: PortNo, on: bool)
    requires Inv(b)
    ensures Safe(b, SetPort(b, i, b.ports[i].(changeDetection := on)))
  {
    var c := SetPort(b, i, b.ports[i].(changeDetection := on));
    forall j: PortNo
      ensures PortOk(c, c.ports[j]) && (DominatedPort(b, b.ports[j]) ==> DominatedPort(c, c.ports[j]))
    {
      assert PortOk(b, b.ports[j]);
    }
  }

  lemma TakeChangedKeeps(b: Bridge)
    requires Inv(b)
    ensures Safe(b, TakeChanged(b))
  {
    var c := TakeChanged(b);
    forall j: PortNo
      ensures PortOk(c, c.ports[j]) && (DominatedPort(b, b.ports[j]) ==> DominatedPort(c, c.ports[j]))
    {
      assert PortOk(b, b.ports[j]);
    }
  }

  /** Changed ports are reported lowest first, and a report of none means there
      is none. */
  lemma TakeChangedReportsFirst(b: Bridge)
    requires Tracked(b)
    ensures var r := FirstChangedFrom(b.ports, b.firstChanged);
            && (forall j: PortNo :: j < r ==> !b.ports[j].stateChanged)
            && (r == MAX_PORTS <==> forall j: PortNo :: !b.ports[j].stateChanged)
  {
  }

  // ----- time

  lemma TimerFrames(b: Bridge, elapsed: nat)
    ensures var c := TopologyChangeTick(TcnTick(HelloTick(b, elapsed), elapsed), elapsed);
            SameCore(b, c) && c.times == b.times
  {
    var t := b.signals.hello;
    ConfigGenerationFrame(b.(signals := b.signals.(hello := Advance(t, elapsed, b.times.helloTime))), 0);
    var h := HelloTick(b, elapsed);
    assert SameCore(b, h) && h.times == b.times;
    var k := TcnTick(h, elapsed);
    assert SameCore(h, k) && k.times == h.times;
  }

  lemma AgePortKeeps(b: Bridge, i: PortNo, elapsed: nat)
    requires Inv(b) && Enabled(b.ports[i])
    ensures Safe(b, AgePort(b, i, elapsed))
  {
    var t := b.ports[i].messageAge;
    var c := SetPort(b, i, b.ports[i].(messageAge := Advance(t, elapsed, b.times.maxAge)));
    if Expired(t, elapsed, b.times.maxAge) {
      var d := BecomeDesignated(c, i);
      forall j: PortNo ensures PortOk(d, d.ports[j]) {
        assert PortOk(b, b.ports[j]);
      }
      ReselectSafe(b, d, IsRoot(c));
    } else {
      forall j: PortNo
        ensures PortOk(c, c.ports[j]) && (DominatedPort(b, b.ports[j]) ==> DominatedPort(c, c.ports[j]))
      {
        assert PortOk(b, b.ports[j]);
      }
    }
  }

  lemma {:induction false} AgePortsKeeps(b: Bridge, i: nat, elapsed: nat)
    requires Inv(b) && i <= MAX_PORTS
    ensures Safe(b, AgePorts(b, i, elapsed))
    decreases MAX_PORTS - i
  {
    if i < MAX_PORTS {
      if Enabled(b.ports[i]) {
        var c := AgePort(b, i, elapsed);
        AgePortKeeps(b, i, elapsed);
        AgePortsKeeps(c, i + 1, elapsed);
        SafeTransitive(b, c, AgePorts(c, i + 1, elapsed));
      } else {
        AgePortsKeeps(b, i + 1, elapsed);
      }
    }
  }

  /** At most one step from listening over learning to forwarding. */
  predicate Onward(s: PortState, t: PortState) {
    t == s || (s.Listening? && t.Learning?) || (s.Learning? && t.Forwarding?)
  }

  /** Only the state, its timer and the outbox of port `i` may differ. */
  predicate StateMoved(b: Bridge, c: Bridge, i: PortNo) {
    && SameTree(b, c)
    && (forall j: PortNo :: j != i ==> c.ports[j] == b.ports[j])
    && (var p := b.ports[i]; var q := c.ports[i];
        q == p.(state := q.state, stateChanged := q.stateChanged,
                forwardDelay := q.forwardDelay, out := q.out))
    && Onward(b.ports[i].state, c.ports[i].state) && (Tracked(b) ==> Tracked(c))
    && (PortOk(b, b.ports[i]) ==> PortOk(c, c.ports[i]))
  }

  lemma StateMovedKeeps(b: Bridge, c: Bridge, i: PortNo)
    requires Inv(b) && StateMoved(b, c, i)
    ensures Inv(c) && (Dominated(b) ==> Dominated(c))
  {
    forall j: PortNo
      ensures PortOk(c, c.ports[j]) && (DominatedPort(b, b.ports[j]) ==> DominatedPort(c, c.ports[j]))
    {
      assert PortOk(b, b.ports[j]);
    }
  }

  lemma ForwardDelayMoves(b: Bridge, i: PortNo, elapsed: nat)
    requires PortOk(b, b.ports[i])
    ensures StateMoved(b, AdvanceForwardDelay(b, i, elapsed), i)
  {
    var p := b.ports[i];
    var c := SetPort(b, i, p.(forwardDelay := Advance(p.forwardDelay, elapsed, b.times.forwardDelay)));
    if Expired(p.forwardDelay, elapsed, b.times.forwardDelay) {
      var d := SetPortState(c, i, if p.state.Listening? then Learning else Forwarding);
      assert SameTree(b, d) && (Tracked(b) ==> Tracked(d));
      assert p.state.Learning? ==> TopologyChangeDetection(d).ports == d.ports;
    }
  }

  lemma HoldMoves(b: Bridge, i: PortNo, elapsed: nat)
    ensures StateMoved(b, AdvanceHold(b, i, elapsed), i)
    ensures AdvanceHold(b, i, elapsed).ports[i].state == b.ports[i].state
  {
  }

  lemma AdvanceOneKeeps(b: Bridge, i: PortNo, elapsed: nat)
    requires Inv(b)
    ensures var d := AdvanceHold(AdvanceForwardDelay(b, i, elapsed), i, elapsed);
            && Inv(d) && (Dominated(b) ==> Dominated(d)) && SameTree(b, d) && Kept(b, d)
            && (forall j: PortNo :: j != i ==> d.ports[j] == b.ports[j])
            && Onward(b.ports[i].state, d.ports[i].state)
  {
    assert PortOk(b, b.ports[i]);
    var c := AdvanceForwardDelay(b, i, elapsed);
    var d := AdvanceHold(c, i, elapsed);
    ForwardDelayMoves(b, i, elapsed);
    HoldMoves(c, i, elapsed);
    hide AdvanceForwardDelay, AdvanceHold;
    StateMovedKeeps(b, c, i);
    StateMovedKeeps(c, d, i);
    hide Inv, Dominated;
  }

  /** The last loop of a tick: ports at `i` and above move at most one state. */
  lemma {:induction false} AdvancePortsKeeps(b: Bridge, i: nat, elapsed: nat)
    requires Inv(b) && i <= MAX_PORTS
    ensures var c := AdvancePorts(b, i, elapsed);
            && Inv(c) && (Dominated(b) ==> Dominated(c)) && SameTree(b, c) && Kept(b, c)
            && forall j: PortNo :: c.ports[j].state.Forwarding?
                                   ==> b.ports[j].state.Forwarding? || (j >= i && b.ports[j].state.Learning?)
    decreases MAX_PORTS - i
  {
    if i < MAX_PORTS {
      if Enabled(b.ports[i]) {
        var d := AdvanceHold(AdvanceForwardDelay(b, i, elapsed), i, elapsed);
        AdvanceOneKeeps(b, i, elapsed);
        hide AdvanceForwardDelay, AdvanceHold, Inv, Dominated;
        AdvancePortsKeeps(d, i + 1, elapsed);
      } else {
        AdvancePortsKeeps(b, i + 1, elapsed);
      }
    }
  }

  lemma TickKeeps(b: Bridge, elapsed: nat)
    requires Inv(b)
    ensures var c := Tick(b, elapsed);
            && Inv(c) && (Dominated(b) ==> Dominated(c))
            && forall j: PortNo :: c.ports[j].state.Forwarding?
                                   ==> b.ports[j].state.Forwarding? || b.ports[j].state.Learning?
  {
    var c := TopologyChangeTick(TcnTick(HelloTick(b, elapsed), elapsed), elapsed);
    TimerFrames(b, elapsed);
    CoreSafe(b, c);
    AgePortsKeeps(c, 0, elapsed);
    var d := AgePorts(c, 0, elapsed);
    SafeTransitive(b, c, d);
    AdvancePortsKeeps(d, 0, elapsed);
  }

  // ----- steps and runs

  lemma SettingKeeps(b: Bridge, e: Event)
    requires Inv(b)
    requires e.HelloTime? || e.MaxAge? || e.ForwardDelay? || e.ChangeDetection? || e.ChangedPort?
    ensures Safe(b, Step(b, e))
  {
    if e.ChangeDetection? {
      ChangeDetectionKeeps(b, e.i, e.on);
    } else if e.ChangedPort? {
      TakeChangedKeeps(b);
    } else {
      CoreSafe(b, Step(b, e));
    }
  }

  lemma IdentityKeeps(b: Bridge, e: Event)
    requires Inv(b) && (e.BridgeMac? || e.BridgePriority?)
    ensures Safe(b, Step(b, e))
  {
    if e.BridgeMac? {
      SetBridgeIdKeeps(b, WithMac(b.bridgeId, e.mac));
    } else {
      SetBridgeIdKeeps(b, WithPriority(b.bridgeId, e.priority));
    }
  }

  lemma PortEventKeeps(b: Bridge, e: Event)
    requires Inv(b) && (e.Enable? || e.Disable? || e.PathCost? || e.Speed?)
    ensures Safe(b, Step(b, e))
  {
    if e.Enable? {
      EnablePortKeeps(b, e.i);
    } else if e.Disable? {
      DisablePortKeeps(b, e.i);
    } else {
      SetPathCostKeeps(b, e.i, if e.PathCost? then e.cost else SpeedCost(e.speed));
    }
  }

  lemma OtherStepKeeps(b: Bridge, e: Event)
    requires Inv(b) && !e.Ticks? && !e.Priority?
    ensures Safe(b, Step(b, e))
  {
    if e.Bpdu? {
      ReceivedConfigKeeps(b, e.i, e.config);
    } else if e.Tcn? {
      ReceivedTcnKeeps(b, e.i);
      CoreSafe(b, ReceivedTcn(b, e.i));
    } else if e.BridgeMac? || e.BridgePriority? {
      IdentityKeeps(b, e);
    } else if e.Enable? || e.Disable? || e.PathCost? || e.Speed? {
      PortEventKeeps(b, e);
    } else {
      SettingKeeps(b, e);
    }
  }

  lemma StepKeeps(b: Bridge, e: Event)
    requires Inv(b)
    ensures Inv(Step(b, e))
    ensures !e.Ticks? ==> Calm(b, Step(b, e))
    ensures !e.Priority? && Dominated(b) ==> Dominated(Step(b, e))
  {
    if e.Ticks? {
      TickKeeps(b, e.elapsed);
    } else if e.Priority? {
      SetPriorityKeeps(b, e.i, e.priority);
    } else {
      OtherStepKeeps(b, e);
    }
  }

  lemma CreateEstablishes(id: nat)
    ensures Inv(Create(id)) && Dominated(Create(id))
  {
  }

  /** Loop guard, root port, ageing and timer invariants after any sequence of
      public calls. */
  lemma {:induction false} RunInvariant(id: nat, events: seq<Event>)
    ensures Inv(Run(Create(id), events))
  {
    if events == [] {
      CreateEstablishes(id);
    } else {
      RunInvariant(id, events[..|events| - 1]);
      StepKeeps(Run(Create(id), events[..|events| - 1]), events[|events| - 1]);
    }
  }

  lemma RunOfTwo(b: Bridge, d: Event, e: Event)
    ensures Run(b, [d, e]) == Step(Step(b, d), e)
  {
    assert [d, e][..1] == [d] && [d][..0] == [];
    assert Run(b, []) == b && Run(b, [d]) == Step(b, d);
  }

  lemma RunOfThree(b: Bridge, d: Event, e: Event, f: Event)
    ensures Run(b, [d, e, f]) == Step(Step(Step(b, d), e), f)
  {
    assert [d, e, f][..2] == [d, e];
    RunOfTwo(b, d, e);
  }

  lemma RunOfFour(b: Bridge, d: Event, e: Event, f: Event, g: Event)
    ensures Run(b, [d, e, f, g]) == Step(Step(Step(Step(b, d), e), f), g)
  {
    assert [d, e, f, g][..3] == [d, e, f];
    RunOfThree(b, d, e, f);
  }

  /** In any run, a port turns forwarding only inside a tick, and only from learning. */
  lemma ForwardingOnlyFromLearning(id: nat, events: seq<Event>, e: Event, i: PortNo)
    ensures var b := Run(Create(id), events);
            !b.ports[i].state.Forwarding? && Step(b, e).ports[i].state.Forwarding?
            ==> e.Ticks? && b.ports[i].state.Learning?
  {
    RunInvariant(id, events);
    var b := Run(Create(id), events);
    StepKeeps(b, e);
    if e.Ticks? {
      TickKeeps(b, e.elapsed);
    }
  }
}
