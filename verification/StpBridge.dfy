/** The mutable spanning tree entity of `lib/stp.c`: each method updates the
    bridge in place and is proved to compute the function of the same name in
    `StpModel`, so everything proved there holds of the object.

    The object has the fields of `struct stp` and an array of ports; its abstract
    value collects them.  The loops over the enabled ports of the C code are loops
    here, each proved against the recursion over the port index that specifies it,
    and their invariants say which ports have been visited. */
module StpBridge {
  import opened StpModel
  import M = StpModel

  class Stp {
    var bridgeId: nat
    var root: nat
    var rootPathCost: nat
    var rootPort: RootPort
    var times: Times
    var signals: Signals
    const ports: array<Port>
    var firstChanged: PortEnd

    predicate Valid() { ports.Length == MAX_PORTS }

    ghost function Abs(): Bridge
      requires Valid()
      reads this, ports
    {
      Bridge(bridgeId, root, rootPathCost, rootPort, times, signals, ports[..], firstChanged)
    }

    constructor (id: nat)
      ensures Valid() && fresh(ports) && Abs() == Create(id)
    {
      var id' := if id / MAC_SPAN == 0 then id + DEFAULT_BRIDGE_PRIORITY * MAC_SPAN else id;
      bridgeId, root, rootPathCost, rootPort := id', id', 0, -1;
      times := Times(0, 0, 0, 0, 0, 0, 6000, 2000, 4000);
      signals := Signals(false, false, Start(0), Timer(false, 0), Timer(false, 0), []);
      ports := new Port[MAX_PORTS](i requires 0 <= i < MAX_PORTS => NewPort(id', i));
      firstChanged := 0;
      new;
      assert ports[..] == seq(MAX_PORTS, i requires 0 <= i < MAX_PORTS => NewPort(id', i));
      UpdateBridgeTimers();
    }

    predicate IsRootBridge()
      reads this
    {
      bridgeId == root
    }

    predicate PortIsDesignated(p: Port)
      reads this
    {
      p.designated.bridge == bridgeId && p.designated.port == p.portId
    }

    // ----- transmission

    method TransmitTcn()
      requires Valid()
      modifies this
      ensures Abs() == M.TransmitTcn(old(Abs()))
    {
      if rootPort != -1 {
        signals := signals.(sent := signals.sent + [SentTcn(rootPort)]);
      }
    }

    method TransmitConfig(i: PortNo)
      requires Valid()
      modifies this, ports
      ensures Abs() == M.TransmitConfig(old(Abs()), i)
    {
      var isRoot := IsRootBridge();
      if !isRoot && rootPort == -1 {
        return;
      }
      var p := ports[i];
      if p.out.hold.active {
        ports[i] := p.(out := p.out.(configPending := true));
      } else {
        var age := if isRoot || rootPort == -1 then 0
                   else (ports[rootPort].messageAge.value + MESSAGE_AGE_INCREMENT) % 0x10000;
        var config := Config(Vector(root, rootPathCost, bridgeId, p.portId), age,
                             times.maxAge, times.helloTime, times.forwardDelay,
                             signals.topologyChange, p.out.topologyChangeAck);
        if age < times.maxAge {
          ports[i] := p.(out := Outbox(false, false, Start(0)));
          signals := signals.(sent := signals.sent + [SentConfig(i, config)]);
        }
      }
    }

    method ConfigGeneration()
      requires Valid()
      modifies this, ports
      ensures Abs() == M.ConfigGeneration(old(Abs()), 0)
    {
      for i := 0 to MAX_PORTS
        invariant M.ConfigGeneration(Abs(), i) == M.ConfigGeneration(old(Abs()), 0)
      {
        if Enabled(ports[i]) && PortIsDesignated(ports[i]) {
          TransmitConfig(i);
        }
      }
    }

    // ----- selection

    method BecomeDesignated(i: PortNo)
      requires Valid()
      modifies ports
      ensures Abs() == M.BecomeDesignated(old(Abs()), i)
    {
      ports[i] := ports[i].(designated := Vector(root, rootPathCost, bridgeId, ports[i].portId));
    }

    method RootSelection()
      requires Valid()
      modifies this
      ensures Abs() == M.RootSelection(old(Abs()))
    {
      var best: RootPort := -1;
      for i := 0 to MAX_PORTS
        invariant Abs() == old(Abs())
        invariant RootScan(Abs(), i, best) == RootScan(Abs(), 0, -1)
      {
        var p := ports[i];
        if !Enabled(p) || PortIsDesignated(p) || p.designated.root >= bridgeId {
          continue;
        }
        if best != -1 && !SupersedesRoot(ports[best], p) {
          continue;
        }
        best := i;
      }
      rootPort := best;
      if best == -1 {
        root, rootPathCost := bridgeId, 0;
      } else {
        root := ports[best].designated.root;
        rootPathCost := ports[best].designated.cost + ports[best].pathCost;
      }
    }

    method DesignatedSelection()
      requires Valid()
      modifies ports
      ensures Abs() == M.DesignatedSelection(old(Abs()), 0)
    {
      for i := 0 to MAX_PORTS
        invariant M.DesignatedSelection(Abs(), i) == M.DesignatedSelection(old(Abs()), 0)
      {
        var p := ports[i];
        if Enabled(p)
           && (|| PortIsDesignated(p)
               || p.designated.root != root
               || rootPathCost < p.designated.cost
               || (rootPathCost == p.designated.cost
                   && (|| bridgeId < p.designated.bridge
                       || (bridgeId == p.designated.bridge && p.portId <= p.designated.port))))
        {
          BecomeDesignated(i);
        }
      }
    }

    method ConfigurationUpdate()
      requires Valid()
      modifies this, ports
      ensures Abs() == M.ConfigurationUpdate(old(Abs()))
    {
      RootSelection();
      DesignatedSelection();
    }

    // ----- port states

    method SetPortState(i: PortNo, s: PortState)
      requires Valid()
      modifies this`firstChanged, ports
      ensures Abs() == M.SetPortState(old(Abs()), i, s)
    {
      if s != ports[i].state && !ports[i].stateChanged {
        ports[i] := ports[i].(stateChanged := true);
        if i < firstChanged {
          firstChanged := i;
        }
      }
      ports[i] := ports[i].(state := s);
    }

    method TopologyChangeDetection()
      requires Valid()
      modifies this
      ensures Abs() == M.TopologyChangeDetection(old(Abs()))
    {
      if IsRootBridge() {
        signals := signals.(topologyChange := true, topologyChangeTimer := Start(0));
      } else if !signals.topologyChangeDetected {
        TransmitTcn();
        signals := signals.(tcn := Start(0));
      }
      signals := signals.(topologyChangeDetected := true);
    }

    method MakeForwarding(i: PortNo)
      requires Valid()
      modifies this, ports
      ensures Abs() == M.MakeForwarding(old(Abs()), i)
    {
      if ports[i].state.Blocking? {
        SetPortState(i, Listening);
        ports[i] := ports[i].(forwardDelay := Start(0));
      }
    }

    method MakeBlocking(i: PortNo)
      requires Valid()
      modifies this, ports
      ensures Abs() == M.MakeBlocking(old(Abs()), i)
    {
      var p := ports[i];
      if !p.state.Disabled? && !p.state.Blocking? {
        if p.state.Forwarding? || p.state.Learning? {
          if p.changeDetection {
            TopologyChangeDetection();
          }
        }
        SetPortState(i, Blocking);
        ports[i] := ports[i].(forwardDelay := Stop(ports[i].forwardDelay));
      }
    }

    method StateSelection()
      requires Valid()
      modifies this, ports
      ensures Abs() == M.StateSelection(old(Abs()), 0)
    {
      for i := 0 to MAX_PORTS
        invariant M.StateSelection(Abs(), i) == M.StateSelection(old(Abs()), 0)
      {
        if Enabled(ports[i]) {
          SelectState(i);
        }
      }
    }

    method SelectState(i: PortNo)
      requires Valid()
      modifies this, ports
      ensures Abs() == M.SelectState(old(Abs()), i)
    {
      if i == rootPort {
        ports[i] := ClearOutbox(ports[i]);
        MakeForwarding(i);
      } else if PortIsDesignated(ports[i]) {
        ports[i] := ports[i].(messageAge := Stop(ports[i].messageAge));
        MakeForwarding(i);
      } else {
        ports[i] := ClearOutbox(ports[i]);
        MakeBlocking(i);
      }
    }

    method Reselect()
      requires Valid()
      modifies this, ports
      ensures Abs() == M.Reselect(old(Abs()))
    {
      ConfigurationUpdate();
      StateSelection();
    }

    method BecomeRootBridge()
      requires Valid()
      modifies this, ports
      ensures Abs() == M.BecomeRootBridge(old(Abs()))
    {
      times := OwnTimes(times);
      TopologyChangeDetection();
      signals := signals.(tcn := Stop(signals.tcn));
      ConfigGeneration();
      signals := signals.(hello := Start(0));
    }

    method ReselectAsRoot(wasRoot: bool)
      requires Valid()
      modifies this, ports
      ensures Abs() == M.ReselectAsRoot(old(Abs()), wasRoot)
    {
      Reselect();
      if IsRootBridge() && !wasRoot {
        BecomeRootBridge();
      }
    }

    // ----- BPDU arrival

    method ReceivedConfig(i: PortNo, config: Config)
      requires Valid()
      modifies this, ports
      ensures Abs() == M.ReceivedConfig(old(Abs()), i, config)
    {
      if config.messageAge >= config.maxAge || !Enabled(ports[i]) {
        return;
      }
      var wasRoot := IsRootBridge();
      if SupersedesPortInfo(bridgeId, ports[i], config.vector) {
        ports[i] := ports[i].(designated := config.vector, messageAge := Start(config.messageAge));
        Reselect();
        if !IsRootBridge() && wasRoot {
          signals := signals.(hello := Stop(signals.hello));
          if signals.topologyChangeDetected {
            signals := signals.(topologyChangeTimer := Stop(signals.topologyChangeTimer));
            TransmitTcn();
            signals := signals.(tcn := Start(0));
          }
        }
        if i == rootPort {
          times := times.(maxAge := config.maxAge, helloTime := config.helloTime,
                          forwardDelay := config.forwardDelay);
          signals := signals.(topologyChange := config.topologyChange);
          ConfigGeneration();
          if config.topologyChangeAck {
            signals := signals.(topologyChangeDetected := false, tcn := Stop(signals.tcn));
          }
        }
      } else if PortIsDesignated(ports[i]) {
        TransmitConfig(i);
      }
    }

    method ReceivedTcn(i: PortNo)
      requires Valid()
      modifies this, ports
      ensures Abs() == M.ReceivedTcn(old(Abs()), i)
    {
      if Enabled(ports[i]) && PortIsDesignated(ports[i]) {
        TopologyChangeDetection();
        ports[i] := ports[i].(out := ports[i].out.(topologyChangeAck := true));
        TransmitConfig(i);
      }
    }

    // ----- time

    method HelloTick(elapsed: nat)
      requires Valid()
      modifies this, ports
      ensures Abs() == M.HelloTick(old(Abs()), elapsed)
    {
      var fired := Expired(signals.hello, elapsed, times.helloTime);
      signals := signals.(hello := Advance(signals.hello, elapsed, times.helloTime));
      if fired {
        ConfigGeneration();
        signals := signals.(hello := Start(0));
      }
    }

    method TcnTick(elapsed: nat)
      requires Valid()
      modifies this
      ensures Abs() == M.TcnTick(old(Abs()), elapsed)
    {
      var fired := Expired(signals.tcn, elapsed, times.bridgeHelloTime);
      signals := signals.(tcn := Advance(signals.tcn, elapsed, times.bridgeHelloTime));
      if fired {
        TransmitTcn();
        signals := signals.(tcn := Start(0));
      }
    }

    method TopologyChangeTick(elapsed: nat)
      requires Valid()
      modifies this
      ensures Abs() == M.TopologyChangeTick(old(Abs()), elapsed)
    {
      var timeout := times.maxAge + times.forwardDelay;
      var fired := Expired(signals.topologyChangeTimer, elapsed, timeout);
      signals := signals.(topologyChangeTimer := Advance(signals.topologyChangeTimer, elapsed, timeout));
      if fired {
        signals := signals.(topologyChangeDetected := false, topologyChange := false);
      }
    }

    method MessageAgeExpiry(i: PortNo)
      requires Valid()
      modifies this, ports
      ensures Abs() == M.MessageAgeExpiry(old(Abs()), i)
    {
      var wasRoot := IsRootBridge();
      BecomeDesignated(i);
      ReselectAsRoot(wasRoot);
    }

    method AgePort(i: PortNo, elapsed: nat)
      requires Valid()
      modifies this, ports
      ensures Abs() == M.AgePort(old(Abs()), i, elapsed)
    {
      var t := ports[i].messageAge;
      ports[i] := ports[i].(messageAge := Advance(t, elapsed, times.maxAge));
      if Expired(t, elapsed, times.maxAge) {
        MessageAgeExpiry(i);
      }
    }

    method IsDesignatedForSomePort() returns (r: bool)
      requires Valid()
      ensures r == DesignatedForSomePort(Abs())
    {
      for i := 0 to MAX_PORTS
        invariant forall j: PortNo ::
                    j < i ==> !(Enabled(Abs().ports[j]) && Abs().ports[j].designated.bridge == bridgeId)
      {
        if Enabled(ports[i]) && ports[i].designated.bridge == bridgeId {
          assert Enabled(Abs().ports[i]) && Abs().ports[i].designated.bridge == bridgeId;
          return true;
        }
      }
      return false;
    }

    method ForwardDelayExpiry(i: PortNo)
      requires Valid()
      modifies this, ports
      ensures Abs() == M.ForwardDelayExpiry(old(Abs()), i)
    {
      if ports[i].state.Listening? {
        SetPortState(i, Learning);
        ports[i] := ports[i].(forwardDelay := Start(0));
      } else if ports[i].state.Learning? {
        SetPortState(i, Forwarding);
        var some := IsDesignatedForSomePort();
        if some && ports[i].changeDetection {
          TopologyChangeDetection();
        }
      }
    }

    method AdvanceForwardDelay(i: PortNo, elapsed: nat)
      requires Valid()
      modifies this, ports
      ensures Abs() == M.AdvanceForwardDelay(old(Abs()), i, elapsed)
    {
      var t := ports[i].forwardDelay;
      ports[i] := ports[i].(forwardDelay := Advance(t, elapsed, times.forwardDelay));
      if Expired(t, elapsed, times.forwardDelay) {
        ForwardDelayExpiry(i);
      }
    }

    method AdvanceHold(i: PortNo, elapsed: nat)
      requires Valid()
      modifies this, ports
      ensures Abs() == M.AdvanceHold(old(Abs()), i, elapsed)
    {
      var p := ports[i];
      ports[i] := p.(out := p.out.(hold := Advance(p.out.hold, elapsed, HOLD_TIME)));
      if Expired(p.out.hold, elapsed, HOLD_TIME) && p.out.configPending {
        TransmitConfig(i);
      }
    }

    method AgePorts(elapsed: nat)
      requires Valid()
      modifies this, ports
      ensures Abs() == M.AgePorts(old(Abs()), 0, elapsed)
    {
      for i := 0 to MAX_PORTS
        invariant M.AgePorts(Abs(), i, elapsed) == M.AgePorts(old(Abs()), 0, elapsed)
      {
        if Enabled(ports[i]) {
          AgePort(i, elapsed);
        }
      }
    }

    method AdvancePorts(elapsed: nat)
      requires Valid()
      modifies this, ports
      ensures Abs() == M.AdvancePorts(old(Abs()), 0, elapsed)
    {
      for i := 0 to MAX_PORTS
        invariant M.AdvancePorts(Abs(), i, elapsed) == M.AdvancePorts(old(Abs()), 0, elapsed)
      {
        if Enabled(ports[i]) {
          AdvanceForwardDelay(i, elapsed);
          AdvanceHold(i, elapsed);
        }
      }
    }

    method Tick(elapsed: nat)
      requires Valid()
      modifies this, ports
      ensures Abs() == Step(old(Abs()), Ticks(elapsed))
    {
      if elapsed == 0 {
        return;
      }
      HelloTick(elapsed);
      TcnTick(elapsed);
      TopologyChangeTick(elapsed);
      AgePorts(elapsed);
      AdvancePorts(elapsed);
    }

    // ----- management

    method SetBridgeId(id: nat)
      requires Valid()
      modifies this, ports
      ensures Abs() == M.SetBridgeId(old(Abs()), id)
    {
      if id != bridgeId {
        var wasRoot := IsRootBridge();
        for i := 0 to MAX_PORTS
          invariant bridgeId == old(bridgeId)
          invariant RenameDesignated(Abs(), i, id) == RenameDesignated(old(Abs()), 0, id)
        {
          if Enabled(ports[i]) && PortIsDesignated(ports[i]) {
            ports[i] := ports[i].(designated := ports[i].designated.(bridge := id));
          }
        }
        bridgeId := id;
        ReselectAsRoot(wasRoot);
      }
    }

    method InitializePort(i: PortNo, s: PortState)
      requires Valid() && (s.Disabled? || s.Blocking?)
      modifies this, ports
      ensures Abs() == M.InitializePort(old(Abs()), i, s)
    {
      BecomeDesignated(i);
      SetPortState(i, s);
      var p := ports[i];
      ports[i] := p.(out := Outbox(false, false, Stop(p.out.hold)), changeDetection := true,
                     messageAge := Stop(p.messageAge), forwardDelay := Stop(p.forwardDelay));
    }

    method EnablePort(i: PortNo)
      requires Valid()
      modifies this, ports
      ensures Abs() == Step(old(Abs()), Enable(i))
    {
      if ports[i].state.Disabled? {
        InitializePort(i, Blocking);
        StateSelection();
      }
    }

    method DisablePort(i: PortNo)
      requires Valid()
      modifies this, ports
      ensures Abs() == Step(old(Abs()), Disable(i))
    {
      if !ports[i].state.Disabled? {
        var wasRoot := IsRootBridge();
        BecomeDesignated(i);
        SetPortState(i, Disabled);
        var p := ports[i];
        ports[i] := ClearOutbox(p).(messageAge := Stop(p.messageAge),
                                    forwardDelay := Stop(p.forwardDelay));
        ReselectAsRoot(wasRoot);
      }
    }

    method SetPriority(i: PortNo, priority: nat)
      requires Valid()
      modifies this, ports
      ensures Abs() == Step(old(Abs()), Priority(i, priority))
    {
      var id := PriorityId(ports[i], priority);
      if ports[i].portId != id {
        if PortIsDesignated(ports[i]) {
          ports[i] := ports[i].(designated := ports[i].designated.(port := id));
        }
        ports[i] := ports[i].(portId := id);
        if bridgeId == ports[i].designated.bridge && ports[i].portId < ports[i].designated.port {
          BecomeDesignated(i);
          StateSelection();
        }
      }
    }

    method SetPathCost(i: PortNo, cost: nat)
      requires Valid()
      modifies this, ports
      ensures Abs() == Step(old(Abs()), PathCost(i, cost))
    {
      if ports[i].pathCost != cost {
        ports[i] := ports[i].(pathCost := cost);
        Reselect();
      }
    }

    method GetChangedPort() returns (r: PortEnd)
      requires Valid()
      modifies this`firstChanged, ports
      ensures Abs() == Step(old(Abs()), ChangedPort)
      ensures r == FirstChangedFrom(old(Abs()).ports, old(firstChanged))
    {
      r := firstChanged;
      while r < MAX_PORTS
        invariant Abs() == old(Abs())
        invariant FirstChangedFrom(Abs().ports, r) == FirstChangedFrom(Abs().ports, firstChanged)
      {
        if ports[r].stateChanged {
          ports[r] := ports[r].(stateChanged := false);
          firstChanged := r + 1;
          return;
        }
        r := r + 1;
      }
      firstChanged := MAX_PORTS;
    }

    method SetHelloTime(ms: int)
      requires Valid()
      modifies this`times
      ensures Abs() == Step(old(Abs()), HelloTime(ms))
    {
      times := times.(rqHelloTime := ms);
      UpdateBridgeTimers();
    }

    method SetMaxAge(ms: int)
      requires Valid()
      modifies this`times
      ensures Abs() == Step(old(Abs()), MaxAge(ms))
    {
      times := times.(rqMaxAge := ms);
      UpdateBridgeTimers();
    }

    method SetForwardDelay(ms: int)
      requires Valid()
      modifies this`times
      ensures Abs() == Step(old(Abs()), ForwardDelay(ms))
    {
      times := times.(rqForwardDelay := ms);
      UpdateBridgeTimers();
    }

    method UpdateBridgeTimers()
      requires Valid()
      modifies this`times
      ensures Abs() == M.UpdateBridgeTimers(old(Abs()))
    {
      var ht := Clamp(times.rqHelloTime, 1000, 10000);
      var ma := Clamp(times.rqMaxAge, if 2 * (ht + 1000) > 6000 then 2 * (ht + 1000) else 6000, 40000);
      var fd := Clamp(times.rqForwardDelay, ma / 2 + 1000, 30000);
      times := times.(bridgeHelloTime := MsToTimer(ht), bridgeMaxAge := MsToTimer(ma),
                      bridgeForwardDelay := MsToTimer(fd));
      if IsRootBridge() {
        times := OwnTimes(times);
      }
    }
  }
}
