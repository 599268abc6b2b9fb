/** Bridges stay settled as they run. */
module StpSettling {
  import opened StpModel
  import opened StpSelection
  import opened StpInvariants
  import opened StpRuns
  import opened StpNetwork

  // With positive path costs every public call ends with nothing left to reselect, except
  // for changes of a port priority, after which `lib/stp.c` does not reselect.  The exact
  // condition under which such a change leaves the bridge settled is a predicate of the
  // state before it.

  /** All path costs are positive, of disabled ports too. */
  predicate Costly(b: Bridge) { forall i: PortNo :: b.ports[i].pathCost > 0 }

  predicate Sound(b: Bridge) { Settled(b) && Costly(b) }

  predicate Ordinary(e: Event) { !e.Priority? && (e.PathCost? ==> e.cost > 0) }

  // ----- reselection

  lemma SameVectorsSound(b: Bridge, c: Bridge)
    requires Sound(b) && SameVectors(b, c)
    ensures Sound(c)
  {
    SettledTransfers(b, c);
  }

  lemma CoreSound(b: Bridge, c: Bridge)
    requires Sound(b) && SameCore(b, c)
    ensures Sound(c)
  {
    SameCoreVectors(b, c, 0);
    SameVectorsSound(b, c);
  }

  lemma ReselectSound(b: Bridge, wasRoot: bool)
    requires Numbered(b) && Costly(b)
    ensures Sound(Reselect(b)) && Sound(ReselectAsRoot(b, wasRoot))
  {
    var c := ConfigurationUpdate(b);
    PositiveCostsNotSelfDefeating(b);
    UpdateIdempotent(b);
    UpdateEffect(b);
    assert Sound(c);
    SelectionSameVectors(c, 0);
    SameVectorsSound(c, Reselect(b));
    BecomeRootFrame(Reselect(b));
    CoreSound(Reselect(b), BecomeRootBridge(Reselect(b)));
  }

  // ----- every call

  lemma BpduSound(b: Bridge, i: PortNo, config: Config)
    requires Sound(b)
    ensures Sound(ReceivedConfig(b, i, config))
  {
    if Accepted(b, i, config) {
      var r := RecordConfig(b, i, config);
      ReselectSound(r, false);
      AcceptedCore(b, i, config);
      CoreSound(Reselect(r), ReceivedConfig(b, i, config));
    } else {
      TransmitConfigFrame(b, i);
      CoreSound(b, ReceivedConfig(b, i, config));
    }
  }

  /** A new designated port is no candidate and needs no reselection. */
  lemma InstalledSound(b: Bridge, c: Bridge, i: PortNo)
    requires Sound(b) && SameTree(b, c) && !Enabled(b.ports[i]) && c.ports[i].portId == b.ports[i].portId
    requires c.ports[i].pathCost == b.ports[i].pathCost && c.ports[i].designated == Own(c, c.ports[i])
    requires forall j: PortNo :: j != i ==> c.ports[j] == b.ports[j]
    ensures Sound(c)
  {
    SettledMeans(b);
    SettledMeans(c);
    hide ConfigurationUpdate;
    assert Best(c, c.rootPort, MAX_PORTS) by {
      hide DesignatedTarget, WithRoot;
      forall j: PortNo ensures Candidate(c, c.ports[j]) <==> Candidate(b, b.ports[j]) {
      }
    }
    assert c == WithRoot(c, c.rootPort);
    hide Best, WithRoot, Candidate;
    forall j: PortNo ensures c.ports[j] == DesignatedTarget(c, c.ports[j]) {
      assert b.ports[j] == DesignatedTarget(b, b.ports[j]);
    }
  }

  lemma EnableSound(b: Bridge, i: PortNo)
    requires Sound(b)
    ensures Sound(EnablePort(b, i))
  {
    if !Enabled(b.ports[i]) {
      var c := InitializePort(b, i, Blocking);
      InstalledSound(b, c, i);
      hide InitializePort;
      SelectionSameVectors(c, 0);
      SameVectorsSound(c, EnablePort(b, i));
    }
  }

  lemma DisableSound(b: Bridge, i: PortNo)
    requires Sound(b)
    ensures Sound(DisablePort(b, i))
  {
    var c := Detach(b, i);
    assert Numbered(c) && Costly(c);
    ReselectSound(c, IsRoot(b));
  }

  lemma PathCostSound(b: Bridge, i: PortNo, cost: nat)
    requires Sound(b) && cost > 0
    ensures Sound(SetPathCost(b, i, cost))
  {
    ReselectSound(SetPort(b, i, b.ports[i].(pathCost := cost)), false);
  }

  lemma SetBridgeIdSound(b: Bridge, id: nat)
    requires Sound(b)
    ensures Sound(SetBridgeId(b, id))
  {
    RenamePointwise(b, 0, id);
    ReselectSound(RenameDesignated(b, 0, id).(bridgeId := id), IsRoot(b));
  }

  lemma AgePortSound(b: Bridge, i: PortNo, elapsed: nat)
    requires Sound(b)
    ensures Sound(AgePort(b, i, elapsed))
  {
    var t := b.ports[i].messageAge;
    var c := SetPort(b, i, b.ports[i].(messageAge := Advance(t, elapsed, b.times.maxAge)));
    assert SameVectors(b, c);
    SameVectorsSound(b, c);
    ReselectSound(BecomeDesignated(c, i), IsRoot(c));
  }

  lemma {:induction false} AgePortsSound(b: Bridge, i: nat, elapsed: nat)
    requires Sound(b) && i <= MAX_PORTS
    ensures Sound(AgePorts(b, i, elapsed))
    decreases MAX_PORTS - i
  {
    hide Sound;
    if i < MAX_PORTS {
      if Enabled(b.ports[i]) {
        AgePortSound(b, i, elapsed);
        AgePortsSound(AgePort(b, i, elapsed), i + 1, elapsed);
      } else {
        AgePortsSound(b, i + 1, elapsed);
      }
    }
  }

  lemma MovedSound(b: Bridge, c: Bridge, i: PortNo)
    requires Sound(b) && StateMoved(b, c, i)
    ensures Sound(c)
  {
    assert SameVectors(b, c);
    SameVectorsSound(b, c);
  }

  lemma {:induction false} AdvancePortsSound(b: Bridge, i: nat, elapsed: nat)
    requires Sound(b) && Inv(b) && i <= MAX_PORTS
    ensures Sound(AdvancePorts(b, i, elapsed))
    decreases MAX_PORTS - i
  {
    if i < MAX_PORTS {
      if Enabled(b.ports[i]) {
        var c := AdvanceForwardDelay(b, i, elapsed);
        var d := AdvanceHold(c, i, elapsed);
        assert PortOk(b, b.ports[i]);
        ForwardDelayMoves(b, i, elapsed);
        HoldMoves(c, i, elapsed);
        hide AdvanceForwardDelay, AdvanceHold, Sound, StateMoved;
        MovedSound(b, c, i);
        MovedSound(c, d, i);
        StateMovedKeeps(b, c, i);
        StateMovedKeeps(c, d, i);
        AdvancePortsSound(d, i + 1, elapsed);
      } else {
        hide Sound;
        AdvancePortsSound(b, i + 1, elapsed);
      }
    }
  }

  lemma TickSound(b: Bridge, elapsed: nat)
    requires Sound(b) && Inv(b)
    ensures Sound(Tick(b, elapsed))
  {
    var c := TopologyChangeTick(TcnTick(HelloTick(b, elapsed), elapsed), elapsed);
    TimerFrames(b, elapsed);
    hide TopologyChangeTick, TcnTick, HelloTick, Sound;
    CoreSound(b, c);
    CoreSafe(b, c);
    AgePortsSound(c, 0, elapsed);
    AgePortsKeeps(c, 0, elapsed);
    AdvancePortsSound(AgePorts(c, 0, elapsed), 0, elapsed);
  }

  lemma SettingSound(b: Bridge, e: Event)
    requires Sound(b) && (e.HelloTime? || e.MaxAge? || e.ForwardDelay? || e.ChangeDetection? || e.ChangedPort?)
    ensures Sound(Step(b, e))
  {
    assert SameVectors(b, Step(b, e));
    SameVectorsSound(b, Step(b, e));
  }

  lemma PortSound(b: Bridge, e: Event)
    requires Sound(b) && Ordinary(e) && (e.Enable? || e.Disable? || e.PathCost? || e.Speed?)
    ensures Sound(Step(b, e))
  {
    if e.Enable? {
      EnableSound(b, e.i);
    } else if e.Disable? {
      DisableSound(b, e.i);
    } else {
      PathCostSound(b, e.i, if e.PathCost? then e.cost else SpeedCost(e.speed));
    }
  }

  // ----- priorities

  /** The vectors of two ports agree on everything but the ids of the ports themselves. */
  predicate Tied(p: Port, q: Port) {
    && p.designated.root == q.designated.root && p.designated.bridge == q.designated.bridge
    && p.designated.cost + p.pathCost == q.designated.cost + q.pathCost
    && p.designated.port == q.designated.port
  }

  /** Changing the priority of this port leaves something to reselect.  Either the port
      hears the bridge itself and its new id is not above the id it hears, or its new id
      decides a tie for the root port another way. */
  predicate Unsettling(b: Bridge, i: PortNo, priority: nat) {
    var p := b.ports[i];
    var id := PriorityId(p, priority);
    && id != p.portId && Enabled(p) && !IsDesignated(b, p)
    && if p.designated.bridge == b.bridgeId && id <= p.designated.port then
         i == b.rootPort || (id == p.designated.port && p.designated.cost != b.rootPathCost)
       else if i == b.rootPort then
         exists j: PortNo :: j != i && Candidate(b, b.ports[j]) && Tied(p, b.ports[j]) && b.ports[j].portId < id
       else
         b.rootPort != -1 && Candidate(b, p) && Tied(p, b.ports[b.rootPort]) && id < b.ports[b.rootPort].portId
  }

  /** `c` is `b` with another port `i`. */
  predicate Differs(b: Bridge, c: Bridge, i: PortNo) {
    SameTree(b, c) && forall j: PortNo :: j != i ==> c.ports[j] == b.ports[j]
  }

  /** The port has left the race for the root port. */
  lemma OutOfTheRace(b: Bridge, c: Bridge, i: PortNo)
    requires Best(b, b.rootPort, MAX_PORTS) && Differs(b, c, i) && !Candidate(c, c.ports[i])
    ensures Best(c, c.rootPort, MAX_PORTS) <==> i != b.rootPort
  {
  }

  /** The port stays in the race under another id. */
  lemma RaceUnderNewId(b: Bridge, c: Bridge, i: PortNo)
    requires Best(b, b.rootPort, MAX_PORTS) && Differs(b, c, i) && Candidate(b, b.ports[i]) && Candidate(c, c.ports[i])
    requires Numbered(b) && Numbered(c) && c.ports[i] == b.ports[i].(portId := c.ports[i].portId)
    ensures Best(c, c.rootPort, MAX_PORTS) <==>
            if i == b.rootPort then
              forall j: PortNo :: j != i && Candidate(b, b.ports[j]) && Tied(b.ports[i], b.ports[j])
                                  ==> b.ports[j].portId > c.ports[i].portId
            else Tied(b.ports[i], b.ports[b.rootPort]) ==> c.ports[i].portId > b.ports[b.rootPort].portId
  {
    forall j: PortNo | j != i
      ensures b.ports[j].portId != c.ports[i].portId && (Candidate(c, c.ports[j]) <==> Candidate(b, b.ports[j]))
    {
    }
  }

  lemma SettledExactly(b: Bridge, c: Bridge, i: PortNo)
    requires Settled(b) && Numbered(c) && Differs(b, c, i)
    requires c.ports[i].designated == b.ports[i].designated || i != b.rootPort || !Candidate(c, c.ports[i])
    requires c.ports[i].pathCost == b.ports[i].pathCost
    ensures Settled(c) <==> Best(c, c.rootPort, MAX_PORTS) && c.ports[i] == DesignatedTarget(c, c.ports[i])
  {
    SettledMeans(b);
    SettledMeans(c);
    hide ConfigurationUpdate, SupersedesRoot;
    assert Best(c, c.rootPort, MAX_PORTS) ==> c == WithRoot(c, c.rootPort);
    hide Best, WithRoot, Candidate;
    forall j: PortNo | j != i ensures c.ports[j] == DesignatedTarget(c, c.ports[j]) {
      assert b.ports[j] == DesignatedTarget(b, b.ports[j]);
    }
  }

  /** A disabled or a designated port, or one that now falls to the bridge itself. */
  lemma PriorityWithdraws(b: Bridge, c: Bridge, i: PortNo)
    requires Settled(b) && Numbered(c) && Differs(b, c, i) && !Candidate(c, c.ports[i])
    requires c.ports[i].pathCost == b.ports[i].pathCost
    ensures Settled(c) <==> i != b.rootPort && c.ports[i] == DesignatedTarget(c, c.ports[i])
  {
    SettledExactly(b, c, i);
    SettledMeans(b);
    OutOfTheRace(b, c, i);
  }

  /** A port that keeps the vector of another bridge. */
  lemma PriorityKeepsPort(b: Bridge, c: Bridge, i: PortNo)
    requires Settled(b) && Numbered(c) && Differs(b, c, i)
    requires Enabled(b.ports[i]) && !IsDesignated(b, b.ports[i]) && !IsDesignated(c, c.ports[i])
    requires c.ports[i] == b.ports[i].(portId := c.ports[i].portId)
    requires b.ports[i].designated.bridge == b.bridgeId ==> c.ports[i].portId > b.ports[i].designated.port
    ensures c.ports[i] == DesignatedTarget(c, c.ports[i])
  {
    SettledMeans(b);
    assert b.ports[i] == DesignatedTarget(b, b.ports[i]);
  }

  lemma PriorityRaces(b: Bridge, i: PortNo, priority: nat)
    requires Sound(b) && Enabled(b.ports[i]) && !IsDesignated(b, b.ports[i])
    requires PriorityId(b.ports[i], priority) != b.ports[i].portId
    requires b.ports[i].designated.bridge == b.bridgeId
             ==> PriorityId(b.ports[i], priority) > b.ports[i].designated.port
    ensures Settled(Reprioritized(b, i, priority)) <==> !Unsettling(b, i, priority)
  {
    var c := Reprioritized(b, i, priority);
    assert c.ports[i].portId % 256 == i + 1;
    PriorityKeepsPort(b, c, i);
    SettledExactly(b, c, i);
    SettledMeans(b);
    hide ConfigurationUpdate, DesignatedTarget, Settled;
    RaceIsDecided(b, c, i, priority);
  }

  lemma RaceIsDecided(b: Bridge, c: Bridge, i: PortNo, priority: nat)
    requires Best(b, b.rootPort, MAX_PORTS) && Numbered(b) && Numbered(c) && c == Reprioritized(b, i, priority)
    requires Enabled(b.ports[i]) && !IsDesignated(b, b.ports[i]) && !IsDesignated(c, c.ports[i])
    requires PriorityId(b.ports[i], priority) != b.ports[i].portId
    requires b.ports[i].designated.bridge == b.bridgeId
             ==> PriorityId(b.ports[i], priority) > b.ports[i].designated.port
    ensures Best(c, c.rootPort, MAX_PORTS) <==> !Unsettling(b, i, priority)
  {
    if Candidate(b, b.ports[i]) {
      RaceUnderNewId(b, c, i);
    } else {
      OutOfTheRace(b, c, i);
    }
  }

  /** The id that the bridge itself sends on the port is reached or passed. */
  lemma PriorityTakesOver(b: Bridge, i: PortNo, priority: nat)
    requires Sound(b) && Enabled(b.ports[i]) && !IsDesignated(b, b.ports[i])
    requires PriorityId(b.ports[i], priority) != b.ports[i].portId
    requires b.ports[i].designated.bridge == b.bridgeId
    requires PriorityId(b.ports[i], priority) <= b.ports[i].designated.port
    ensures Settled(SetPriority(b, i, priority)) <==> !Unsettling(b, i, priority)
  {
    var c := Reprioritized(b, i, priority);
    assert c.ports[i].portId % 256 == i + 1;
    SettledMeans(b);
    assert b.ports[i] == DesignatedTarget(b, b.ports[i]);
    if c.ports[i].portId == b.ports[i].designated.port {
      PriorityWithdraws(b, c, i);
    } else {
      var d := BecomeDesignated(c, i);
      PriorityWithdraws(b, d, i);
      SelectionSettles(d);
    }
  }

  lemma SelectionSettles(b: Bridge)
    ensures Settled(StateSelection(b, 0)) <==> Settled(b)
  {
    var c := StateSelection(b, 0);
    SelectionSameVectors(b, 0);
    if Settled(b) {
      SettledTransfers(b, c);
    }
    if Settled(c) {
      SettledTransfers(c, b);
    }
  }

  lemma PriorityQuiet(b: Bridge, i: PortNo, priority: nat)
    requires Sound(b) && (!Enabled(b.ports[i]) || IsDesignated(b, b.ports[i]))
    ensures Settled(SetPriority(b, i, priority))
  {
    var c := Reprioritized(b, i, priority);
    assert c.ports[i].portId % 256 == i + 1;
    SettledMeans(b);
    assert b.ports[i] == DesignatedTarget(b, b.ports[i]);
    PriorityWithdraws(b, c, i);
    PriorityWithdraws(b, BecomeDesignated(c, i), i);
    SelectionSettles(BecomeDesignated(c, i));
  }

  /** Changing a priority leaves the bridge settled exactly when it is not unsettling. */
  lemma PrioritySettles(b: Bridge, i: PortNo, priority: nat)
    requires Sound(b)
    ensures Settled(SetPriority(b, i, priority)) <==> !Unsettling(b, i, priority)
    ensures Costly(SetPriority(b, i, priority))
  {
    var c := Reprioritized(b, i, priority);
    SelectionSameVectors(BecomeDesignated(c, i), 0);
    assert Costly(SetPriority(b, i, priority));
    var p := b.ports[i];
    if !Enabled(p) || IsDesignated(b, p) {
      PriorityQuiet(b, i, priority);
    } else if PriorityId(p, priority) == p.portId {
      assert SetPriority(b, i, priority) == b;
    } else if p.designated.bridge == b.bridgeId && PriorityId(p, priority) <= p.designated.port {
      PriorityTakesOver(b, i, priority);
    } else {
      PriorityRaces(b, i, priority);
    }
  }

  lemma StepSound(b: Bridge, e: Event)
    requires Sound(b) && Inv(b) && Ordinary(e)
    ensures Sound(Step(b, e))
  {
    if e.Ticks? {
      TickSound(b, e.elapsed);
    } else if e.Bpdu? {
      BpduSound(b, e.i, e.config);
    } else if e.Tcn? {
      ReceivedTcnKeeps(b, e.i);
      CoreSound(b, ReceivedTcn(b, e.i));
    } else if e.BridgeMac? {
      SetBridgeIdSound(b, WithMac(b.bridgeId, e.mac));
    } else if e.BridgePriority? {
      SetBridgeIdSound(b, WithPriority(b.bridgeId, e.priority));
    } else if e.Enable? || e.Disable? || e.PathCost? || e.Speed? {
      PortSound(b, e);
    } else {
      SettingSound(b, e);
    }
  }

  lemma CreateSound(id: nat)
    ensures Sound(Create(id))
  {
    var b := Create(id);
    assert Numbered(b) && Costly(b);
    SettledMeans(b);
    assert Best(b, -1, MAX_PORTS);
  }

  /** The run sets positive path costs, and no change of priority is unsettling when it
      is made. */
  predicate Orderly(b: Bridge, events: seq<Event>) {
    events != [] ==>
      var front := events[..|events| - 1];
      var e := events[|events| - 1];
      && Orderly(b, front)
      && if e.Priority? then !Unsettling(Run(b, front), e.i, e.priority) else Ordinary(e)
  }

  /** After every orderly run a bridge is consistent and has nothing left to reselect. */
  lemma {:induction false} RunSettled(id: nat, events: seq<Event>)
    requires Orderly(Create(id), events)
    ensures Inv(Run(Create(id), events)) && Sound(Run(Create(id), events))
  {
    hide Inv, Sound, Create, Unsettling;
    RunInvariant(id, events);
    if events == [] {
      CreateSound(id);
    } else {
      var front := events[..|events| - 1];
      var e := events[|events| - 1];
      var b := Run(Create(id), front);
      RunSettled(id, front);
      if e.Priority? {
        PrioritySound(b, e.i, e.priority);
      } else {
        hide Step;
        StepSound(b, e);
      }
    }
  }

  lemma PrioritySound(b: Bridge, i: PortNo, priority: nat)
    requires Sound(b) && !Unsettling(b, i, priority)
    ensures Sound(SetPriority(b, i, priority))
  {
    PrioritySettles(b, i, priority);
  }

  // ----- what the excluded calls do

  /** `c` has the vectors that reselection with root port `r` makes of those of `b`. */
  predicate Selected(b: Bridge, c: Bridge, r: RootPort) {
    && SameTree(WithRoot(b, r), c)
    && forall j: PortNo ::
         && c.ports[j].portId == b.ports[j].portId && c.ports[j].pathCost == b.ports[j].pathCost
         && (Enabled(c.ports[j]) <==> Enabled(b.ports[j]))
         && c.ports[j].designated == DesignatedTarget(WithRoot(b, r), b.ports[j]).designated
  }

  lemma ReselectSelects(b: Bridge, r: RootPort)
    requires Numbered(b) && Best(b, r, MAX_PORTS)
    ensures Selected(b, Reselect(b), r)
  {
    UpdateEffect(b);
    RootSelectionIsUniqueMinimum(b, r);
    SelectionSameVectors(ConfigurationUpdate(b), 0);
  }

  lemma BpduSelects(b: Bridge, i: PortNo, config: Config, r: RootPort)
    requires Numbered(b) && Accepted(b, i, config) && Best(RecordConfig(b, i, config), r, MAX_PORTS)
    ensures Selected(RecordConfig(b, i, config), ReceivedConfig(b, i, config), r)
  {
    ReselectSelects(RecordConfig(b, i, config), r);
    AcceptedCore(b, i, config);
    SameCoreVectors(Reselect(RecordConfig(b, i, config)), ReceivedConfig(b, i, config), 0);
  }

  /** The first `n` ports are enabled and designated, on a bridge that is its own root. */
  predicate Opening(b: Bridge, n: nat) {
    && Numbered(b) && IsRoot(b) && b.rootPort == -1 && b.rootPathCost == 0 && b.bridgeId >= MAC_SPAN
    && forall j: PortNo ::
         && (Enabled(b.ports[j]) <==> j < n) && b.ports[j].portId == j + 1 + DEFAULT_PORT_PRIORITY * 256
         && b.ports[j].pathCost == 19 && (j < n ==> b.ports[j].designated == Own(b, b.ports[j]))
  }

  lemma CreateOpens(id: nat)
    ensures Opening(Create(id), 0)
  {
  }

  lemma EnableOpens(b: Bridge, n: PortNo)
    requires Opening(b, n)
    ensures Opening(EnablePort(b, n), n + 1)
  {
    var c := InitializePort(b, n, Blocking);
    SelectionSameVectors(c, 0);
    assert Opening(c, n + 1);
  }

  /** A better root, offered at no cost by a bridge with a larger id. */
  function Offer(b: Bridge): Config {
    Config(Vector(3, 0, b.bridgeId + 1, 1), 0, 10, 10, 10, false, false)
  }

  lemma ZeroCostSelects(b: Bridge)
    requires Opening(b, 1)
    ensures var c := Step(Step(b, PathCost(0, 0)), Bpdu(0, Offer(b)));
            && Numbered(c) && c.rootPort == 0 && c.root == 3 && IsDesignated(c, c.ports[0])
            && forall j: PortNo :: j > 0 ==> !Enabled(c.ports[j]) && c.ports[j].pathCost == 19
  {
    var x := SetPort(b, 0, b.ports[0].(pathCost := 0));
    ReselectSelects(x, -1);
    var y := Reselect(x);
    assert y == Step(b, PathCost(0, 0));
    BpduSelects(y, 0, Offer(b), 0);
  }

  lemma DesignatedRootIsLost(b: Bridge)
    requires Numbered(b) && IsDesignated(b, b.ports[0]) && b.ports[1].pathCost == 19
    requires forall j: PortNo :: j > 0 ==> !Enabled(b.ports[j])
    ensures Step(b, PathCost(1, 1)).rootPort == -1
  {
    ReselectSelects(SetPort(b, 1, b.ports[1].(pathCost := 1)), -1);
  }

  /** A root port of cost zero can defeat itself, on every bridge: the next call, though
      it is about a disabled port, takes the root port away. */
  lemma ZeroCostRootIsLost(id: nat) returns (events: seq<Event>)
    ensures var b := Run(Create(id), events);
            !Enabled(b.ports[1]) && b.rootPort == 0 && Step(b, PathCost(1, 1)).rootPort == -1 && !Settled(b)
  {
    var a := Create(id);
    CreateOpens(id);
    var b := EnablePort(a, 0);
    EnableOpens(a, 0);
    ZeroCostSelects(b);
    var c := Step(Step(b, PathCost(0, 0)), Bpdu(0, Offer(b)));
    DesignatedRootIsLost(c);
    events := [Enable(0), PathCost(0, 0), Bpdu(0, Offer(b))];
    RunOfThree(a, Enable(0), PathCost(0, 0), Bpdu(0, Offer(b)));
    SettledMeans(c);
  }

  /** Port 0 has taken the offer and is the root port; port 1 has not heard it. */
  predicate Taken(b: Bridge, v: Vector) {
    && Numbered(b) && b.rootPort == 0 && b.root == 3 < b.bridgeId == v.bridge - 1 && b.rootPathCost == 19
    && v == Vector(3, 0, v.bridge, 1) && b.ports[0].designated == v
    && forall j: PortNo ::
         && (Enabled(b.ports[j]) <==> j < 2) && b.ports[j].portId == j + 1 + DEFAULT_PORT_PRIORITY * 256
         && b.ports[j].pathCost == 19
  }

  lemma FirstOffer(b: Bridge)
    requires Opening(b, 2)
    ensures var c := Step(b, Bpdu(0, Offer(b)));
            Taken(c, Offer(b).vector) && c.ports[1].designated == Own(c, c.ports[1])
  {
    BpduSelects(b, 0, Offer(b), 0);
  }

  lemma SecondOffer(b: Bridge, config: Config)
    requires Taken(b, config.vector) && b.ports[1].designated == Own(b, b.ports[1])
    requires config.messageAge < config.maxAge
    ensures var c := Step(b, Bpdu(1, config)); Taken(c, config.vector) && c.ports[1].designated == config.vector
  {
    var r := RecordConfig(b, 1, config);
    assert Best(r, 0, MAX_PORTS);
    BpduSelects(b, 1, config, 0);
    hide Best, RecordConfig, ReceivedConfig;
    assert SameTree(WithRoot(r, 0), Step(b, Bpdu(1, config)));
  }

  lemma {:induction false} OrdinaryIsOrderly(b: Bridge, events: seq<Event>)
    requires forall k :: 0 <= k < |events| ==> Ordinary(events[k])
    ensures Orderly(b, events)
  {
    if events != [] {
      OrdinaryIsOrderly(b, events[..|events| - 1]);
    }
  }

  /** A change of priority does unsettle, on every bridge: two ports hear the same offer,
      and the one that lost the tie is given the better id. */
  lemma PriorityUnsettles(id: nat) returns (events: seq<Event>)
    ensures var b := Run(Create(id), events);
            Orderly(Create(id), events) && Sound(b) && !Settled(Step(b, Priority(1, 0)))
  {
    var a := Create(id);
    var b := EnablePort(EnablePort(a, 0), 1);
    CreateOpens(id);
    EnableOpens(a, 0);
    EnableOpens(EnablePort(a, 0), 1);
    var offer := Offer(b);
    events := [Enable(0), Enable(1), Bpdu(0, offer), Bpdu(1, offer)];
    RunOfFour(a, Enable(0), Enable(1), Bpdu(0, offer), Bpdu(1, offer));
    OrdinaryIsOrderly(a, events);
    RunSettled(id, events);
    TieUnsettles(b);
  }

  lemma TieUnsettles(b: Bridge)
    requires Opening(b, 2)
    ensures var c := Step(Step(b, Bpdu(0, Offer(b))), Bpdu(1, Offer(b)));
            Sound(c) ==> !Settled(Step(c, Priority(1, 0)))
  {
    FirstOffer(b);
    var c := Step(b, Bpdu(0, Offer(b)));
    SecondOffer(c, Offer(b));
    var d := Step(c, Bpdu(1, Offer(b)));
    TieIsUnsettling(d, Offer(b).vector);
    if Sound(d) {
      PrioritySettles(d, 1, 0);
    }
  }

  lemma TieIsUnsettling(b: Bridge, v: Vector)
    requires Taken(b, v) && b.ports[1].designated == v
    ensures Unsettling(b, 1, 0)
  {
  }
}
