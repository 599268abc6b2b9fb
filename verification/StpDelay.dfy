/** How long a port listens and learns before it forwards. */
module StpDelay {
  import opened StpModel
  import opened StpSelection
  import opened StpInvariants
  import opened StpRuns

  // The clock of a port is read off its states alone: ticks count while it listens and
  // while it learns.  In every run the clock reaches the forward delay in force before the
  // port goes on; in every orderly run the port goes on exactly when it does.

  /** Ticks spent listening and learning since the port last blocked, and the forward delays
      in force when it went on. */
  datatype Clock = Clock(listened: nat, learned: nat, listenDue: nat, learnDue: nat)

  const ZERO := Clock(0, 0, 0, 0)

  /** A call of `elapsed` ticks takes the port from state `s` to state `t`. */
  function Counted(k: Clock, s: PortState, t: PortState, elapsed: nat, delay: nat): Clock {
    match t
    case Listening => Clock(if s.Listening? then k.listened + elapsed else elapsed, 0, 0, 0)
    case Learning =>
      if s.Learning? then k.(learned := k.learned + elapsed)
      else Clock(if s.Listening? then k.listened + elapsed else elapsed, 0, delay, 0)
    case Forwarding =>
      if s.Forwarding? then k else k.(learned := k.learned + elapsed, learnDue := delay)
    case _ => ZERO
  }

  function Elapsed(e: Event): nat { if e.Ticks? then e.elapsed else 0 }

  function ClockAt(id: nat, events: seq<Event>, i: PortNo): Clock {
    if events == [] then ZERO
    else
      var front, e := events[..|events| - 1], events[|events| - 1];
      var b := Run(Create(id), front);
      var c := Step(b, e);
      Counted(ClockAt(id, front, i), b.ports[i].state, c.ports[i].state, Elapsed(e), c.times.forwardDelay)
  }

  // ----- ageing

  /** One reselection: the port keeps its state and timer, or blocks, or starts to listen. */
  predicate Once(p: Port, q: Port) {
    || (q.state == p.state && q.forwardDelay == p.forwardDelay) || (q.state.Blocking? && !q.forwardDelay.active)
    || (!p.state.Listening? && q.state.Listening? && q.forwardDelay == Start(0))
  }

  predicate AllOnce(b: Bridge, c: Bridge) { forall i: PortNo :: Once(b.ports[i], c.ports[i]) }

  /** Any number of them. */
  predicate Reselected(p: Port, q: Port) {
    || (q.state == p.state && q.forwardDelay == p.forwardDelay)
    || (q.state.Blocking? && !q.forwardDelay.active) || (q.state.Listening? && q.forwardDelay == Start(0))
  }

  predicate AllReselected(b: Bridge, c: Bridge) { forall i: PortNo :: Reselected(b.ports[i], c.ports[i]) }

  lemma SelectionReselects(b: Bridge)
    ensures AllOnce(b, StateSelection(b, 0))
  {
    StateSelectionPointwise(b, 0);
    var c := StateSelection(b, 0);
    forall i: PortNo ensures Once(b.ports[i], c.ports[i]) {
      assert SamePort(StateTarget(b, i), c.ports[i]);
    }
  }

  /** Nothing but the timers and states of ports matters here. */
  predicate SameDelays(b: Bridge, c: Bridge) {
    forall i: PortNo :: c.ports[i].state == b.ports[i].state && c.ports[i].forwardDelay == b.ports[i].forwardDelay
  }

  lemma ReselectReselects(b: Bridge, wasRoot: bool)
    ensures AllOnce(b, Reselect(b)) && AllOnce(b, ReselectAsRoot(b, wasRoot))
  {
    var c, d := ConfigurationUpdate(b), Reselect(b);
    DesignatedSelectionPointwise(RootSelection(b), 0);
    assert SameDelays(b, c);
    SelectionReselects(c);
    BecomeRootFrame(d);
    hide ConfigurationUpdate, StateSelection, BecomeRootBridge;
    forall i: PortNo
      ensures Once(b.ports[i], d.ports[i]) && Once(b.ports[i], BecomeRootBridge(d).ports[i])
    {
      assert Once(c.ports[i], d.ports[i]) && SamePort(d.ports[i], BecomeRootBridge(d).ports[i]);
    }
  }

  lemma SameThenReselect(b: Bridge, c: Bridge, wasRoot: bool, i: PortNo)
    requires SameDelays(b, c)
    ensures Once(b.ports[i], Reselect(c).ports[i])
    ensures Once(b.ports[i], ReselectAsRoot(c, wasRoot).ports[i])
  {
    ReselectReselects(c, wasRoot);
    hide Reselect, ReselectAsRoot;
    assert Once(c.ports[i], Reselect(c).ports[i]) && Once(c.ports[i], ReselectAsRoot(c, wasRoot).ports[i]);
  }

  lemma AgePortReselects(b: Bridge, j: PortNo, elapsed: nat)
    ensures AllReselected(b, AgePort(b, j, elapsed))
  {
    var c := SetPort(b, j, b.ports[j].(messageAge := Advance(b.ports[j].messageAge, elapsed, b.times.maxAge)));
    var d := BecomeDesignated(c, j);
    forall i: PortNo ensures Once(b.ports[i], ReselectAsRoot(d, IsRoot(c)).ports[i]) {
      SameThenReselect(b, d, IsRoot(c), i);
    }
    hide ReselectAsRoot;
  }

  lemma {:induction false} AgePortsReselect(b: Bridge, j: nat, elapsed: nat)
    requires j <= MAX_PORTS
    ensures AllReselected(b, AgePorts(b, j, elapsed))
    decreases MAX_PORTS - j
  {
    if j < MAX_PORTS {
      if Enabled(b.ports[j]) {
        var c := AgePort(b, j, elapsed);
        AgePortReselects(b, j, elapsed);
        AgePortsReselect(c, j + 1, elapsed);
        var d := AgePorts(c, j + 1, elapsed);
        hide AgePort, AgePorts;
        forall i: PortNo ensures Reselected(b.ports[i], d.ports[i]) {
          assert Reselected(b.ports[i], c.ports[i]) && Reselected(c.ports[i], d.ports[i]);
        }
      } else {
        AgePortsReselect(b, j + 1, elapsed);
      }
    }
  }

  // ----- the forward delay

  /** The port goes on exactly when its timer reaches the delay. */
  predicate Delayed(p: Port, q: Port, elapsed: nat, delay: nat) {
    if p.forwardDelay.active && Enabled(p) then
      var value := p.forwardDelay.value + elapsed;
      if value < delay then q.state == p.state && q.forwardDelay == Start(value)
      else if p.state.Listening? then q.state.Learning? && q.forwardDelay == Start(0)
      else if p.state.Learning? then q.state.Forwarding?
      else q.state == p.state
    else q.state == p.state && q.forwardDelay == p.forwardDelay
  }

  lemma ForwardDelayDelays(b: Bridge, i: PortNo, elapsed: nat)
    requires Enabled(b.ports[i])
    ensures var c := AdvanceForwardDelay(b, i, elapsed);
            && Delayed(b.ports[i], c.ports[i], elapsed, b.times.forwardDelay) && c.times == b.times
            && forall j: PortNo :: j != i ==> c.ports[j] == b.ports[j]
  {
  }

  lemma HoldDelaysNot(b: Bridge, i: PortNo, elapsed: nat)
    ensures var c := AdvanceHold(b, i, elapsed);
            && c.times == b.times && SamePort(b.ports[i], c.ports[i])
            && forall j: PortNo :: j != i ==> c.ports[j] == b.ports[j]
  {
  }

  lemma {:induction false} AdvanceDelays(b: Bridge, i: nat, elapsed: nat)
    requires i <= MAX_PORTS
    ensures var c := AdvancePorts(b, i, elapsed);
            && c.times == b.times
            && forall j: PortNo :: if j < i then c.ports[j] == b.ports[j]
                                   else Delayed(b.ports[j], c.ports[j], elapsed, b.times.forwardDelay)
    decreases MAX_PORTS - i
  {
    if i < MAX_PORTS {
      if Enabled(b.ports[i]) {
        var c := AdvanceForwardDelay(b, i, elapsed);
        var d := AdvanceHold(c, i, elapsed);
        ForwardDelayDelays(b, i, elapsed);
        HoldDelaysNot(c, i, elapsed);
        hide AdvanceForwardDelay, AdvanceHold;
        AdvanceDelays(d, i + 1, elapsed);
      } else {
        AdvanceDelays(b, i + 1, elapsed);
      }
    }
  }

  /** A tick, seen from one port: reselection, then the forward delay in force. */
  lemma TickDelays(b: Bridge, elapsed: nat, i: PortNo) returns (m: Port)
    requires elapsed > 0
    ensures var c := Tick(b, elapsed);
            Reselected(b.ports[i], m) && Delayed(m, c.ports[i], elapsed, c.times.forwardDelay)
  {
    var d := TopologyChangeTick(TcnTick(HelloTick(b, elapsed), elapsed), elapsed);
    TimerFrames(b, elapsed);
    assert SamePort(b.ports[i], d.ports[i]);
    hide TopologyChangeTick, TcnTick, HelloTick;
    AgePortsReselect(d, 0, elapsed);
    var f := AgePorts(d, 0, elapsed);
    assert Reselected(d.ports[i], f.ports[i]);
    AdvanceDelays(f, 0, elapsed);
    m := f.ports[i];
  }

  // ----- every run

  /** The clock has seen what the timer shows, and was due when the port went on. */
  predicate Due(p: Port, k: Clock) {
    && (p.state.Listening? ==> p.forwardDelay.value <= k.listened)
    && (p.state.Learning? ==> p.forwardDelay.value <= k.learned && k.listened >= k.listenDue)
    && (p.state.Forwarding? ==> k.listened >= k.listenDue && k.learned >= k.learnDue)
  }

  lemma DelayedIsDue(p: Port, m: Port, q: Port, k: Clock, elapsed: nat, delay: nat)
    requires Due(p, k) && Reselected(p, m) && Delayed(m, q, elapsed, delay)
    requires p.forwardDelay.active <==> p.state.Listening? || p.state.Learning?
    ensures Due(q, Counted(k, p.state, q.state, elapsed, delay))
  {
  }

  lemma ReselectedIsDue(p: Port, q: Port, k: Clock, delay: nat)
    requires Due(p, k) && (Once(p, q) || q.state.Disabled?)
    ensures Due(q, Counted(k, p.state, q.state, 0, delay))
  {
  }

  /** No call but a tick lets a port go on. */
  lemma CallReselects(b: Bridge, e: Event, i: PortNo)
    requires !e.Ticks?
    ensures var p, q := b.ports[i], Step(b, e).ports[i]; Once(p, q) || q.state.Disabled?
  {
    hide Once;
    match e
    case Bpdu(j, config) => BpduReselects(b, j, config, i);
    case Tcn(j) => SameReselects(b, e, i) by { ReceivedTcnKeeps(b, j); }
    case Enable(j) => EnableReselects(b, j, i);
    case Disable(j) => DisableReselects(b, j, i);
    case Priority(j, priority) => PriorityReselects(b, j, priority, i);
    case PathCost(j, cost) => CostReselects(b, j, cost, i);
    case Speed(j, speed) => CostReselects(b, j, SpeedCost(speed), i);
    case BridgeMac(mac) => IdReselects(b, WithMac(b.bridgeId, mac), i);
    case BridgePriority(priority) => IdReselects(b, WithPriority(b.bridgeId, priority), i);
    case _ => SameReselects(b, e, i);
  }

  lemma SameReselects(b: Bridge, e: Event, i: PortNo)
    requires e.HelloTime? || e.MaxAge? || e.ForwardDelay? || e.ChangeDetection? || e.ChangedPort?
             || (e.Tcn? && SameCore(b, Step(b, e)))
    ensures Once(b.ports[i], Step(b, e).ports[i])
  {
    if e.Tcn? {
      hide Step;
      assert SamePort(b.ports[i], Step(b, e).ports[i]);
    }
  }

  lemma BpduReselects(b: Bridge, j: PortNo, config: Config, i: PortNo)
    ensures Once(b.ports[i], ReceivedConfig(b, j, config).ports[i])
  {
    var c := ReceivedConfig(b, j, config);
    if Accepted(b, j, config) {
      var r := RecordConfig(b, j, config);
      SameThenReselect(b, r, false, i);
      AcceptedCore(b, j, config);
      hide Reselect, ReceivedConfig;
      assert SamePort(Reselect(r).ports[i], c.ports[i]);
    } else {
      TransmitConfigFrame(b, j);
      assert SamePort(b.ports[i], c.ports[i]);
    }
  }

  lemma EnableReselects(b: Bridge, j: PortNo, i: PortNo)
    ensures Once(b.ports[i], EnablePort(b, j).ports[i])
  {
    var c := InitializePort(b, j, Blocking);
    assert Once(b.ports[i], c.ports[i]);
    SelectionReselects(c);
    hide InitializePort, StateSelection;
    assert !Enabled(b.ports[j]) ==> Once(c.ports[i], StateSelection(c, 0).ports[i]);
  }

  lemma DisableReselects(b: Bridge, j: PortNo, i: PortNo)
    ensures var p, q := b.ports[i], DisablePort(b, j).ports[i]; Once(p, q) || q.state.Disabled?
  {
    var c := Detach(b, j);
    if i != j {
      assert c.ports[i] == b.ports[i];
      SameThenReselect(c, c, IsRoot(b), i);
      hide Detach, ReselectAsRoot;
    } else if Enabled(b.ports[j]) {
      DisabledStays(c, IsRoot(b), j);
    }
  }

  lemma DisabledStays(b: Bridge, wasRoot: bool, j: PortNo)
    requires b.ports[j].state.Disabled?
    ensures ReselectAsRoot(b, wasRoot).ports[j].state.Disabled?
  {
    var c, d := ConfigurationUpdate(b), Reselect(b);
    DesignatedSelectionPointwise(RootSelection(b), 0);
    StateSelectionPointwise(c, 0);
    assert c.ports[j].state.Disabled?;
    assert SamePort(StateTarget(c, j), d.ports[j]);
    hide ConfigurationUpdate, StateSelection;
    BecomeRootFrame(d);
    assert SamePort(d.ports[j], BecomeRootBridge(d).ports[j]);
  }

  lemma PriorityReselects(b: Bridge, j: PortNo, priority: nat, i: PortNo)
    ensures Once(b.ports[i], SetPriority(b, j, priority).ports[i])
  {
    var c := BecomeDesignated(Reprioritized(b, j, priority), j);
    SelectionReselects(c);
    assert Once(c.ports[i], StateSelection(c, 0).ports[i]);
    hide StateSelection;
  }

  lemma CostReselects(b: Bridge, j: PortNo, cost: nat, i: PortNo)
    ensures Once(b.ports[i], SetPathCost(b, j, cost).ports[i])
  {
    SameThenReselect(b, SetPort(b, j, b.ports[j].(pathCost := cost)), false, i);
    hide Reselect;
  }

  lemma IdReselects(b: Bridge, id: nat, i: PortNo)
    ensures Once(b.ports[i], SetBridgeId(b, id).ports[i])
  {
    RenamePointwise(b, 0, id);
    SameThenReselect(b, RenameDesignated(b, 0, id).(bridgeId := id), IsRoot(b), i);
    hide ReselectAsRoot;
  }

  lemma StepIsDue(b: Bridge, e: Event, i: PortNo, k: Clock)
    requires Inv(b) && Due(b.ports[i], k)
    ensures var c := Step(b, e);
            Due(c.ports[i], Counted(k, b.ports[i].state, c.ports[i].state, Elapsed(e), c.times.forwardDelay))
  {
    assert PortOk(b, b.ports[i]);
    if e.Ticks? && e.elapsed > 0 {
      var m := TickDelays(b, e.elapsed, i);
      hide Tick;
      DelayedIsDue(b.ports[i], m, Step(b, e).ports[i], k, e.elapsed, Step(b, e).times.forwardDelay);
    } else if !e.Ticks? {
      CallReselects(b, e, i);
      hide Step;
      ReselectedIsDue(b.ports[i], Step(b, e).ports[i], k, Step(b, e).times.forwardDelay);
    }
  }

  /** In every run: a port that learns has listened, and a port that forwards has listened
      and learned, for the forward delay in force at the end of each. */
  lemma {:induction false} NoneForwardsEarly(id: nat, events: seq<Event>, i: PortNo)
    ensures Due(Run(Create(id), events).ports[i], ClockAt(id, events, i))
  {
    if events != [] {
      var front := events[..|events| - 1];
      NoneForwardsEarly(id, front, i);
      RunInvariant(id, front);
      StepIsDue(Run(Create(id), front), events[|events| - 1], i, ClockAt(id, front, i));
    }
  }

  /** One tick after any run: unless the port is blocked, or blocked and opened again, it
      goes on exactly when its timer reaches the forward delay in force. */
  lemma DelayInAnyRun(id: nat, events: seq<Event>, elapsed: nat, i: PortNo)
    requires elapsed > 0
    ensures var b := Run(Create(id), events);
            var c := Step(b, Ticks(elapsed));
            var p, q, delay := b.ports[i], c.ports[i], c.times.forwardDelay;
            var over := p.forwardDelay.value + elapsed >= delay;
            && (p.state.Listening? ==> || q.state == (if over then Learning else Listening)
                                       || q.state.Blocking? || (q.state.Listening? && q.forwardDelay == Start(elapsed)))
            && (p.state.Learning? ==> || q.state == (if over then Forwarding else Learning)
                                      || q.state.Blocking? || (q.state.Listening? && q.forwardDelay == Start(elapsed))
                                      || (elapsed >= delay && q.state.Learning? && q.forwardDelay == Start(0)))
  {
    RunInvariant(id, events);
    var b := Run(Create(id), events);
    assert PortOk(b, b.ports[i]);
    var m := TickDelays(b, elapsed, i);
    hide Tick, Run, Inv;
  }
}
