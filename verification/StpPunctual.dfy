/** Ports go on when their forward delay is over. */
module StpPunctual {
  import opened StpModel
  import opened StpSelection
  import opened StpInvariants
  import opened StpRuns
  import opened StpNetwork
  import opened StpSettling
  import opened StpDelay

  // In an orderly run ageing opens ports but never blocks one, so that the timer of a port
  // shows exactly the ticks that it has spent in its state.

  /** The root port and the designated ports. */
  predicate Open(b: Bridge, i: PortNo) {
    Enabled(b.ports[i]) && (i == b.rootPort || IsDesignated(b, b.ports[i]))
  }

  /** A port keeps its state and timer, or starts to listen. */
  predicate Opening(p: Port, q: Port) {
    || (q.state == p.state && q.forwardDelay == p.forwardDelay)
    || (p.state.Blocking? && q.state.Listening? && q.forwardDelay == Start(0))
  }

  /** Open ports stay open; no port is blocked. */
  predicate OnlyOpens(b: Bridge, c: Bridge) {
    forall i: PortNo :: (Open(b, i) ==> Open(c, i)) && Opening(b.ports[i], c.ports[i])
  }

  /** Ports that are not open block. */
  lemma SelectionOpens(b: Bridge, c: Bridge)
    requires Guarded(b) && (forall i: PortNo :: Open(b, i) ==> Open(c, i))
    requires forall i: PortNo ::
               c.ports[i].state == b.ports[i].state && c.ports[i].forwardDelay == b.ports[i].forwardDelay
    ensures OnlyOpens(b, StateSelection(c, 0))
  {
    StateSelectionPointwise(c, 0);
    var d := StateSelection(c, 0);
    forall i: PortNo ensures (Open(b, i) ==> Open(d, i)) && Opening(b.ports[i], d.ports[i]) {
      assert SamePort(StateTarget(c, i), d.ports[i]);
    }
  }

  /** The record of one port is discarded: the root port stays, or is the port itself. */
  lemma DiscardKeepsRoot(b: Bridge, d: Bridge, j: PortNo)
    requires Settled(b) && Enabled(b.ports[j]) && IsDesignated(d, d.ports[j]) && SameTree(b, d) && Numbered(d)
    requires forall i: PortNo :: i != j ==> d.ports[i] == b.ports[i]
    ensures ConfigurationUpdate(d).rootPort == b.rootPort || j == b.rootPort
  {
    SettledMeans(b);
    if j != b.rootPort {
      assert Best(d, b.rootPort, MAX_PORTS);
      RootSelectionIsUniqueMinimum(d, b.rootPort);
      UpdateEffect(d);
    }
  }

  lemma DiscardKeepsOpen(b: Bridge, d: Bridge, j: PortNo)
    requires Settled(b) && Enabled(b.ports[j]) && IsDesignated(d, d.ports[j]) && SameTree(b, d) && Numbered(d)
    requires Enabled(d.ports[j]) && forall i: PortNo :: i != j ==> d.ports[i] == b.ports[i]
    ensures var c := ConfigurationUpdate(d);
            && (forall i: PortNo :: Open(b, i) ==> Open(c, i))
            && forall i: PortNo ::
                 c.ports[i].state == d.ports[i].state && c.ports[i].forwardDelay == d.ports[i].forwardDelay
  {
    DiscardKeepsRoot(b, d, j);
    UpdateEffect(d);
    hide ConfigurationUpdate, Best, Settled;
  }

  lemma AgePortOpens(b: Bridge, j: PortNo, elapsed: nat)
    requires Sound(b) && Inv(b) && Enabled(b.ports[j])
    ensures OnlyOpens(b, AgePort(b, j, elapsed))
  {
    var p := b.ports[j];
    var c := SetPort(b, j, p.(messageAge := Advance(p.messageAge, elapsed, b.times.maxAge)));
    if Expired(p.messageAge, elapsed, b.times.maxAge) {
      var d := BecomeDesignated(c, j);
      DiscardKeepsOpen(b, d, j);
      var u := ConfigurationUpdate(d);
      SelectionOpens(b, u);
      var f := Reselect(d);
      hide ConfigurationUpdate, StateSelection, Sound;
      BecomeRootFrame(f);
      BecomeRootOpens(b, f);
    }
  }

  lemma BecomeRootOpens(b: Bridge, f: Bridge)
    requires OnlyOpens(b, f) && SameCore(f, BecomeRootBridge(f))
    ensures OnlyOpens(b, BecomeRootBridge(f))
  {
    var g := BecomeRootBridge(f);
    hide BecomeRootBridge;
    forall i: PortNo ensures (Open(b, i) ==> Open(g, i)) && Opening(b.ports[i], g.ports[i]) {
      assert SamePort(f.ports[i], g.ports[i]);
    }
  }

  lemma {:induction false} AgePortsOpen(b: Bridge, j: nat, elapsed: nat)
    requires Sound(b) && Inv(b) && j <= MAX_PORTS
    ensures OnlyOpens(b, AgePorts(b, j, elapsed))
    decreases MAX_PORTS - j
  {
    if j < MAX_PORTS {
      if Enabled(b.ports[j]) {
        var c := AgePort(b, j, elapsed);
        AgePortOpens(b, j, elapsed);
        AgePortSound(b, j, elapsed);
        AgePortKeeps(b, j, elapsed);
        hide AgePort, Sound, Inv, Open;
        AgePortsOpen(c, j + 1, elapsed);
        hide AgePorts;
        var d := AgePorts(c, j + 1, elapsed);
        forall i: PortNo ensures (Open(b, i) ==> Open(d, i)) && Opening(b.ports[i], d.ports[i]) {
          assert Opening(b.ports[i], c.ports[i]) && Opening(c.ports[i], d.ports[i]);
        }
      } else {
        hide Sound, Inv;
        AgePortsOpen(b, j + 1, elapsed);
      }
    }
  }

  /** A tick of a settled bridge, seen from one port. */
  lemma TickOpens(b: Bridge, elapsed: nat, i: PortNo) returns (m: Port)
    requires Sound(b) && Inv(b) && elapsed > 0
    ensures var c := Tick(b, elapsed);
            Opening(b.ports[i], m) && Delayed(m, c.ports[i], elapsed, c.times.forwardDelay)
  {
    var d := TopologyChangeTick(TcnTick(HelloTick(b, elapsed), elapsed), elapsed);
    TimerFrames(b, elapsed);
    assert SamePort(b.ports[i], d.ports[i]);
    CoreSound(b, d);
    CoreSafe(b, d);
    hide TopologyChangeTick, TcnTick, HelloTick, Sound, Inv;
    AgePortsOpen(d, 0, elapsed);
    var f := AgePorts(d, 0, elapsed);
    assert Opening(d.ports[i], f.ports[i]);
    AdvanceDelays(f, 0, elapsed);
    m := f.ports[i];
  }

  /** One tick after an orderly run: a port leaves listening or learning exactly when its
      timer reaches the forward delay in force, and then goes on by one state. */
  lemma DelayIsExact(id: nat, events: seq<Event>, elapsed: nat, i: PortNo)
    requires Orderly(Create(id), events) && elapsed > 0
    ensures var b := Run(Create(id), events);
            var c := Step(b, Ticks(elapsed));
            var p, q := b.ports[i], c.ports[i];
            var over := p.forwardDelay.value + elapsed >= c.times.forwardDelay;
            && (p.state.Listening? ==> q.state == if over then Learning else Listening)
            && (p.state.Learning? ==> q.state == if over then Forwarding else Learning)
            && (p.state.Forwarding? ==> q.state.Forwarding?)
  {
    RunSettled(id, events);
    var b := Run(Create(id), events);
    assert PortOk(b, b.ports[i]);
    var m := TickOpens(b, elapsed, i);
    hide Tick, Run;
  }

  /** The timer shows the clock. */
  predicate Shown(p: Port, k: Clock) {
    && (p.state.Listening? ==> p.forwardDelay == Start(k.listened))
    && (p.state.Learning? ==> p.forwardDelay == Start(k.learned))
  }

  lemma OpeningIsShown(p: Port, m: Port, q: Port, k: Clock, elapsed: nat, delay: nat)
    requires Shown(p, k) && Opening(p, m) && Delayed(m, q, elapsed, delay)
    requires p.forwardDelay.active <==> p.state.Listening? || p.state.Learning?
    ensures Shown(q, Counted(k, p.state, q.state, elapsed, delay))
  {
  }

  lemma CallIsShown(b: Bridge, e: Event, i: PortNo, k: Clock, delay: nat)
    requires Inv(b) && !e.Ticks? && Shown(b.ports[i], k)
    ensures var p, q := b.ports[i], Step(b, e).ports[i]; Shown(q, Counted(k, p.state, q.state, 0, delay))
  {
    CallReselects(b, e, i);
    assert PortOk(b, b.ports[i]);
    hide Step;
  }

  /** In every orderly run the timer shows exactly the ticks that the port has spent in its
      state. */
  lemma {:induction false} TimerShowsClock(id: nat, events: seq<Event>, i: PortNo)
    requires Orderly(Create(id), events)
    ensures Shown(Run(Create(id), events).ports[i], ClockAt(id, events, i))
  {
    if events != [] {
      var front, e := events[..|events| - 1], events[|events| - 1];
      var b, k := Run(Create(id), front), ClockAt(id, front, i);
      TimerShowsClock(id, front, i);
      RunSettled(id, front);
      assert PortOk(b, b.ports[i]);
      hide Inv, Sound, Orderly;
      if e.Ticks? && e.elapsed > 0 {
        var m := TickOpens(b, e.elapsed, i);
        hide Tick;
        OpeningIsShown(b.ports[i], m, Step(b, e).ports[i], k, e.elapsed, Step(b, e).times.forwardDelay);
      } else if !e.Ticks? {
        CallIsShown(b, e, i, k, Step(b, e).times.forwardDelay);
      }
    }
  }
}
