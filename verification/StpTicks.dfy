/** What one tick does when no information is too old, and when some is. */
module StpTicks {
  import opened StpModel
  import opened StpSelection
  import opened StpInvariants
  import opened StpRuns
  import opened StpNetwork
  import opened StpSending
  import opened StpFollowing

  predicate AgeIsOver(b: Bridge, p: Port, elapsed: nat) {
    Enabled(p) && p.messageAge.active && p.messageAge.value + elapsed >= b.times.maxAge
  }

  /** No information is too old, no port finishes learning, and no port that may have a BPDU
      to send ceases to be held. */
  predicate Uneventful(b: Bridge, elapsed: nat) {
    forall i: PortNo :: Enabled(b.ports[i]) ==>
      && !AgeIsOver(b, b.ports[i], elapsed)
      && (b.ports[i].state.Learning? ==> b.ports[i].forwardDelay.value + elapsed < b.times.forwardDelay)
      && (b.ports[i].out.hold.active && b.ports[i].out.hold.value + elapsed >= HOLD_TIME
          ==> !b.ports[i].out.configPending && !IsDesignated(b, b.ports[i]))
  }

  predicate HelloIsDue(b: Bridge, elapsed: nat) {
    b.signals.hello.active && b.signals.hello.value + elapsed >= b.times.helloTime
  }

  predicate TcnIsDue(b: Bridge, elapsed: nat) {
    b.signals.tcn.active && b.signals.tcn.value + elapsed >= b.times.bridgeHelloTime
  }

  predicate ChangeIsOver(b: Bridge, elapsed: nat) {
    && b.signals.topologyChangeTimer.active
    && b.signals.topologyChangeTimer.value + elapsed >= b.times.maxAge + b.times.forwardDelay
  }

  /** A running timer that is not due shows the ticks that have passed; one that is due
      starts anew. */
  function Rewound(t: Timer, elapsed: nat, due: bool): Timer {
    if due then Start(0) else if t.active then Start(t.value + elapsed) else t
  }

  // ----- the three timers of the bridge

  lemma {:induction false} SameHellos(b: Bridge, c: Bridge, i: nat)
    requires i <= MAX_PORTS && SameTree(b, c) && b.ports == c.ports && b.times == c.times
    requires b.signals.topologyChange == c.signals.topologyChange
    ensures Hellos(b, i) == Hellos(c, i)
    decreases MAX_PORTS - i
  {
    if i < MAX_PORTS {
      SameHellos(b, c, i + 1);
    }
  }

  lemma HelloTickIsExact(b: Bridge, elapsed: nat)
    ensures var c := HelloTick(b, elapsed);
            var due := HelloIsDue(b, elapsed);
            && c.signals == b.signals.(hello := Rewound(b.signals.hello, elapsed, due),
                                       sent := b.signals.sent + if due then Hellos(b, 0) else [])
            && SameCore(b, c) && c.times == b.times
            && forall j: PortNo :: c.ports[j].out == if due then OutboxAfter(b, b.ports[j]) else b.ports[j].out
  {
    var a := b.(signals := b.signals.(hello := Advance(b.signals.hello, elapsed, b.times.helloTime)));
    if HelloIsDue(b, elapsed) {
      GenerationSends(a, 0);
      GenerationSignals(a, 0);
      SameHellos(a, b, 0);
      hide ConfigGeneration, Hellos;
      assert forall j: PortNo :: OutboxAfter(a, a.ports[j]) == OutboxAfter(b, b.ports[j]);
    } else {
      assert b.signals.sent + [] == b.signals.sent;
    }
  }

  function TcnLog(b: Bridge, elapsed: nat): seq<Sent> {
    if TcnIsDue(b, elapsed) && b.rootPort != -1 then [SentTcn(b.rootPort)] else []
  }

  /** The signals after all three timers. */
  function TimerSignals(b: Bridge, elapsed: nat): Signals {
    var s, over := b.signals, ChangeIsOver(b, elapsed);
    Signals(s.topologyChangeDetected && !over, s.topologyChange && !over,
            Rewound(s.hello, elapsed, HelloIsDue(b, elapsed)), Rewound(s.tcn, elapsed, TcnIsDue(b, elapsed)),
            if over then Timer(false, s.topologyChangeTimer.value + elapsed)
            else Rewound(s.topologyChangeTimer, elapsed, false),
            s.sent + (if HelloIsDue(b, elapsed) then Hellos(b, 0) else []) + TcnLog(b, elapsed))
  }

  lemma TimersAreExact(b: Bridge, elapsed: nat)
    ensures var c := TopologyChangeTick(TcnTick(HelloTick(b, elapsed), elapsed), elapsed);
            && c.signals == TimerSignals(b, elapsed) && c.times == b.times && SameCore(b, c)
            && forall j: PortNo :: c.ports[j].out == if HelloIsDue(b, elapsed) then OutboxAfter(b, b.ports[j])
                                                     else b.ports[j].out
  {
    HelloTickIsExact(b, elapsed);
    hide HelloTick, Hellos, OutboxAfter;
    var h := HelloTick(b, elapsed);
    var k := TcnTick(h, elapsed);
    assert k == h.(signals := k.signals);
    assert h.signals.sent + [] == h.signals.sent;
  }

  // ----- ports

  function Older(p: Port, elapsed: nat): Port {
    if Enabled(p) && p.messageAge.active then p.(messageAge := Start(p.messageAge.value + elapsed)) else p
  }

  lemma {:induction false} QuietAgeing(b: Bridge, i: nat, elapsed: nat)
    requires i <= MAX_PORTS && forall j: PortNo :: j >= i ==> !AgeIsOver(b, b.ports[j], elapsed)
    ensures var c := AgePorts(b, i, elapsed);
            && c == b.(ports := c.ports)
            && forall j: PortNo :: c.ports[j] == if j < i then b.ports[j] else Older(b.ports[j], elapsed)
    decreases MAX_PORTS - i
  {
    if i < MAX_PORTS {
      if Enabled(b.ports[i]) {
        assert AgePort(b, i, elapsed) == SetPort(b, i, Older(b.ports[i], elapsed));
        hide AgePort;
        QuietAgeing(AgePort(b, i, elapsed), i + 1, elapsed);
      } else {
        QuietAgeing(b, i + 1, elapsed);
      }
    }
  }

  /** The port changes its state or sends without anyone noticing. */
  predicate Unnoticed(b: Bridge, p: Port, elapsed: nat) {
    && !(p.state.Learning? && Expired(p.forwardDelay, elapsed, b.times.forwardDelay))
    && !(Expired(p.out.hold, elapsed, HOLD_TIME) && p.out.configPending)
  }

  lemma QuietAdvanceOne(b: Bridge, i: PortNo, elapsed: nat)
    requires Unnoticed(b, b.ports[i], elapsed)
    ensures var d := AdvanceHold(AdvanceForwardDelay(b, i, elapsed), i, elapsed);
            && SameVectors(b, d) && d.signals == b.signals && d.times == b.times
            && d.ports[i].messageAge == b.ports[i].messageAge
            && forall j: PortNo :: j != i ==> d.ports[j] == b.ports[j]
  {
    var c := AdvanceForwardDelay(b, i, elapsed);
    assert c.signals == b.signals && c.times == b.times && c.ports[i].out == b.ports[i].out;
  }

  lemma {:induction false} QuietAdvance(b: Bridge, i: nat, elapsed: nat)
    requires i <= MAX_PORTS
    requires forall j: PortNo :: j >= i && Enabled(b.ports[j]) ==> Unnoticed(b, b.ports[j], elapsed)
    ensures var c := AdvancePorts(b, i, elapsed);
            && SameVectors(b, c) && c.signals == b.signals && c.times == b.times
            && forall j: PortNo :: c.ports[j].messageAge == b.ports[j].messageAge
    decreases MAX_PORTS - i
  {
    if i < MAX_PORTS {
      if Enabled(b.ports[i]) {
        var d := AdvanceHold(AdvanceForwardDelay(b, i, elapsed), i, elapsed);
        QuietAdvanceOne(b, i, elapsed);
        hide AdvanceForwardDelay, AdvanceHold;
        QuietAdvance(d, i + 1, elapsed);
      } else {
        QuietAdvance(b, i + 1, elapsed);
      }
    }
  }

  lemma StaysUnnoticed(b: Bridge, c: Bridge, d: Bridge, elapsed: nat, j: PortNo)
    requires Uneventful(b, elapsed) && Enabled(b.ports[j]) && SamePort(b.ports[j], c.ports[j])
    requires c.ports[j].out == (if HelloIsDue(b, elapsed) then OutboxAfter(b, b.ports[j]) else b.ports[j].out)
    requires d.ports[j] == Older(c.ports[j], elapsed) && d.times == b.times && elapsed > 0
    ensures Unnoticed(d, d.ports[j], elapsed)
  {
  }

  /** An uneventful tick: hellos, a notification and the end of a topology change exactly
      when due; all records stay, and those heard from others are older. */
  lemma QuietTickIsExact(b: Bridge, elapsed: nat)
    requires elapsed > 0 && Uneventful(b, elapsed)
    ensures var c := Step(b, Ticks(elapsed));
            && c.signals == TimerSignals(b, elapsed) && c.times == b.times && SameVectors(b, c)
            && forall j: PortNo :: c.ports[j].messageAge == Older(b.ports[j], elapsed).messageAge
  {
    var c := TopologyChangeTick(TcnTick(HelloTick(b, elapsed), elapsed), elapsed);
    TimersAreExact(b, elapsed);
    hide TopologyChangeTick, TcnTick, HelloTick, TimerSignals;
    assert forall j: PortNo :: SamePort(b.ports[j], c.ports[j]);
    QuietAgeing(c, 0, elapsed);
    var d := AgePorts(c, 0, elapsed);
    hide AgePorts;
    forall j: PortNo | Enabled(d.ports[j]) ensures Unnoticed(d, d.ports[j], elapsed) {
      StaysUnnoticed(b, c, d, elapsed, j);
    }
    QuietAdvance(d, 0, elapsed);
  }

  // ----- information that is too old

  lemma OldPortKept(b: Bridge, i: PortNo, elapsed: nat)
    requires Inv(b) && AgeIsOver(b, b.ports[i], elapsed)
    ensures var c := AgePort(b, i, elapsed); Kept(b, c) && IsDesignated(c, c.ports[i])
  {
    var p := b.ports[i];
    var c := SetPort(b, i, p.(messageAge := Advance(p.messageAge, elapsed, b.times.maxAge)));
    var d := BecomeDesignated(c, i);
    forall j: PortNo ensures PortOk(d, d.ports[j]) {
      assert PortOk(b, b.ports[j]);
    }
    assert Weak(d) && Kept(b, d) && IsDesignated(d, d.ports[i]);
    assert AgePort(b, i, elapsed) == ReselectAsRoot(d, IsRoot(c));
    hide ReselectAsRoot, Inv, AgePort, Weak;
    ReselectAsRootRestores(d, IsRoot(c));
  }

  lemma AgePortKept(b: Bridge, i: PortNo, elapsed: nat)
    requires Inv(b) && Enabled(b.ports[i])
    ensures Kept(b, AgePort(b, i, elapsed))
    ensures AgeIsOver(b, b.ports[i], elapsed) ==> IsDesignated(AgePort(b, i, elapsed), AgePort(b, i, elapsed).ports[i])
    ensures !AgeIsOver(b, b.ports[i], elapsed) ==> AgePort(b, i, elapsed) == SetPort(b, i, Older(b.ports[i], elapsed))
  {
    if AgeIsOver(b, b.ports[i], elapsed) {
      OldPortKept(b, i, elapsed);
      hide AgePort;
    }
  }

  lemma {:induction false} AgePortsKept(b: Bridge, i: nat, elapsed: nat)
    requires Inv(b) && i <= MAX_PORTS
    ensures Kept(b, AgePorts(b, i, elapsed))
    decreases MAX_PORTS - i
  {
    if i < MAX_PORTS {
      if Enabled(b.ports[i]) {
        AgePortKept(b, i, elapsed);
        AgePortKeeps(b, i, elapsed);
        hide AgePort, Inv;
        AgePortsKept(AgePort(b, i, elapsed), i + 1, elapsed);
      } else {
        hide Inv;
        AgePortsKept(b, i + 1, elapsed);
      }
    }
  }

  lemma {:induction false} FirstExpiryDiscards(b: Bridge, i: nat, j: PortNo, elapsed: nat)
    requires Inv(b) && i <= j && AgeIsOver(b, b.ports[j], elapsed)
    requires forall k: PortNo :: i <= k < j ==> !AgeIsOver(b, b.ports[k], elapsed)
    ensures var c := AgePorts(b, i, elapsed); IsDesignated(c, c.ports[j]) && Enabled(c.ports[j])
    decreases j - i
  {
    if Enabled(b.ports[i]) {
      var c := AgePort(b, i, elapsed);
      AgePortKept(b, i, elapsed);
      AgePortKeeps(b, i, elapsed);
      hide AgePort, Inv;
      if i == j {
        AgePortsKept(c, i + 1, elapsed);
        assert AgePorts(b, i, elapsed) == AgePorts(c, i + 1, elapsed);
      } else {
        assert c == SetPort(b, i, Older(b.ports[i], elapsed));
        FirstExpiryDiscards(c, i + 1, j, elapsed);
      }
    } else {
      hide Inv;
      FirstExpiryDiscards(b, i + 1, j, elapsed);
    }
  }

  /** The first port whose information is too old falls to the bridge itself. */
  lemma OldInformationIsDiscarded(b: Bridge, elapsed: nat, j: PortNo)
    requires Inv(b) && elapsed > 0 && AgeIsOver(b, b.ports[j], elapsed)
    requires forall k: PortNo :: k < j ==> !AgeIsOver(b, b.ports[k], elapsed)
    ensures var c := Step(b, Ticks(elapsed)); IsDesignated(c, c.ports[j])
  {
    var c := TopologyChangeTick(TcnTick(HelloTick(b, elapsed), elapsed), elapsed);
    TimerFrames(b, elapsed);
    CoreSafe(b, c);
    hide TopologyChangeTick, TcnTick, HelloTick;
    assert forall k: PortNo :: SamePort(b.ports[k], c.ports[k]);
    FirstExpiryDiscards(c, 0, j, elapsed);
    AgePortsKeeps(c, 0, elapsed);
    AdvancePortsKeeps(AgePorts(c, 0, elapsed), 0, elapsed);
  }
}
