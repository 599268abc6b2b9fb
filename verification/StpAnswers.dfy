/** BPDUs that answer others, that were held, and that announce a new root. */
module StpAnswers {
  import opened StpModel
  import opened StpSelection
  import opened StpInvariants
  import opened StpRuns
  import opened StpSending
  import opened StpTicks

  /** The log has got a BPDU for port `i` with the bridge's own vector. */
  ghost predicate Spoke(b: Bridge, c: Bridge, i: PortNo) {
    exists k :: |b.signals.sent| <= k < |c.signals.sent| && c.signals.sent[k].SentConfig?
                && c.signals.sent[k].port == i && c.signals.sent[k].config.vector == Own(c, c.ports[i])
  }

  // ----- inferior BPDUs

  /** A BPDU that is not accepted changes nothing, except that a designated port answers it
      with its own, at once or when it is no longer held. */
  lemma InferiorBpduIsAnswered(b: Bridge, i: PortNo, config: Config)
    requires !Accepted(b, i, config)
    ensures var c, p := Step(b, Bpdu(i, config)), b.ports[i];
            if Enabled(p) && IsDesignated(b, p) && config.messageAge < config.maxAge then
              && c == b.(ports := b.ports[i := p.(out := c.ports[i].out)],
                         signals := b.signals.(sent := c.signals.sent))
              && (!p.out.hold.active && Announces(b) ==> Spoke(b, c, i) && c.ports[i].out.hold == Start(0))
              && (p.out.hold.active && (IsRoot(b) || b.rootPort != -1) ==>
                    c.signals == b.signals && c.ports[i].out == p.out.(configPending := true))
            else c == b
  {
    var c, p := Step(b, Bpdu(i, config)), b.ports[i];
    if Enabled(p) && IsDesignated(b, p) && config.messageAge < config.maxAge {
      TransmitSends(b, i);
      assert c == TransmitConfig(b, i);
      if SendsOn(b, p) {
        assert c.signals.sent[|b.signals.sent|] == SentConfig(i, ConfigFor(b, p));
      }
    }
  }

  // ----- held BPDUs

  /** Nothing that a BPDU of port `i` says or waits for has changed, and the log has grown. */
  predicate Undisturbed(b: Bridge, c: Bridge, i: PortNo) {
    && c.bridgeId == b.bridgeId && c.root == b.root && c.rootPathCost == b.rootPathCost && c.rootPort == b.rootPort
    && c.times == b.times && c.ports[i] == b.ports[i] && b.signals.sent <= c.signals.sent
    && forall j: PortNo :: c.ports[j].messageAge == b.ports[j].messageAge
  }

  lemma ForwardDelayUndisturbed(b: Bridge, j: PortNo, elapsed: nat, i: PortNo)
    requires i != j
    ensures Undisturbed(b, AdvanceForwardDelay(b, j, elapsed), i)
  {
  }

  lemma HoldUndisturbed(b: Bridge, j: PortNo, elapsed: nat, i: PortNo)
    requires i != j
    ensures Undisturbed(b, AdvanceHold(b, j, elapsed), i)
  {
  }

  lemma AdvanceOneUndisturbed(b: Bridge, j: PortNo, elapsed: nat, i: PortNo)
    requires i != j
    ensures Undisturbed(b, AdvanceHold(AdvanceForwardDelay(b, j, elapsed), j, elapsed), i)
  {
    hide AdvanceForwardDelay, AdvanceHold;
    ForwardDelayUndisturbed(b, j, elapsed, i);
    HoldUndisturbed(AdvanceForwardDelay(b, j, elapsed), j, elapsed, i);
  }

  lemma {:induction false} AdvanceUndisturbed(b: Bridge, j: nat, elapsed: nat, i: PortNo)
    requires i < j <= MAX_PORTS
    ensures Undisturbed(b, AdvancePorts(b, j, elapsed), i)
    decreases MAX_PORTS - j
  {
    if j < MAX_PORTS {
      if Enabled(b.ports[j]) {
        var d := AdvanceHold(AdvanceForwardDelay(b, j, elapsed), j, elapsed);
        AdvanceOneUndisturbed(b, j, elapsed, i);
        hide AdvanceForwardDelay, AdvanceHold;
        AdvanceUndisturbed(d, j + 1, elapsed, i);
      } else {
        AdvanceUndisturbed(b, j + 1, elapsed, i);
      }
    }
  }

  /** A port that has a BPDU to send and ceases to be held. */
  predicate Released(p: Port, elapsed: nat) {
    Enabled(p) && p.out.configPending && p.out.hold.active && p.out.hold.value + elapsed >= HOLD_TIME
  }

  lemma ReleaseOne(b: Bridge, i: PortNo, elapsed: nat)
    requires Released(b.ports[i], elapsed) && Announces(b)
    ensures var c := AdvanceHold(AdvanceForwardDelay(b, i, elapsed), i, elapsed);
            && |b.signals.sent| < |c.signals.sent| && c.ports[i].out == Outbox(false, false, Start(0))
            && c.signals.sent[|c.signals.sent| - 1].SentConfig? && c.signals.sent[|c.signals.sent| - 1].port == i
            && c.signals.sent[|c.signals.sent| - 1].config.vector == Own(c, c.ports[i])
  {
    var d := AdvanceForwardDelay(b, i, elapsed);
    assert d.ports[i].out == b.ports[i].out && d.times == b.times && b.signals.sent <= d.signals.sent;
    assert TransmittedAge(d) == TransmittedAge(b) && IsRoot(d) == IsRoot(b) && d.rootPort == b.rootPort;
    hide AdvanceForwardDelay;
    var p := d.ports[i];
    var e := SetPort(d, i, p.(out := p.out.(hold := Advance(p.out.hold, elapsed, HOLD_TIME))));
    assert !e.ports[i].out.hold.active && TransmittedAge(e) == TransmittedAge(d);
    assert AdvanceHold(d, i, elapsed) == TransmitConfig(e, i);
  }

  lemma {:induction false} AdvanceReleases(b: Bridge, j: nat, elapsed: nat, i: PortNo)
    requires j <= i && Released(b.ports[i], elapsed) && Announces(b)
    ensures var c := AdvancePorts(b, j, elapsed); Spoke(b, c, i) && c.ports[i].out == Outbox(false, false, Start(0))
    decreases MAX_PORTS - j
  {
    if Enabled(b.ports[j]) {
      var d := AdvanceHold(AdvanceForwardDelay(b, j, elapsed), j, elapsed);
      if i == j {
        ReleaseOne(b, i, elapsed);
        hide AdvanceForwardDelay, AdvanceHold;
        AdvanceUndisturbed(d, i + 1, elapsed, i);
        var c := AdvancePorts(d, i + 1, elapsed);
        assert c.signals.sent[|d.signals.sent| - 1] == d.signals.sent[|d.signals.sent| - 1];
      } else {
        AdvanceOneUndisturbed(b, j, elapsed, i);
        hide AdvanceForwardDelay, AdvanceHold;
        assert TransmittedAge(d) == TransmittedAge(b);
        AdvanceReleases(d, j + 1, elapsed, i);
      }
    } else {
      AdvanceReleases(b, j + 1, elapsed, i);
    }
  }

  /** The bridge still has something to announce when the ticks have passed. */
  predicate StillAnnounces(b: Bridge, elapsed: nat) {
    if IsRoot(b) then b.times.maxAge > 0
    else b.rootPort != -1 && (Older(b.ports[b.rootPort], elapsed).messageAge.value + 1) % 0x10000 < b.times.maxAge
  }

  /** The timers and the ageing leave the port released and the bridge with its root. */
  lemma StillReleased(b: Bridge, c: Bridge, d: Bridge, elapsed: nat, i: PortNo)
    requires Released(b.ports[i], elapsed) && StillAnnounces(b, elapsed) && SameCore(b, c) && c.times == b.times
    requires c.ports[i].out == b.ports[i].out || c.ports[i].out == OutboxAfter(b, b.ports[i])
    requires d == c.(ports := d.ports) && forall j: PortNo :: d.ports[j] == Older(c.ports[j], elapsed)
    ensures Released(d.ports[i], elapsed) && Announces(d)
  {
    assert SamePort(b.ports[i], c.ports[i]);
    if !IsRoot(b) {
      assert SamePort(b.ports[b.rootPort], c.ports[b.rootPort]);
    }
  }

  /** A BPDU that had to wait leaves in the tick that ends the second. */
  lemma HeldBpduLeaves(b: Bridge, elapsed: nat, i: PortNo)
    requires elapsed > 0 && Released(b.ports[i], elapsed) && StillAnnounces(b, elapsed)
    requires forall j: PortNo :: !AgeIsOver(b, b.ports[j], elapsed)
    ensures var c := Step(b, Ticks(elapsed)); Spoke(b, c, i) && c.ports[i].out == Outbox(false, false, Start(0))
  {
    var c := TopologyChangeTick(TcnTick(HelloTick(b, elapsed), elapsed), elapsed);
    TimersAreExact(b, elapsed);
    assert b.signals.sent <= c.signals.sent;
    hide TopologyChangeTick, TcnTick, HelloTick, TimerSignals, Released, StillAnnounces, Announces, OutboxAfter, Older;
    assert forall j: PortNo :: SamePort(b.ports[j], c.ports[j]);
    QuietAgeing(c, 0, elapsed);
    var d := AgePorts(c, 0, elapsed);
    hide AgePorts, AdvancePorts;
    StillReleased(b, c, d, elapsed, i);
    AdvanceReleases(d, 0, elapsed, i);
  }

  // ----- a new root

  /** Hold timers are as before and the log has grown. */
  predicate Held(b: Bridge, c: Bridge) {
    b.signals.sent <= c.signals.sent && forall j: PortNo :: c.ports[j].out.hold == b.ports[j].out.hold
  }

  lemma SelectStateHolds(b: Bridge, i: PortNo)
    ensures Held(b, SelectState(b, i))
  {
  }

  lemma {:induction false} SelectionHolds(b: Bridge, i: nat)
    requires i <= MAX_PORTS
    ensures Held(b, StateSelection(b, i))
    decreases MAX_PORTS - i
  {
    hide SelectState;
    if i < MAX_PORTS {
      if Enabled(b.ports[i]) {
        SelectStateHolds(b, i);
        SelectionHolds(SelectState(b, i), i + 1);
      } else {
        SelectionHolds(b, i + 1);
      }
    }
  }

  lemma ReselectHolds(b: Bridge)
    ensures Held(b, Reselect(b)) && Reselect(b).times == b.times
  {
    DesignatedSelectionPointwise(RootSelection(b), 0);
    SelectionHolds(ConfigurationUpdate(b), 0);
    SelectionFrame(ConfigurationUpdate(b), 0);
    hide StateSelection;
  }

  lemma {:induction false} SelectionFrame(b: Bridge, i: nat)
    requires i <= MAX_PORTS
    ensures StateSelection(b, i).times == b.times
    decreases MAX_PORTS - i
  {
    if i < MAX_PORTS {
      if Enabled(b.ports[i]) {
        assert SelectState(b, i).times == b.times;
        hide SelectState;
        SelectionFrame(SelectState(b, i), i + 1);
      } else {
        SelectionFrame(b, i + 1);
      }
    }
  }

  /** Every designated port has announced the root, unless it was held. */
  ghost predicate Announced(b: Bridge, c: Bridge) {
    forall j: PortNo :: Enabled(c.ports[j]) && IsDesignated(c, c.ports[j]) ==>
      c.ports[j].out.hold.active
      && if b.ports[j].out.hold.active then c.ports[j].out.configPending else Spoke(b, c, j)
  }

  lemma GenerationAnnounces(b: Bridge, j: PortNo)
    requires Announces(b) && Enabled(b.ports[j]) && IsDesignated(b, b.ports[j])
    ensures var c := ConfigGeneration(b, 0);
            && c.ports[j].out.hold.active && |b.signals.sent| <= |c.signals.sent|
            && if b.ports[j].out.hold.active then c.ports[j].out.configPending
               else SentConfig(j, ConfigFor(b, b.ports[j])) in c.signals.sent[|b.signals.sent|..]
  {
    GenerationSends(b, 0);
    HellosAreExact(b, 0);
    hide ConfigGeneration, Hellos;
    assert (b.signals.sent + Hellos(b, 0))[|b.signals.sent|..] == Hellos(b, 0);
  }

  lemma BecomeRootAnnounces(b: Bridge)
    requires IsRoot(b) && b.times.bridgeMaxAge > 0
    ensures Announced(b, BecomeRootBridge(b)) && b.signals.sent <= BecomeRootBridge(b).signals.sent
  {
    var t := TopologyChangeDetection(b.(times := OwnTimes(b.times)));
    var x := t.(signals := t.signals.(tcn := Stop(t.signals.tcn)));
    assert Announces(x) && x.ports == b.ports && x.signals.sent == b.signals.sent && x.bridgeId == b.bridgeId;
    assert x.root == b.root && x.rootPathCost == b.rootPathCost;
    GenerationSends(x, 0);
    var c := BecomeRootBridge(b);
    BecomeRootFrame(b);
    assert c.signals.sent == ConfigGeneration(x, 0).signals.sent && c.ports == ConfigGeneration(x, 0).ports;
    hide ConfigGeneration, TopologyChangeDetection, BecomeRootBridge, Hellos, Announces;
    forall j: PortNo | Enabled(c.ports[j]) && IsDesignated(c, c.ports[j])
      ensures c.ports[j].out.hold.active
      ensures if b.ports[j].out.hold.active then c.ports[j].out.configPending else Spoke(b, c, j)
    {
      assert SamePort(b.ports[j], c.ports[j]);
      GenerationAnnounces(x, j);
      if !b.ports[j].out.hold.active {
        SpeaksOf(b, c, j, SentConfig(j, ConfigFor(x, x.ports[j])));
      }
    }
  }

  lemma SpeaksOf(b: Bridge, c: Bridge, j: PortNo, s: Sent)
    requires |b.signals.sent| <= |c.signals.sent| && s in c.signals.sent[|b.signals.sent|..]
    requires s.SentConfig? && s.port == j && s.config.vector == Own(c, c.ports[j])
    ensures Spoke(b, c, j)
  {
    var k :| 0 <= k < |c.signals.sent| - |b.signals.sent| && c.signals.sent[|b.signals.sent|..][k] == s;
    assert c.signals.sent[|b.signals.sent| + k] == s;
  }

  lemma AnnouncedSince(b: Bridge, r: Bridge, c: Bridge)
    requires Held(b, r) && Announced(r, c)
    ensures Announced(b, c)
  {
    forall j: PortNo | Enabled(c.ports[j]) && IsDesignated(c, c.ports[j]) && !b.ports[j].out.hold.active
      ensures Spoke(b, c, j)
    {
      assert Spoke(r, c, j);
    }
  }

  lemma ReselectAnnounces(b: Bridge)
    requires b.times.bridgeMaxAge > 0
    ensures IsRoot(ReselectAsRoot(b, false)) ==> Announced(b, ReselectAsRoot(b, false))
  {
    var r := Reselect(b);
    ReselectHolds(b);
    hide Reselect;
    if IsRoot(r) {
      BecomeRootAnnounces(r);
      hide BecomeRootBridge;
      AnnouncedSince(b, r, BecomeRootBridge(r));
    }
  }

  /** A bridge that becomes root because a port goes down, or because of a smaller id,
      announces it on all its designated ports. */
  lemma NewRootAnnounces(b: Bridge, e: Event)
    requires !IsRoot(b) && b.times.bridgeMaxAge > 0 && (e.Disable? || e.BridgeMac? || e.BridgePriority?)
    ensures IsRoot(Step(b, e)) ==> Announced(b, Step(b, e))
  {
    hide ReselectAsRoot, Announced, Reselect;
    match e
    case Disable(i) =>
      var d := Detach(b, i);
      ReselectAnnounces(d);
      assert Held(b, d) && d.bridgeId == b.bridgeId;
      if Enabled(b.ports[i]) && IsRoot(Step(b, e)) {
        AnnouncedSince(b, d, Step(b, e));
      }
    case BridgeMac(mac) => RenameAnnounces(b, WithMac(b.bridgeId, mac));
    case BridgePriority(priority) => RenameAnnounces(b, WithPriority(b.bridgeId, priority));
  }

  lemma RenameAnnounces(b: Bridge, id: nat)
    requires !IsRoot(b) && b.times.bridgeMaxAge > 0
    ensures IsRoot(SetBridgeId(b, id)) ==> Announced(b, SetBridgeId(b, id))
  {
    hide ReselectAsRoot, Announced, Reselect;
    if id != b.bridgeId {
      var d := RenameDesignated(b, 0, id).(bridgeId := id);
      RenameHolds(b, 0, id);
      ReselectAnnounces(d);
      if IsRoot(SetBridgeId(b, id)) {
        AnnouncedSince(b, d, SetBridgeId(b, id));
      }
    }
  }

  lemma {:induction false} RenameHolds(b: Bridge, i: nat, id: nat)
    requires i <= MAX_PORTS
    ensures Held(b, RenameDesignated(b, i, id)) && RenameDesignated(b, i, id).times == b.times
    decreases MAX_PORTS - i
  {
    if i < MAX_PORTS {
      var p := b.ports[i];
      if Enabled(p) && IsDesignated(b, p) {
        RenameHolds(SetPort(b, i, p.(designated := p.designated.(bridge := id))), i + 1, id);
      } else {
        RenameHolds(b, i + 1, id);
      }
    }
  }
}
