/** The relations between the times a bridge uses as root. */
module StpTimes {
  import opened StpModel
  import opened StpSelection
  import opened StpRuns

  // The times are clamped in milliseconds and then rounded down to timer ticks.  The
  // documented relations are read in ticks, the unit in which they are sent and used.

  /** The clamped max age and forward delay, in milliseconds. */
  function MaxAgeMs(t: Times): nat {
    var ht := Clamp(t.rqHelloTime, 1000, 10000);
    Clamp(t.rqMaxAge, if 2 * (ht + 1000) > 6000 then 2 * (ht + 1000) else 6000, 40000)
  }

  /** The least forward delay in milliseconds that is long enough for `ma`. */
  function LeastDelay(ma: nat): nat { 1000 + (125 * ((MsToTimer(ma) + 1) / 2) + 31) / 32 }

  /** The relation that is promised between forward delay and max age; a second is
      `HOLD_TIME` ticks. */
  predicate DelaysLongEnough(t: Times) { 2 * (t.bridgeForwardDelay - HOLD_TIME) >= t.bridgeMaxAge }

  /** The ranges, the relation between max age and hello time, and what is left of the
      relation between forward delay and max age after rounding. */
  predicate Related(t: Times) {
    && 256 <= t.bridgeHelloTime <= 2560 && 1536 <= t.bridgeMaxAge <= 10240
    && 1024 <= t.bridgeForwardDelay <= 7680
    && t.bridgeMaxAge >= 2 * (t.bridgeHelloTime + HOLD_TIME)
    && 2 * (t.bridgeForwardDelay - HOLD_TIME) >= t.bridgeMaxAge - 2
  }

  /** The promised relation holds exactly if a long enough forward delay was asked for, or
      the lower end of its range is long enough. */
  predicate AskedLongEnough(t: Times) {
    var ma := MaxAgeMs(t);
    t.rqForwardDelay >= LeastDelay(ma) || ma / 2 + 1000 >= LeastDelay(ma)
  }

  predicate Consistent(t: Times) { Related(t) && (DelaysLongEnough(t) <==> AskedLongEnough(t)) }

  lemma TicksAtLeast(ms: nat, ticks: nat)
    ensures MsToTimer(ms) >= ticks <==> 32 * ms >= 125 * ticks
  {
    var m := MsToTimer(ms);
    assert 1000 * m <= ms * 256 < 1000 * m + 1000;
  }

  lemma CeilAtLeast(x: int, n: nat)
    ensures x >= (n + 31) / 32 <==> 32 * x >= n
  {
    var q := (n + 31) / 32;
    assert 32 * q <= n + 31 < 32 * q + 32;
  }

  lemma LeastDelaySuffices(ma: nat, fd: nat)
    ensures 2 * (MsToTimer(fd) - HOLD_TIME) >= MsToTimer(ma) <==> fd >= LeastDelay(ma)
  {
    var half := (MsToTimer(ma) + 1) / 2;
    TicksAtLeast(fd, HOLD_TIME + half);
    CeilAtLeast(fd - 1000, 125 * half);
    hide MsToTimer;
  }

  lemma LeastDelayInRange(ma: nat)
    requires ma <= 40000
    ensures LeastDelay(ma) <= 30000
  {
    TicksAtLeast(ma, 10241);
  }

  lemma UpdateIsConsistent(b: Bridge)
    ensures Consistent(UpdateBridgeTimers(b).times)
  {
    var t := UpdateBridgeTimers(b).times;
    var ma := MaxAgeMs(t);
    var fd := Clamp(t.rqForwardDelay, ma / 2 + 1000, 30000);
    assert t.bridgeMaxAge == MsToTimer(ma) && t.bridgeForwardDelay == MsToTimer(fd);
    LeastDelaySuffices(ma, fd);
    LeastDelayInRange(ma);
    hide LeastDelay;
    assert DelaysLongEnough(t) <==> AskedLongEnough(t);
    UpdateIsRelated(b);
  }

  lemma UpdateIsRelated(b: Bridge)
    ensures Related(UpdateBridgeTimers(b).times)
  {
    var t := b.times;
    var ht := Clamp(t.rqHelloTime, 1000, 10000);
    var ma := MaxAgeMs(t);
    var fd := Clamp(t.rqForwardDelay, ma / 2 + 1000, 30000);
    RelatedInTicks(ht, ma, fd);
  }

  lemma RelatedInTicks(ht: nat, ma: nat, fd: nat)
    requires 1000 <= ht <= 10000 && 6000 <= ma <= 40000 && ma >= 2 * (ht + 1000) && ma / 2 + 1000 <= fd <= 30000
    ensures 256 <= MsToTimer(ht) <= 2560 && 1536 <= MsToTimer(ma) <= 10240 && 1024 <= MsToTimer(fd) <= 7680
    ensures MsToTimer(ma) >= 2 * (MsToTimer(ht) + HOLD_TIME)
    ensures 2 * (MsToTimer(fd) - HOLD_TIME) >= MsToTimer(ma) - 2
  {
    var h, m, f := MsToTimer(ht), MsToTimer(ma), MsToTimer(fd);
    assert 1000 * h <= ht * 256 < 1000 * h + 1000;
    assert 1000 * m <= ma * 256 < 1000 * m + 1000;
    assert 1000 * f <= fd * 256 < 1000 * f + 1000;
    hide MsToTimer;
    assert 2 * fd >= ma + 1999;
  }

  // ----- every run

  /** Only the times in force may differ. */
  predicate SameSettings(s: Times, t: Times) {
    t == s.(maxAge := t.maxAge, helloTime := t.helloTime, forwardDelay := t.forwardDelay)
  }

  lemma ReselectSettings(b: Bridge, wasRoot: bool)
    ensures Reselect(b).times == b.times && SameSettings(b.times, ReselectAsRoot(b, wasRoot).times)
  {
    DesignatedSelectionPointwise(RootSelection(b), 0);
    StateSelectionPointwise(ConfigurationUpdate(b), 0);
    var c := Reselect(b);
    var d := TopologyChangeDetection(c.(times := OwnTimes(c.times)));
    ConfigGenerationFrame(d.(signals := d.signals.(tcn := Stop(d.signals.tcn))), 0);
  }

  lemma BpduSettings(b: Bridge, i: PortNo, config: Config)
    ensures SameSettings(b.times, ReceivedConfig(b, i, config).times)
  {
    var c := Reselect(RecordConfig(b, i, config));
    ReselectSettings(RecordConfig(b, i, config), false);
    var d := if !IsRoot(c) && IsRoot(b) then LoseRoot(c) else c;
    ConfigGenerationFrame(
      d.(times := d.times.(maxAge := config.maxAge, helloTime := config.helloTime,
                           forwardDelay := config.forwardDelay),
         signals := d.signals.(topologyChange := config.topologyChange)), 0);
  }

  lemma {:induction false} AgePortsSettings(b: Bridge, i: nat, elapsed: nat)
    requires i <= MAX_PORTS
    ensures SameSettings(b.times, AgePorts(b, i, elapsed).times)
    decreases MAX_PORTS - i
  {
    if i < MAX_PORTS {
      if Enabled(b.ports[i]) {
        var c := SetPort(b, i, b.ports[i].(messageAge := Advance(b.ports[i].messageAge, elapsed, b.times.maxAge)));
        ReselectSettings(BecomeDesignated(c, i), IsRoot(c));
        AgePortsSettings(AgePort(b, i, elapsed), i + 1, elapsed);
      } else {
        AgePortsSettings(b, i + 1, elapsed);
      }
    }
  }

  lemma {:induction false} AdvancePortsSettings(b: Bridge, i: nat, elapsed: nat)
    requires i <= MAX_PORTS
    ensures AdvancePorts(b, i, elapsed).times == b.times
    decreases MAX_PORTS - i
  {
    if i < MAX_PORTS {
      if Enabled(b.ports[i]) {
        var c := AdvanceForwardDelay(b, i, elapsed);
        assert c.times == b.times;
        AdvancePortsSettings(AdvanceHold(c, i, elapsed), i + 1, elapsed);
      } else {
        AdvancePortsSettings(b, i + 1, elapsed);
      }
    }
  }

  lemma TickSettings(b: Bridge, elapsed: nat)
    ensures SameSettings(b.times, Tick(b, elapsed).times)
  {
    var c := TopologyChangeTick(TcnTick(HelloTick(b, elapsed), elapsed), elapsed);
    TimerFrames(b, elapsed);
    hide TopologyChangeTick, TcnTick, HelloTick;
    AgePortsSettings(c, 0, elapsed);
    AdvancePortsSettings(AgePorts(c, 0, elapsed), 0, elapsed);
  }

  lemma ManagementSettings(b: Bridge, e: Event)
    requires e.Enable? || e.Disable? || e.Priority? || e.PathCost? || e.Speed? || e.BridgeMac? || e.BridgePriority?
    ensures SameSettings(b.times, Step(b, e).times)
  {
    hide Reselect, ReselectAsRoot, StateSelection, WithMac, WithPriority;
    match e
    case Enable(i) => StateSelectionPointwise(InitializePort(b, i, Blocking), 0);
    case Disable(i) => ReselectSettings(Detach(b, i), IsRoot(b));
    case Priority(i, priority) =>
      StateSelectionPointwise(BecomeDesignated(Reprioritized(b, i, priority), i), 0);
    case PathCost(i, cost) => ReselectSettings(SetPort(b, i, b.ports[i].(pathCost := cost)), false);
    case Speed(i, speed) => ReselectSettings(SetPort(b, i, b.ports[i].(pathCost := SpeedCost(speed))), false);
    case BridgeMac(mac) => BridgeIdSettings(b, WithMac(b.bridgeId, mac));
    case BridgePriority(priority) => BridgeIdSettings(b, WithPriority(b.bridgeId, priority));
  }

  lemma BridgeIdSettings(b: Bridge, id: nat)
    ensures SameSettings(b.times, SetBridgeId(b, id).times)
  {
    RenamePointwise(b, 0, id);
    ReselectSettings(RenameDesignated(b, 0, id).(bridgeId := id), IsRoot(b));
  }

  lemma SettingsConsistent(s: Times, t: Times)
    requires Consistent(s) && SameSettings(s, t)
    ensures Consistent(t)
  {
  }

  lemma StepSettings(b: Bridge, e: Event)
    requires !e.HelloTime? && !e.MaxAge? && !e.ForwardDelay?
    ensures SameSettings(b.times, Step(b, e).times)
  {
    match e
    case Ticks(elapsed) => TickSettings(b, elapsed);
    case Bpdu(i, config) => BpduSettings(b, i, config);
    case Tcn(i) =>
    case ChangeDetection(i, on) =>
    case ChangedPort =>
    case _ => ManagementSettings(b, e);
  }

  lemma StepConsistent(b: Bridge, e: Event)
    requires Consistent(b.times)
    ensures Consistent(Step(b, e).times)
  {
    hide Consistent, UpdateBridgeTimers;
    match e
    case HelloTime(ms) => UpdateIsConsistent(b.(times := b.times.(rqHelloTime := ms)));
    case MaxAge(ms) => UpdateIsConsistent(b.(times := b.times.(rqMaxAge := ms)));
    case ForwardDelay(ms) => UpdateIsConsistent(b.(times := b.times.(rqForwardDelay := ms)));
    case _ =>
      StepSettings(b, e);
      SettingsConsistent(b.times, Step(b, e).times);
  }

  /** In every run the times stay in range and leave room for the hellos, and forward
      delays are long enough exactly if they were asked for long enough. */
  lemma {:induction false} RunConsistent(id: nat, events: seq<Event>)
    ensures Consistent(Run(Create(id), events).times)
  {
    hide Consistent;
    if events == [] {
      CreateConsistent(id);
    } else {
      hide Step;
      var front := events[..|events| - 1];
      RunConsistent(id, front);
      StepConsistent(Run(Create(id), front), events[|events| - 1]);
    }
  }

  lemma CreateConsistent(id: nat)
    ensures Consistent(Create(id).times)
  {
  }

  lemma RunOfOne(b: Bridge, e: Event)
    ensures Run(b, [e]) == Step(b, e)
  {
    assert [e][..0] == [];
    assert Run(b, []) == b;
  }

  /** They can be too short, on every bridge: a max age of 6007 ms makes 1537 ticks, and
      the forward delay of 4 s less a second, doubled, 1536.  With 6047 ms the two ticks
      that rounding may cost are lost. */
  lemma DelaysTooShort(id: nat)
    ensures var t := Run(Create(id), [MaxAge(6007)]).times;
            t.bridgeMaxAge == 1537 && 2 * (t.bridgeForwardDelay - HOLD_TIME) == 1536
    ensures var t := Run(Create(id), [MaxAge(6047)]).times;
            2 * (t.bridgeForwardDelay - HOLD_TIME) == t.bridgeMaxAge - 2
  {
    RunOfOne(Create(id), MaxAge(6007));
    RunOfOne(Create(id), MaxAge(6047));
  }
}
