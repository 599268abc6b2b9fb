/** What a bridge takes over from its root, and passes on. */
module StpFollowing {
  import opened StpModel
  import opened StpSelection
  import opened StpRuns
  import opened StpSending

  // An accepted BPDU on what is then the root port sets the times in force and the topology
  // change flag, and the bridge passes on what it has heard; on any other port it sets
  // nothing and nothing is passed on.

  /** The log has grown by notifications only. */
  predicate OnlyTcns(b: Bridge, c: Bridge) {
    && |b.signals.sent| <= |c.signals.sent| && c.signals.sent[..|b.signals.sent|] == b.signals.sent
    && forall k :: |b.signals.sent| <= k < |c.signals.sent| ==> c.signals.sent[k].SentTcn?
  }

  lemma OnlyTcnsTransitive(b: Bridge, c: Bridge, d: Bridge)
    requires OnlyTcns(b, c) && OnlyTcns(c, d)
    ensures OnlyTcns(b, d)
  {
    var s, t, u := b.signals.sent, c.signals.sent, d.signals.sent;
    assert u[..|s|] == u[..|t|][..|s|];
    forall k | |s| <= k < |u| ensures u[k].SentTcn? {
      assert k < |t| ==> u[k] == u[..|t|][k];
    }
  }

  lemma SelectStateLogs(b: Bridge, i: PortNo)
    ensures OnlyTcns(b, SelectState(b, i))
  {
  }

  lemma {:induction false} SelectionLogs(b: Bridge, i: nat)
    requires i <= MAX_PORTS
    ensures OnlyTcns(b, StateSelection(b, i))
    decreases MAX_PORTS - i
  {
    hide SelectState;
    if i < MAX_PORTS {
      if Enabled(b.ports[i]) {
        SelectStateLogs(b, i);
        SelectionLogs(SelectState(b, i), i + 1);
        hide OnlyTcns;
        OnlyTcnsTransitive(b, SelectState(b, i), StateSelection(SelectState(b, i), i + 1));
      } else {
        SelectionLogs(b, i + 1);
      }
    } else {
      assert b.signals.sent[..|b.signals.sent|] == b.signals.sent;
    }
  }

  lemma ReselectLogs(b: Bridge)
    ensures OnlyTcns(b, Reselect(b)) && Reselect(b).times == b.times
  {
    DesignatedSelectionPointwise(RootSelection(b), 0);
    var c := ConfigurationUpdate(b);
    assert c.signals == b.signals && c.times == b.times;
    SelectionLogs(c, 0);
    StateSelectionPointwise(c, 0);
    hide ConfigurationUpdate, StateSelection;
  }

  /** The state after reselection, before the root's information is taken over. */
  function Recorded(b: Bridge, i: PortNo, config: Config): Bridge {
    var c := Reselect(RecordConfig(b, i, config));
    if !IsRoot(c) && IsRoot(b) then LoseRoot(c) else c
  }

  lemma RecordedLogs(b: Bridge, i: PortNo, config: Config)
    ensures var d := Recorded(b, i, config);
            OnlyTcns(b, d) && d.times == b.times && SameCore(Reselect(RecordConfig(b, i, config)), d)
  {
    var r := RecordConfig(b, i, config);
    var c := Reselect(r);
    ReselectLogs(r);
    SignalFrames(c, config);
    hide Reselect;
    assert OnlyTcns(b, c);
    if !IsRoot(c) && IsRoot(b) {
      assert OnlyTcns(c, LoseRoot(c));
      OnlyTcnsTransitive(b, c, LoseRoot(c));
    } else {
      assert SameCore(c, c);
    }
  }

  /** Taking over the times and the flag of a root. */
  function TakenOver(b: Bridge, config: Config): Bridge {
    b.(times := b.times.(maxAge := config.maxAge, helloTime := config.helloTime, forwardDelay := config.forwardDelay),
       signals := b.signals.(topologyChange := config.topologyChange))
  }

  /** The times in force after a BPDU: those it carries if the bridge accepts it on what is
      then its root port, and otherwise those from before. */
  lemma BpduSetsTimes(b: Bridge, i: PortNo, config: Config)
    ensures var c := ReceivedConfig(b, i, config);
            if Accepted(b, i, config) && c.rootPort == i then
              && c.times == b.times.(maxAge := config.maxAge, helloTime := config.helloTime,
                                     forwardDelay := config.forwardDelay)
              && c.signals.topologyChange == config.topologyChange
            else c.times == b.times
  {
    var c := ReceivedConfig(b, i, config);
    if Accepted(b, i, config) {
      var d := Recorded(b, i, config);
      RecordedLogs(b, i, config);
      GenerationSignals(TakenOver(d, config), 0);
      AcceptedCore(b, i, config);
      assert c == if i == d.rootPort then FollowRoot(d, config) else d;
      hide Recorded, ReceivedConfig, ConfigGeneration;
    } else {
      TransmitConfigFrame(b, i);
    }
  }

  lemma {:induction false} GenerationSignals(b: Bridge, i: nat)
    requires i <= MAX_PORTS
    ensures var c := ConfigGeneration(b, i);
            SameCore(b, c) && c.times == b.times && c.signals == b.signals.(sent := c.signals.sent)
    decreases MAX_PORTS - i
  {
    if i < MAX_PORTS {
      if Enabled(b.ports[i]) && IsDesignated(b, b.ports[i]) {
        TransmitConfigFrame(b, i);
        assert TransmitConfig(b, i).signals == b.signals.(sent := TransmitConfig(b, i).signals.sent);
        hide TransmitConfig;
        GenerationSignals(TransmitConfig(b, i), i + 1);
      } else {
        GenerationSignals(b, i + 1);
      }
    }
  }

  /** The age of what was heard, one hop on. */
  lemma RecordedAge(b: Bridge, i: PortNo, config: Config)
    requires Numbered(b) && Recorded(b, i, config).rootPort == i
    ensures TransmittedAge(Recorded(b, i, config)) == (config.messageAge + 1) % 0x10000
    ensures !IsRoot(Recorded(b, i, config))
  {
    var r := RecordConfig(b, i, config);
    var c := Reselect(r);
    RecordedLogs(b, i, config);
    UpdateEffect(r);
    var u := ConfigurationUpdate(r);
    StateSelectionPointwise(u, 0);
    assert SamePort(StateTarget(u, i), c.ports[i]) && SamePort(c.ports[i], Recorded(b, i, config).ports[i]);
    hide ConfigurationUpdate, StateSelection, Recorded;
  }

  /** A configuration BPDU that passes on what `config` says. */
  predicate Repeats(s: Sent, config: Config) {
    && s.SentConfig? && s.config.maxAge == config.maxAge && s.config.helloTime == config.helloTime
    && s.config.forwardDelay == config.forwardDelay && s.config.topologyChange == config.topologyChange
    && s.config.messageAge == (config.messageAge + 1) % 0x10000
  }

  /** What the bridge sends on accepting a BPDU: notifications, then, if it came in on the
      root port, hellos on all designated ports that are not held, with the times, flag and
      age of the BPDU. */
  lemma BpduIsPassedOn(b: Bridge, i: PortNo, config: Config)
    requires Numbered(b) && Accepted(b, i, config)
    ensures var c, d := ReceivedConfig(b, i, config), Recorded(b, i, config);
            && OnlyTcns(b, d)
            && c.signals.sent == d.signals.sent + (if c.rootPort == i then Hellos(TakenOver(d, config), 0) else [])
            && forall k :: |d.signals.sent| <= k < |c.signals.sent| ==> Repeats(c.signals.sent[k], config)
  {
    var c, d := ReceivedConfig(b, i, config), Recorded(b, i, config);
    RecordedLogs(b, i, config);
    AcceptedCore(b, i, config);
    assert c == if i == d.rootPort then FollowRoot(d, config) else d;
    if c.rootPort == i {
      var x := TakenOver(d, config);
      RecordedAge(b, i, config);
      GenerationSends(x, 0);
      hide Recorded, ReceivedConfig, ConfigGeneration, Hellos;
      assert TransmittedAge(x) == TransmittedAge(d);
      HellosRepeat(x, config, c.signals.sent, |d.signals.sent|);
    }
  }

  lemma HellosRepeat(x: Bridge, config: Config, sent: seq<Sent>, n: nat)
    requires n <= |sent| && sent[n..] == Hellos(x, 0)
    requires x.times.maxAge == config.maxAge && x.times.helloTime == config.helloTime
    requires x.times.forwardDelay == config.forwardDelay && x.signals.topologyChange == config.topologyChange
    requires TransmittedAge(x) == (config.messageAge + 1) % 0x10000
    ensures forall k :: n <= k < |sent| ==> Repeats(sent[k], config)
  {
    HellosAreExact(x, 0);
    forall k | n <= k < |sent| ensures Repeats(sent[k], config) {
      assert sent[k] == sent[n..][k - n] && sent[k] in Hellos(x, 0);
    }
  }
}
