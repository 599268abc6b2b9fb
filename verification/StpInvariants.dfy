/** What every public call of `lib/stp.c` keeps, over all runs. */
module StpInvariants {
  import opened StpModel
  import opened StpSelection

  /** The forward-delay timer runs exactly while a port is on its way to
      forwarding, and information heard from another bridge is always ageing. */
  predicate PortOk(b: Bridge, p: Port) {
    && (p.forwardDelay.active <==> p.state.Listening? || p.state.Learning?)
    && (Enabled(p) && !IsDesignated(b, p) ==> p.messageAge.active)
  }

  predicate Weak(b: Bridge) {
    Numbered(b) && Tracked(b) && forall i: PortNo :: PortOk(b, b.ports[i])
  }

  /** The loop guard: a port that is neither the root port nor designated blocks. */
  predicate Guarded(b: Bridge) {
    forall i: PortNo :: Enabled(b.ports[i]) && i != b.rootPort && !IsDesignated(b, b.ports[i])
                        ==> b.ports[i].state.Blocking?
  }

  /** There is a root port exactly when the bridge is not root itself; it is
      enabled, and what it recorded is ageing. */
  predicate RootOk(b: Bridge) {
    && b.root <= b.bridgeId && (b.rootPort == -1 <==> IsRoot(b))
    && (b.rootPort != -1 ==> Enabled(b.ports[b.rootPort]) && b.ports[b.rootPort].messageAge.active)
  }

  predicate Inv(b: Bridge) { Weak(b) && Guarded(b) && RootOk(b) }

  // ----- steps between ports

  /** No port moved towards forwarding. */
  predicate Calm(b: Bridge, c: Bridge) {
    forall i: PortNo ::
      && (c.ports[i].state.Forwarding? ==> b.ports[i].state.Forwarding?)
      && (c.ports[i].state.Learning? ==> b.ports[i].state.Learning?)
  }

  /** Designated ports stay designated, and no port is enabled or disabled. */
  predicate Kept(b: Bridge, c: Bridge) {
    forall i: PortNo ::
      && (Enabled(b.ports[i]) <==> Enabled(c.ports[i]))
      && (Enabled(b.ports[i]) && IsDesignated(b, b.ports[i]) ==> IsDesignated(c, c.ports[i]))
  }

  /** The root port of `c` was not a designated port of `b`. */
  predicate FreshRoot(b: Bridge, c: Bridge) {
    c.rootPort != -1 ==> !IsDesignated(b, b.ports[c.rootPort])
  }

  lemma CoreKeeps(b: Bridge, c: Bridge)
    requires SameCore(b, c)
    ensures Calm(b, c) && Kept(b, c)
    ensures Inv(b) ==> Inv(c)
    ensures Dominated(b) ==> Dominated(c)
  {
    if Dominated(b) {
      forall i: PortNo ensures DominatedPort(c, c.ports[i]) {
        assert DominatedPort(b, b.ports[i]) && SamePort(b.ports[i], c.ports[i]);
      }
    }
    if Inv(b) {
      forall i: PortNo ensures PortOk(c, c.ports[i]) {
        assert PortOk(b, b.ports[i]) && SamePort(b.ports[i], c.ports[i]);
      }
    }
  }

  lemma UpdateKeeps(b: Bridge)
    requires Weak(b)
    ensures var c := ConfigurationUpdate(b);
            Weak(c) && RootOk(c) && c.times == b.times && c.bridgeId == b.bridgeId
            && FreshRoot(b, c)
  {
    UpdateEffect(b);
    var c := ConfigurationUpdate(b);
    forall i: PortNo ensures PortOk(c, c.ports[i]) {
      assert PortOk(b, b.ports[i]);
    }
  }

  lemma UpdateCalm(b: Bridge)
    requires Numbered(b)
    ensures Calm(b, ConfigurationUpdate(b)) && Kept(b, ConfigurationUpdate(b))
  {
    UpdateEffect(b);
  }

  lemma SelectedPort(b: Bridge, i: PortNo, c: Bridge)
    requires PortOk(b, b.ports[i]) && SameTree(b, c)
    requires SamePort(StateTarget(b, i), c.ports[i])
    ensures PortOk(c, c.ports[i])
    ensures c.ports[i].portId == b.ports[i].portId
    ensures IsDesignated(c, c.ports[i]) <==> IsDesignated(b, b.ports[i])
    ensures DominatedPort(b, b.ports[i]) ==> DominatedPort(c, c.ports[i])
    ensures Enabled(c.ports[i]) && i != c.rootPort && !IsDesignated(c, c.ports[i])
            ==> c.ports[i].state.Blocking?
    ensures i == b.rootPort ==> c.ports[i].messageAge == b.ports[i].messageAge
  {
  }

  lemma SelectionKeeps(b: Bridge)
    requires Weak(b) && RootOk(b)
    ensures var c := StateSelection(b, 0);
            Inv(c) && SameTree(b, c) && c.times == b.times && (Dominated(b) ==> Dominated(c))
  {
    StateSelectionPointwise(b, 0);
    var c := StateSelection(b, 0);
    forall i: PortNo
      ensures PortOk(c, c.ports[i]) && c.ports[i].portId == b.ports[i].portId
      ensures Enabled(c.ports[i]) && i != c.rootPort && !IsDesignated(c, c.ports[i])
              ==> c.ports[i].state.Blocking?
      ensures DominatedPort(b, b.ports[i]) ==> DominatedPort(c, c.ports[i])
    {
      SelectedPort(b, i, c);
    }
    if b.rootPort != -1 {
      SelectedPort(b, b.rootPort, c);
    }
  }

  lemma SelectionCalm(b: Bridge)
    ensures Calm(b, StateSelection(b, 0)) && Kept(b, StateSelection(b, 0))
  {
    StateSelectionPointwise(b, 0);
    var c := StateSelection(b, 0);
    assert forall i: PortNo :: SamePort(StateTarget(b, i), c.ports[i]);
  }

  /** From any weakly consistent state, reselection restores every invariant. */
  lemma ReselectRestores(b: Bridge)
    requires Weak(b)
    ensures var c := Reselect(b);
            Inv(c) && Dominated(c) && Calm(b, c) && Kept(b, c) && c.times == b.times
            && c.bridgeId == b.bridgeId && FreshRoot(b, c)
  {
    var c := ConfigurationUpdate(b);
    UpdateKeeps(b);
    UpdateDominates(b);
    UpdateCalm(b);
    SelectionKeeps(c);
    SelectionCalm(c);
  }

  lemma BecomeRootFrame(b: Bridge)
    ensures SameCore(b, BecomeRootBridge(b)) && BecomeRootBridge(b).times == OwnTimes(b.times)
  {
    var c := TopologyChangeDetection(b.(times := OwnTimes(b.times)));
    ConfigGenerationFrame(c.(signals := c.signals.(tcn := Stop(c.signals.tcn))), 0);
  }

  lemma ReselectAsRootRestores(b: Bridge, wasRoot: bool)
    requires Weak(b)
    ensures var c := ReselectAsRoot(b, wasRoot);
            Inv(c) && Dominated(c) && Calm(b, c) && Kept(b, c)
            && (c.times == b.times || c.times == OwnTimes(b.times))
            && c.bridgeId == b.bridgeId && FreshRoot(b, c)
  {
    ReselectRestores(b);
    BecomeRootFrame(Reselect(b));
    CoreKeeps(Reselect(b), BecomeRootBridge(Reselect(b)));
  }
}
