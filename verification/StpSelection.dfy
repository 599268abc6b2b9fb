/** What the selection loops of `lib/stp.c` compute. */
module StpSelection {
  // Root selection finds a unique minimum; designated port selection leaves every
  // recorded vector at or below the bridge's own; state selection acts on each
  // port independently of the others.

  import opened StpModel

  // ----- frames

  /** Ports that agree except for what transmission touches. */
  predicate SamePort(p: Port, q: Port) { q == p.(out := q.out) }

  /** Bridges that agree on their identity and on their view of the root. */
  predicate SameTree(b: Bridge, c: Bridge) {
    && b.bridgeId == c.bridgeId && b.root == c.root && b.rootPathCost == c.rootPathCost
    && b.rootPort == c.rootPort
  }

  /** Bridges that agree on everything the spanning tree depends on. */
  predicate SameCore(b: Bridge, c: Bridge) {
    && SameTree(b, c) && b.firstChanged == c.firstChanged
    && forall i: PortNo :: SamePort(b.ports[i], c.ports[i])
  }

  lemma TransmitConfigFrame(b: Bridge, i: PortNo)
    ensures SameCore(b, TransmitConfig(b, i)) && TransmitConfig(b, i).times == b.times
  {
  }

  lemma {:induction false} ConfigGenerationFrame(b: Bridge, i: nat)
    requires i <= MAX_PORTS
    ensures SameCore(b, ConfigGeneration(b, i)) && ConfigGeneration(b, i).times == b.times
    decreases MAX_PORTS - i
  {
    if i < MAX_PORTS {
      if Enabled(b.ports[i]) && IsDesignated(b, b.ports[i]) {
        TransmitConfigFrame(b, i);
        ConfigGenerationFrame(TransmitConfig(b, i), i + 1);
      } else {
        ConfigGenerationFrame(b, i + 1);
      }
    }
  }

  // ----- root selection

  /** Port ids keep distinct low bytes, whatever their priorities. */
  predicate Numbered(b: Bridge) {
    forall i: PortNo :: b.ports[i].portId % 256 == i + 1
  }

  /** `r` is the root port among the first `n` ports: strictly better than every
      other candidate, or -1 when there is no candidate. */
  predicate Best(b: Bridge, r: RootPort, n: nat)
    requires n <= MAX_PORTS
  {
    if r == -1 then forall j: PortNo :: j < n ==> !Candidate(b, b.ports[j])
    else
      && r < n && Candidate(b, b.ports[r])
      && forall j: PortNo :: j < n && j != r && Candidate(b, b.ports[j])
                             ==> SupersedesRoot(b.ports[j], b.ports[r])
  }

  lemma {:induction false} RootScanFindsBest(b: Bridge, i: nat, root: RootPort)
    requires Numbered(b) && i <= MAX_PORTS && Best(b, root, i)
    ensures Best(b, RootScan(b, i, root), MAX_PORTS)
    decreases MAX_PORTS - i
  {
    if i < MAX_PORTS {
      assert root != -1 ==> b.ports[root].portId != b.ports[i].portId;
      if Candidate(b, b.ports[i]) && (root == -1 || SupersedesRoot(b.ports[root], b.ports[i])) {
        assert Best(b, i, i + 1);
        RootScanFindsBest(b, i + 1, i);
      } else {
        assert Best(b, root, i + 1);
        RootScanFindsBest(b, i + 1, root);
      }
    }
  }

  /** Root selection returns the one port that beats every other candidate. */
  lemma RootSelectionIsUniqueMinimum(b: Bridge, r: RootPort)
    requires Numbered(b)
    ensures Best(b, r, MAX_PORTS) <==> r == RootSelection(b).rootPort
  {
    RootScanFindsBest(b, 0, -1);
  }

  // ----- designated port selection

  function DesignatedTarget(b: Bridge, p: Port): Port {
    if Enabled(p) && ShouldDesignate(b, p) then p.(designated := Own(b, p)) else p
  }

  lemma {:induction false} DesignatedSelectionPointwise(b: Bridge, i: nat)
    requires i <= MAX_PORTS
    ensures var c := DesignatedSelection(b, i);
            c == b.(ports := c.ports)
            && forall j: PortNo :: c.ports[j] == if j < i then b.ports[j]
                                                 else DesignatedTarget(b, b.ports[j])
    decreases MAX_PORTS - i
  {
    if i < MAX_PORTS {
      if Enabled(b.ports[i]) && ShouldDesignate(b, b.ports[i]) {
        DesignatedSelectionPointwise(BecomeDesignated(b, i), i + 1);
      } else {
        DesignatedSelectionPointwise(b, i + 1);
      }
    }
  }

  /** The recorded vector of an enabled port is about the bridge's root and never
      worse than the bridge's own offer, and equals it exactly on designated ports. */
  predicate DominatedPort(b: Bridge, p: Port) {
    Enabled(p) ==>
      && p.designated.root == b.root
      && (IsDesignated(b, p) <==> p.designated == Own(b, p))
      && (p.designated == Own(b, p) || Less(p.designated, Own(b, p)))
  }

  predicate Dominated(b: Bridge) { forall i: PortNo :: DominatedPort(b, b.ports[i]) }

  lemma UpdateEffect(b: Bridge)
    requires Numbered(b)
    ensures var c := ConfigurationUpdate(b);
            var s := WithRoot(b, c.rootPort);
            && c.rootPort == RootScan(b, 0, -1) && Best(b, c.rootPort, MAX_PORTS)
            && c == s.(ports := c.ports)
            && forall j: PortNo :: c.ports[j] == DesignatedTarget(s, b.ports[j])
  {
    RootScanFindsBest(b, 0, -1);
    DesignatedSelectionPointwise(RootSelection(b), 0);
  }

  lemma UpdateDominates(b: Bridge)
    requires Numbered(b)
    ensures Dominated(ConfigurationUpdate(b))
  {
    UpdateEffect(b);
  }

  /** The best candidate `r` would be turned into a designated port at once: it costs
      nothing and the bridge outranks the sender on that segment. */
  predicate Defeated(b: Bridge, r: RootPort) {
    r != -1 && Best(b, r, MAX_PORTS) && b.ports[r].pathCost == 0
    && (b.bridgeId < b.ports[r].designated.bridge
        || (b.bridgeId == b.ports[r].designated.bridge
            && b.ports[r].portId <= b.ports[r].designated.port))
  }

  predicate SelfDefeating(b: Bridge) { exists r: PortNo :: Defeated(b, r) }

  lemma SelfDefeatChanges(b: Bridge)
    requires Numbered(b) && SelfDefeating(b)
    ensures ConfigurationUpdate(ConfigurationUpdate(b)).rootPort != ConfigurationUpdate(b).rootPort
  {
    var c := ConfigurationUpdate(b);
    UpdateEffect(b);
    var r: PortNo :| Defeated(b, r);
    RootSelectionIsUniqueMinimum(b, r);
    assert IsDesignated(c, c.ports[r]);
    RootSelectionIsUniqueMinimum(c, r);
    assert ConfigurationUpdate(c).rootPort == RootSelection(c).rootPort by { UpdateEffect(c); }
  }

  lemma RootSurvivesUpdate(b: Bridge)
    requires Numbered(b) && !SelfDefeating(b)
    ensures var c := ConfigurationUpdate(b); Best(c, c.rootPort, MAX_PORTS)
  {
    var c := ConfigurationUpdate(b);
    UpdateEffect(b);
    assert !Defeated(b, c.rootPort);
    forall j: PortNo | Candidate(c, c.ports[j])
      ensures Candidate(b, b.ports[j]) && c.ports[j] == b.ports[j]
    {
    }
  }

  lemma UpdateTwice(b: Bridge)
    requires Numbered(b) && !SelfDefeating(b)
    ensures ConfigurationUpdate(ConfigurationUpdate(b)) == ConfigurationUpdate(b)
  {
    var c := ConfigurationUpdate(b);
    RootSurvivesUpdate(b);
    UpdateEffect(b);
    RootSelectionIsUniqueMinimum(c, c.rootPort);
    var s := RootSelection(c);
    assert s == c;
    DesignatedSelectionPointwise(c, 0);
    assert DesignatedSelection(c, 0).ports == c.ports;
  }

  /** A second configuration update changes nothing, except when a zero-cost root
      port defeats itself. */
  lemma UpdateIdempotent(b: Bridge)
    requires Numbered(b)
    ensures ConfigurationUpdate(ConfigurationUpdate(b)) == ConfigurationUpdate(b)
            <==> !SelfDefeating(b)
  {
    if SelfDefeating(b) {
      SelfDefeatChanges(b);
    } else {
      UpdateTwice(b);
    }
  }

  /** Positive path costs rule the exception out. */
  lemma PositiveCostsNotSelfDefeating(b: Bridge)
    requires Numbered(b)
    requires forall i: PortNo :: Enabled(b.ports[i]) ==> b.ports[i].pathCost > 0
    ensures !SelfDefeating(b)
  {
  }

  // ----- port state selection

  function Opened(p: Port): Port {
    if p.state.Blocking? then
      p.(state := Listening, stateChanged := true, forwardDelay := Start(0))
    else p
  }

  function Closed(p: Port): Port {
    if p.state.Blocking? then p
    else p.(state := Blocking, stateChanged := true, forwardDelay := Stop(p.forwardDelay))
  }

  /** What state selection makes of port `j`, apart from transmission details. */
  function StateTarget(b: Bridge, j: PortNo): Port {
    var p := b.ports[j];
    if !Enabled(p) then p
    else if j == b.rootPort then Opened(p)
    else if IsDesignated(b, p) then Opened(p.(messageAge := Stop(p.messageAge)))
    else Closed(p)
  }

  /** No changed port lies before the cursor. */
  predicate Tracked(b: Bridge) { forall i: PortNo :: i < b.firstChanged ==> !b.ports[i].stateChanged }

  /** `c` is `b` with port `i` replaced by `p`, up to transmission details. */
  predicate Replaced(b: Bridge, c: Bridge, i: PortNo, p: Port) {
    && SameTree(b, c) && b.times == c.times && SamePort(p, c.ports[i])
    && (forall j: PortNo :: j != i ==> c.ports[j] == b.ports[j])
    && (Tracked(b) ==> Tracked(c))
  }

  lemma MakeForwardingEffect(b: Bridge, i: PortNo)
    ensures Replaced(b, MakeForwarding(b, i), i, Opened(b.ports[i]))
  {
  }

  lemma MakeBlockingEffect(b: Bridge, i: PortNo)
    requires Enabled(b.ports[i])
    ensures Replaced(b, MakeBlocking(b, i), i, Closed(b.ports[i]))
  {
    var c := TopologyChangeDetection(b);
    assert SameTree(b, c) && c.times == b.times && c.ports == b.ports && c.firstChanged == b.firstChanged;
  }

  lemma SelectStateEffect(b: Bridge, i: PortNo)
    requires Enabled(b.ports[i])
    ensures Replaced(b, SelectState(b, i), i, StateTarget(b, i))
  {
    var p := b.ports[i];
    if i == b.rootPort {
      MakeForwardingEffect(SetPort(b, i, ClearOutbox(p)), i);
    } else if IsDesignated(b, p) {
      MakeForwardingEffect(SetPort(b, i, p.(messageAge := Stop(p.messageAge))), i);
    } else {
      MakeBlockingEffect(SetPort(b, i, ClearOutbox(p)), i);
    }
  }

  lemma {:induction false} StateSelectionPointwise(b: Bridge, i: nat)
    requires i <= MAX_PORTS
    ensures var c := StateSelection(b, i);
            && SameTree(b, c) && b.times == c.times
            && (forall j: PortNo :: SamePort(if j < i then b.ports[j] else StateTarget(b, j), c.ports[j]))
            && (Tracked(b) ==> Tracked(c))
    decreases MAX_PORTS - i
  {
    if i < MAX_PORTS {
      if Enabled(b.ports[i]) {
        SelectStateEffect(b, i);
        StateSelectionPointwise(SelectState(b, i), i + 1);
      } else {
        StateSelectionPointwise(b, i + 1);
      }
    }
  }
}
