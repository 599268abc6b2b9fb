/** What one configuration BPDU does to the claims of a bridge. */
module StpHearing {
  import opened StpModel
  import opened StpSelection
  import opened StpInvariants
  import opened StpRuns
  import opened StpNetwork
  import opened StpSettling

  // A bridge claims a root and a distance to it.  On a bridge with nothing to reselect,
  // hearing a BPDU can only improve that claim and the records on its ports.

  datatype Claim = Claim(root: nat, cost: nat)

  function ClaimOf(b: Bridge): Claim { Claim(b.root, b.rootPathCost) }

  /** What a vector says about the root. */
  function Said(v: Vector): Claim { Claim(v.root, v.cost) }

  /** The first claim is as good as the second. */
  predicate Below(a: Claim, b: Claim) { a.root < b.root || (a.root == b.root && a.cost <= b.cost) }

  function Further(a: Claim, cost: nat): Claim { a.(cost := a.cost + cost) }

  /** The vector was sent by another port. */
  predicate Foreign(b: Bridge, p: PortNo, v: Vector) {
    v.bridge != b.bridgeId || v.port != b.ports[p].portId
  }

  /** The ports keep what the protocol does not change. */
  predicate SameFrame(b: Bridge, c: Bridge) {
    && c.bridgeId == b.bridgeId
    && forall j: PortNo ::
         && c.ports[j].portId == b.ports[j].portId && c.ports[j].pathCost == b.ports[j].pathCost
         && (Enabled(c.ports[j]) <==> Enabled(b.ports[j]))
  }

  /** A record becomes the bridge's own vector or what was heard, or stays. */
  predicate Rerecorded(b: Bridge, c: Bridge, p: PortNo, v: Vector, j: PortNo) {
    && Below(Said(c.ports[j].designated), Said(b.ports[j].designated))
    && (|| IsDesignated(c, c.ports[j])
        || c.ports[j].designated == b.ports[j].designated
        || (j == p && c.ports[j].designated == v))
  }

  predicate Heard(b: Bridge, c: Bridge, p: PortNo, v: Vector) {
    && Sound(c) && Inv(c) && SameFrame(b, c) && Below(ClaimOf(c), ClaimOf(b))
    && (forall j: PortNo :: Enabled(b.ports[j]) ==> Rerecorded(b, c, p, v, j))
    && Below(Said(c.ports[p].designated), Said(v))
  }

  /** A port bounds the claim of its bridge. */
  lemma PortBoundsClaim(b: Bridge, p: PortNo, k: Claim)
    requires Sound(b) && Enabled(b.ports[p]) && Below(Said(b.ports[p].designated), k)
    ensures Below(ClaimOf(b), Further(k, b.ports[p].pathCost))
  {
    SettledCost(b, p);
    assert DominatedPort(b, b.ports[p]);
  }

  /** On a settled bridge a designated port has recorded the bridge's own vector. */
  lemma OwnRecord(b: Bridge, p: PortNo)
    requires Sound(b) && Enabled(b.ports[p])
    ensures IsDesignated(b, b.ports[p]) <==> b.ports[p].designated == Own(b, b.ports[p])
    ensures b.ports[p].designated == Own(b, b.ports[p]) || Less(b.ports[p].designated, Own(b, b.ports[p]))
    ensures b.ports[p].designated.root == b.root
    ensures Below(Said(b.ports[p].designated), ClaimOf(b))
  {
    SettledCost(b, p);
    assert DominatedPort(b, b.ports[p]);
  }

  lemma SettledClaim(b: Bridge)
    requires Settled(b)
    ensures b.rootPort == -1 ==> ClaimOf(b) == Claim(b.bridgeId, 0)
    ensures b.rootPort != -1 ==>
              var p := b.ports[b.rootPort];
              && Enabled(p) && !IsDesignated(b, p) && p.designated.root < b.bridgeId
              && ClaimOf(b) == Further(Said(p.designated), p.pathCost)
  {
    SettledMeans(b);
  }

  lemma AcceptedImproves(b: Bridge, p: PortNo, config: Config)
    requires Accepted(b, p, config)
    ensures Below(Said(config.vector), Said(b.ports[p].designated))
  {
  }

  /** The best candidate after recording a better vector is no worse than before. */
  lemma ClaimImproves(b: Bridge, p: PortNo, config: Config, r: RootPort)
    requires Settled(b) && Accepted(b, p, config) && Foreign(b, p, config.vector)
    requires Best(RecordConfig(b, p, config), r, MAX_PORTS)
    ensures Below(ClaimOf(WithRoot(RecordConfig(b, p, config), r)), ClaimOf(b))
  {
    SettledClaim(b);
    AcceptedImproves(b, p, config);
    var q, d := b.rootPort, RecordConfig(b, p, config);
    if q != -1 {
      assert Candidate(d, d.ports[q]);
      assert q != r ==> SupersedesRoot(d.ports[q], d.ports[r]);
    }
  }

  /** Selection moves no record to a worse claim. */
  lemma RecordImproves(b: Bridge, d: Bridge, r: RootPort, j: PortNo)
    requires Best(d, r, MAX_PORTS) && Enabled(d.ports[j]) && d.bridgeId == b.bridgeId
    requires Below(ClaimOf(WithRoot(d, r)), ClaimOf(b))
    requires IsDesignated(d, d.ports[j]) ==> Said(d.ports[j].designated) == ClaimOf(b)
    ensures Below(Said(DesignatedTarget(WithRoot(d, r), d.ports[j]).designated), Said(d.ports[j].designated))
  {
    assert r != -1 && r != j && Candidate(d, d.ports[j]) ==> SupersedesRoot(d.ports[j], d.ports[r]);
  }

  lemma AcceptedIsHeard(b: Bridge, p: PortNo, config: Config)
    requires Sound(b) && Inv(b) && Accepted(b, p, config) && Foreign(b, p, config.vector)
    ensures Heard(b, ReceivedConfig(b, p, config), p, config.vector)
  {
    var d, c := RecordConfig(b, p, config), ReceivedConfig(b, p, config);
    RootScanFindsBest(d, 0, -1);
    var r := RootScan(d, 0, -1);
    BpduSelects(b, p, config, r);
    BpduSound(b, p, config);
    ReceivedConfigKeeps(b, p, config);
    hide Inv;
    ClaimImproves(b, p, config, r);
    AcceptedImproves(b, p, config);
    hide Best, WithRoot, Settled, RootScan, ReceivedConfig, Accepted;
    assert ClaimOf(c) == ClaimOf(WithRoot(d, r));
    forall j: PortNo | Enabled(b.ports[j])
      ensures Rerecorded(b, c, p, config.vector, j)
      ensures j == p ==> Below(Said(c.ports[p].designated), Said(config.vector))
    {
      OwnRecord(b, j);
      RecordImproves(b, d, r, j);
      SelectedRecord(d, c, r, j);
    }
  }

  lemma SelectedRecord(d: Bridge, c: Bridge, r: RootPort, j: PortNo)
    requires Selected(d, c, r) && Enabled(d.ports[j])
    ensures c.ports[j].designated == DesignatedTarget(WithRoot(d, r), d.ports[j]).designated
    ensures IsDesignated(c, c.ports[j]) || c.ports[j].designated == d.ports[j].designated
  {
  }

  /** Hearing a BPDU improves claims and records, and leaves the port with information at
      least as good as it carried. */
  lemma Hears(b: Bridge, p: PortNo, config: Config)
    requires Sound(b) && Inv(b) && Enabled(b.ports[p])
    requires Foreign(b, p, config.vector) && config.messageAge < config.maxAge
    ensures Heard(b, ReceivedConfig(b, p, config), p, config.vector)
  {
    if Accepted(b, p, config) {
      AcceptedIsHeard(b, p, config);
    } else {
      var c := ReceivedConfig(b, p, config);
      TransmitConfigFrame(b, p);
      ReceivedConfigKeeps(b, p, config);
      hide Inv;
      BpduSound(b, p, config);
      SameCoreVectors(b, c, 0);
      forall j: PortNo | Enabled(b.ports[j]) ensures Rerecorded(b, c, p, config.vector, j) {
      }
    }
  }

  /** A vector better than the port's own is recorded if it is no worse than the record;
      if the claim of the bridge stays, so do all other records. */
  lemma HearsBetter(b: Bridge, p: PortNo, config: Config)
    requires Sound(b) && Enabled(b.ports[p]) && Foreign(b, p, config.vector) && config.messageAge < config.maxAge
    requires ClaimOf(ReceivedConfig(b, p, config)) == ClaimOf(b)
    ensures var c := ReceivedConfig(b, p, config);
            && (forall j: PortNo :: j != p && Enabled(b.ports[j]) ==> c.ports[j].designated == b.ports[j].designated)
            && (config.vector.root == b.root && Less(config.vector, Own(b, b.ports[p]))
                && (config.vector == b.ports[p].designated || Less(config.vector, b.ports[p].designated))
                ==> c.ports[p].designated == config.vector)
  {
    var c := ReceivedConfig(b, p, config);
    if Accepted(b, p, config) {
      var d := RecordConfig(b, p, config);
      RootScanFindsBest(d, 0, -1);
      BpduSelects(b, p, config, RootScan(d, 0, -1));
      SettledMeans(b);
      assert forall j: PortNo :: b.ports[j] == DesignatedTarget(b, b.ports[j]);
    } else {
      TransmitConfigFrame(b, p);
      SameCoreVectors(b, c, 0);
    }
  }
}
