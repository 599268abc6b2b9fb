/** Which configuration BPDUs a bridge sends. */
module StpSending {
  import opened StpModel
  import opened StpSelection

  // The loop of `config_bpdu_generation` sends on a port at a time and changes the state
  // as it goes.  What it sends is determined by the state before it.

  /** The bridge has a root to announce, and its information is young enough. */
  predicate Announces(b: Bridge) {
    (IsRoot(b) || b.rootPort != -1) && TransmittedAge(b) < b.times.maxAge
  }

  /** A designated port on which a BPDU goes out at once. */
  predicate SendsOn(b: Bridge, p: Port) {
    Enabled(p) && IsDesignated(b, p) && !p.out.hold.active && Announces(b)
  }

  /** A designated port that has sent less than a second ago. */
  predicate HeldOn(b: Bridge, p: Port) {
    Enabled(p) && IsDesignated(b, p) && p.out.hold.active && (IsRoot(b) || b.rootPort != -1)
  }

  function OutboxAfter(b: Bridge, p: Port): Outbox {
    if SendsOn(b, p) then Outbox(false, false, Start(0))
    else if HeldOn(b, p) then p.out.(configPending := true)
    else p.out
  }

  /** The BPDUs for the ports from `i` on. */
  function Hellos(b: Bridge, i: nat): seq<Sent>
    requires i <= MAX_PORTS
    decreases |b.ports| - i
  {
    if i == MAX_PORTS then []
    else (if SendsOn(b, b.ports[i]) then [SentConfig(i, ConfigFor(b, b.ports[i]))] else []) + Hellos(b, i + 1)
  }

  /** `c` is `b` with other outboxes below `i`. */
  predicate OutboxesDiffer(b: Bridge, c: Bridge, i: nat) {
    && c == b.(ports := c.ports, signals := b.signals.(sent := c.signals.sent))
    && forall j: PortNo :: SamePort(b.ports[j], c.ports[j]) && (j >= i ==> c.ports[j] == b.ports[j])
  }

  lemma {:induction false} HellosUnaffected(b: Bridge, c: Bridge, i: nat)
    requires i <= MAX_PORTS && OutboxesDiffer(b, c, i)
    ensures Hellos(c, i) == Hellos(b, i)
    ensures forall j: PortNo :: j >= i ==> OutboxAfter(c, c.ports[j]) == OutboxAfter(b, b.ports[j])
    decreases MAX_PORTS - i
  {
    if i < MAX_PORTS {
      HellosUnaffected(b, c, i + 1);
      assert TransmittedAge(c) == TransmittedAge(b);
    }
  }

  lemma TransmitSends(b: Bridge, i: PortNo)
    requires Enabled(b.ports[i]) && IsDesignated(b, b.ports[i])
    ensures var c := TransmitConfig(b, i);
            && OutboxesDiffer(b, c, i + 1) && c.ports == b.ports[i := b.ports[i].(out := OutboxAfter(b, b.ports[i]))]
            && c.signals.sent == b.signals.sent + if SendsOn(b, b.ports[i])
                                                  then [SentConfig(i, ConfigFor(b, b.ports[i]))] else []
  {
  }

  /** The loop appends the hellos to the log, restarts the hold timer where it has sent,
      and leaves a pending BPDU on the ports that are held. */
  lemma {:induction false} GenerationSends(b: Bridge, i: nat)
    requires i <= MAX_PORTS
    ensures var c := ConfigGeneration(b, i);
            && c.signals.sent == b.signals.sent + Hellos(b, i)
            && forall j: PortNo :: c.ports[j].out == if j < i then b.ports[j].out else OutboxAfter(b, b.ports[j])
    decreases MAX_PORTS - i
  {
    if i < MAX_PORTS {
      var p := b.ports[i];
      if Enabled(p) && IsDesignated(b, p) {
        var c := TransmitConfig(b, i);
        TransmitSends(b, i);
        HellosUnaffected(b, c, i + 1);
        hide TransmitConfig, OutboxAfter, SendsOn, ConfigFor;
        GenerationSends(c, i + 1);
      } else {
        GenerationSends(b, i + 1);
      }
    }
  }

  /** The hellos: in the order of the ports, one for each port that sends, carrying the
      bridge's own vector. */
  lemma {:induction false} HellosAreExact(b: Bridge, i: nat)
    requires i <= MAX_PORTS
    ensures forall s :: s in Hellos(b, i) <==>
              s.SentConfig? && i <= s.port < MAX_PORTS && SendsOn(b, b.ports[s.port])
              && s.config == ConfigFor(b, b.ports[s.port])
    ensures forall k, l :: 0 <= k < l < |Hellos(b, i)| ==> Hellos(b, i)[k].port < Hellos(b, i)[l].port
    decreases MAX_PORTS - i
  {
    if i < MAX_PORTS {
      HellosAreExact(b, i + 1);
      var rest := Hellos(b, i + 1);
      forall k | 0 <= k < |rest| ensures rest[k].port > i {
        assert rest[k] in rest;
      }
    }
  }

  /** What a hello says: the root, the cost to it, the sender and its port; the age of the
      information, the times in force and the two flags of a topology change. */
  lemma HelloContents(b: Bridge, s: Sent)
    requires s in Hellos(b, 0)
    ensures s.SentConfig? && s.port < MAX_PORTS && s.config.messageAge < s.config.maxAge
    ensures s.config.vector == Vector(b.root, b.rootPathCost, b.bridgeId, b.ports[s.port].portId)
    ensures b.root == b.bridgeId ==> s.config.messageAge == 0
    ensures b.root != b.bridgeId ==>
              b.rootPort != -1 && s.config.messageAge == (b.ports[b.rootPort].messageAge.value + 1) % 0x10000
    ensures s.config.maxAge == b.times.maxAge && s.config.helloTime == b.times.helloTime
    ensures s.config.forwardDelay == b.times.forwardDelay
    ensures s.config.topologyChange == b.signals.topologyChange
    ensures s.config.topologyChangeAck == b.ports[s.port].out.topologyChangeAck
  {
    HellosAreExact(b, 0);
  }
}
