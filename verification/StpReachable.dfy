/** Networks of bridges as they run. */
module StpReachable {
  import opened StpModel
  import opened StpInvariants
  import opened StpNetwork
  import opened StpSettling
  import opened StpWalks

  // The results about stable networks, for bridges that have come about by running: the
  // one assumption left is that each port has heard what the designated port of its
  // segment now sends.

  /** Where a bridge of the network comes from. */
  datatype Origin = Origin(id: nat, events: seq<Event>)

  function Grown(o: Origin): Bridge { Run(Create(o.id), o.events) }

  /** Every bridge is the result of some run, ids are distinct, and every port has heard
      what the designated port of its segment now sends. */
  ghost predicate Converged(net: Net, origins: seq<Origin>) {
    && |origins| == |net.bridges|
    && (forall i {:trigger Grown(origins[i])} :: 0 <= i < |origins| ==>
          Orderly(Create(origins[i].id), origins[i].events) && net.bridges[i] == Grown(origins[i]))
    && (forall i, j :: 0 <= i < j < |net.bridges| ==> net.bridges[i].bridgeId != net.bridges[j].bridgeId)
    && (forall x {:trigger Informed(net, x)} :: Attached(net, x) ==> Informed(net, x))
  }

  lemma BridgeSound(net: Net, origins: seq<Origin>, i: nat)
    requires Converged(net, origins) && i < |net.bridges|
    ensures Inv(net.bridges[i]) && Sound(net.bridges[i])
  {
    var o := origins[i];
    assert net.bridges[i] == Grown(o);
    RunSettled(o.id, o.events);
  }

  lemma ConvergedIsStable(net: Net, origins: seq<Origin>)
    requires Converged(net, origins)
    ensures Stable(net)
  {
    forall i | 0 <= i < |net.bridges| ensures Settled(net.bridges[i]) && Costly(net.bridges[i]) {
      BridgeSound(net, origins, i);
    }
    hide Settled, Inv;
    forall x | Attached(net, x) ensures PortAt(net, x).pathCost > 0 && Informed(net, x) {
      assert Costly(net.bridges[x.bridge]);
    }
  }

  /** On a connected network of running bridges every bridge takes the smallest id for
      the root, at the cost of a shortest walk to it. */
  lemma RunningRootIsSmallestId(net: Net, origins: seq<Origin>, i: int, k: int) returns (hops: seq<Hop>, m: int)
    requires Converged(net, origins) && Connected(net)
    requires 0 <= i < |net.bridges| && 0 <= k < |net.bridges|
    ensures net.bridges[i].root <= net.bridges[k].bridgeId
    ensures 0 <= m < |net.bridges| && net.bridges[m].bridgeId == net.bridges[i].root
    ensures Leading(net, i, m, hops) && WalkCost(net, hops) == net.bridges[i].rootPathCost
    ensures forall other :: Leading(net, i, m, other) ==> WalkCost(net, hops) <= WalkCost(net, other)
  {
    hide Converged, Stable, Connected;
    ConvergedIsStable(net, origins);
    RootIsSmallestId(net, i, k);
    hops, m := RootPathReachesRoot(net, i);
    forall other | Leading(net, i, m, other) ensures WalkCost(net, hops) <= WalkCost(net, other) {
      NoShorterWalk(net, i, other, m);
    }
  }

  // ----- frames through forwarding ports

  /** A bridge relays a frame between two ports that are both in state FORWARDING. */
  predicate Forwards(net: Net, r: Relay) {
    && r.inPort != r.outPort && Attached(net, In(r)) && Attached(net, Out(r))
    && PortAt(net, In(r)).state.Forwarding? && PortAt(net, Out(r)).state.Forwarding?
  }

  ghost predicate Travels(net: Net, s: seq<Relay>) {
    && (forall t {:trigger Forwards(net, s[t])} :: 0 <= t < |s| ==> Forwards(net, s[t]))
    && (forall t {:trigger PassesOn(net, s, t)} :: 0 <= t < |s| - 1 ==> PassesOn(net, s, t))
  }

  /** No frame passes a bridge twice. */
  ghost predicate LoopFree(net: Net) {
    forall s: seq<Relay>, a: int, b: int {:trigger Travels(net, s), s[a], s[b]} ::
      Travels(net, s) && 0 <= a < b < |s| ==> s[a].bridge != s[b].bridge
  }

  lemma ForwardingRelays(net: Net, r: Relay)
    requires Forwards(net, r) && Inv(net.bridges[r.bridge])
    ensures Relays(net, r)
  {
    UnblockedIsActive(net, In(r));
    UnblockedIsActive(net, Out(r));
  }

  /** The loop guard of every bridge makes a stable network free of loops. */
  lemma StableIsLoopFree(net: Net)
    requires Stable(net) && forall i :: 0 <= i < |net.bridges| ==> Inv(net.bridges[i])
    ensures LoopFree(net)
  {
    forall s: seq<Relay>, a: int, b: int | Travels(net, s) && 0 <= a < b < |s| ensures s[a].bridge != s[b].bridge {
      forall t | 0 <= t < |s| ensures Relays(net, s[t]) {
        assert Forwards(net, s[t]);
        ForwardingRelays(net, s[t]);
      }
      hide Stable;
      NoForwardingLoop(net, s, a, b);
    }
  }

  /** A frame that travels through forwarding ports of running bridges never passes the
      same bridge twice. */
  lemma RunningBridgesDoNotLoop(net: Net, origins: seq<Origin>)
    requires Converged(net, origins)
    ensures LoopFree(net)
  {
    ConvergedIsStable(net, origins);
    forall i | 0 <= i < |net.bridges| ensures Inv(net.bridges[i]) {
      BridgeSound(net, origins, i);
    }
    hide Stable;
    StableIsLoopFree(net);
  }
}
