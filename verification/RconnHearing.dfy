/** What the reliable connection heard and when, and what it queues because of it. */
module RconnHearing {
  import opened Rconn
  import opened RconnAccounting
  import opened RconnProbing

  // ----- when a message was last received

  /** The call receives a message. */
  predicate Hears(c: Conn, call: Call) {
    Connected(c.link.state) && call.event.RecvEvent? && call.answers != [] && call.answers[0] == 0
  }

  /** The time of the last call of a run that receives a message, or an earlier time. */
  function LastHeard(c: Conn, calls: seq<Call>, before: int): int
    requires Timely(c) && forall k :: 0 <= k < |calls| ==> Proper(calls[k].event)
    decreases |calls|
  {
    if calls == [] then before
    else
      DoTimely(c, calls[0]);
      LastHeard(Do(c, calls[0]), calls[1..], if Hears(c, calls[0]) then calls[0].now else before)
  }

  /** Nothing was heard, and what was configured stays. */
  predicate Deaf(t: Timing, u: Timing) {
    u.lastReceived == t.lastReceived && u.probeInterval == t.probeInterval && u.maxBackoff == t.maxBackoff
  }

  lemma {:induction false} DoTxWorkDeaf(c: Conn, now: int)
    ensures Deaf(c.timing, DoTxWork(c, now).timing)
    decreases |c.out.txq|
  {
    if c.out.txq != [] && TrySend(c, now).0 == 0 {
      DoTxWorkDeaf(TrySend(c, now).1, now);
    }
  }

  lemma {:induction false} RunDeaf(c: Conn, now: int)
    requires Timely(c)
    ensures Deaf(c.timing, Run(c, now).timing)
    decreases Rank(c, now)
  {
    DoTxWorkDeaf(c, now);
    var next := RunState(c, now);
    assert Deaf(c.timing, next.timing);
    RunStateSettles(c, now);
    hide RunState, DoTxWork;
    if next.link.state != c.link.state {
      RunDeaf(next, now);
    }
  }

  lemma SendDeaf(c: Conn, p: Packet, now: int)
    ensures Deaf(c.timing, Send(c, p, now).1.timing)
  {
    hide FlushQueue;
  }

  lemma ConnectDeaf(c: Conn, now: int)
    ensures Deaf(c.timing, Connect(c, now).timing)
  {
    hide FlushQueue;
  }

  lemma DoHears(c: Conn, call: Call)
    requires Timely(c) && Proper(call.event)
    ensures var t := Do(c, call).timing;
      Deaf(c.timing.(lastReceived := if Hears(c, call) then call.now else c.timing.lastReceived), t)
  {
    var d := c.(answers := call.answers, probeXid := call.xid);
    hide Run, Send, Connect, FlushQueue;
    match call.event
    case RunEvent => RunDeaf(d, call.now);
    case SendEvent(p) => SendDeaf(d, p, call.now);
    case SendWithLimitEvent(p, _) => SendDeaf(d, p, call.now);
    case ConnectEvent => ConnectDeaf(d, call.now);
    case _ =>
  }

  lemma {:induction false} CallsHear(c: Conn, calls: seq<Call>)
    requires Timely(c) && forall k :: 0 <= k < |calls| ==> Proper(calls[k].event)
    ensures var t := Calls(c, calls).timing;
      Deaf(c.timing.(lastReceived := LastHeard(c, calls, c.timing.lastReceived)), t)
    decreases |calls|
  {
    if calls != [] {
      DoTimely(c, calls[0]);
      DoHears(c, calls[0]);
      hide Do, Hears, Timely;
      CallsHear(Do(c, calls[0]), calls[1..]);
    }
  }

  // ----- what is queued

  /** An active connection has heard nothing for the probe interval. */
  predicate ProbeIsDue(c: Conn, now: int) {
    c.link.state == Active && c.timing.probeInterval != 0 && now >= ProbeTime(c)
  }

  lemma {:induction false} FlushAccepts(o: Outgoing)
    ensures FlushQueue(o).accepted == o.accepted
    decreases |o.txq|
  {
    if o.txq != [] {
      FlushAccepts(Depart(o, Flushed));
    }
  }

  lemma DisconnectAccepts(c: Conn, now: int)
    ensures Disconnect(c, now).out.accepted == c.out.accepted
  {
    FlushAccepts(c.out);
  }

  lemma TrySendAccepts(c: Conn, now: int)
    requires c.out.txq != []
    ensures TrySend(c, now).1.out.accepted == c.out.accepted
  {
    DisconnectAccepts(Asked(c).(out := Attempted(c.out, false)), now);
    hide Disconnect;
  }

  lemma {:induction false} DoTxWorkAccepts(c: Conn, now: int)
    ensures DoTxWork(c, now).out.accepted == c.out.accepted
    decreases |c.out.txq|
  {
    if c.out.txq != [] {
      TrySendAccepts(c, now);
      if TrySend(c, now).0 == 0 {
        DoTxWorkAccepts(TrySend(c, now).1, now);
      }
    }
  }

  lemma SendAccepts(c: Conn, p: Packet, now: int)
    ensures Send(c, p, now).1.out.accepted == c.out.accepted + if Connected(c.link.state) then [p] else []
  {
    TrySendAccepts(c.(out := Accept(c.out, p)), now);
    hide TrySend;
    assert c.out.accepted + [] == c.out.accepted;
  }

  lemma ReconnectAccepts(c: Conn, now: int)
    ensures Reconnect(c, now).out.accepted == c.out.accepted
  {
    DisconnectAccepts(Asked(c).(timing := c.timing.(deadline := Never)), now);
    hide Disconnect;
  }

  /** A state entered now does not call for a probe now. */
  lemma RunStateAccepts(c: Conn, now: int)
    requires Timely(c)
    ensures var d := RunState(c, now);
      && d.out.accepted == c.out.accepted + (if ProbeIsDue(c, now) then [EchoRequest(c.probeXid)] else [])
      && (d.link.state != c.link.state ==> !ProbeIsDue(d, now))
  {
    assert c.out.accepted + [] == c.out.accepted;
    match c.link.state
    case Void =>
    case Backoff =>
      ReconnectAccepts(c, now);
      if TimedOut(c, now) {
        ReconnectSettles(c, now);
      }
    case Connecting =>
      DisconnectAccepts(Asked(c), now);
      DisconnectAccepts(Asked(c).(timing := c.timing.(deadline := Never)), now);
      hide Disconnect;
      ConnectingAccepts(c, now);
    case Active =>
      DoTxWorkAccepts(c, now);
      DoTxWorkSettles(c, now);
      SendAccepts(c.(link := Transition(c.link, Idle, now)), EchoRequest(c.probeXid), now);
      if ProbeIsDue(c, now) {
        assert TimedOut(c, now);
        SendSettles(c.(link := Transition(c.link, Idle, now)), EchoRequest(c.probeXid), now);
      } else {
        assert !TimedOut(c, now);
      }
    case Idle =>
      DisconnectAccepts(c, now);
      DoTxWorkAccepts(c, now);
      DoTxWorkSettles(c, now);
      DisconnectSettles(c, now);
  }

  lemma ConnectingAccepts(c: Conn, now: int)
    requires Timely(c) && c.link.state == Connecting
    ensures !ProbeIsDue(RunConnecting(c, now), now)
  {
    DisconnectSettles(Asked(c), now);
    DisconnectSettles(Asked(c).(timing := c.timing.(deadline := Never)), now);
    hide Disconnect;
  }

  lemma {:induction false} RunAccepts(c: Conn, now: int)
    requires Timely(c)
    ensures Run(c, now).out.accepted ==
            c.out.accepted + if ProbeIsDue(c, now) then [EchoRequest(c.probeXid)] else []
    decreases Rank(c, now)
  {
    RunStateAccepts(c, now);
    RunStateSettles(c, now);
    hide RunState, ProbeIsDue;
    var next := RunState(c, now);
    if next.link.state != c.link.state {
      RunAccepts(next, now);
      assert next.out.accepted + [] == next.out.accepted;
    }
  }

  /** The packets that a call queues. */
  function Queues(c: Conn, call: Call): seq<Packet>
    requires Proper(call.event)
  {
    match call.event
    case RunEvent => if ProbeIsDue(c, call.now) then [EchoRequest(call.xid)] else []
    case SendEvent(p) => if Connected(c.link.state) then [p] else []
    case SendWithLimitEvent(p, limit) => if LimitError(c, p.counter.value, limit) == 0 then [p] else []
    case _ => []
  }

  function AllQueued(c: Conn, calls: seq<Call>): seq<Packet>
    requires Timely(c) && forall k :: 0 <= k < |calls| ==> Proper(calls[k].event)
    decreases |calls|
  {
    if calls == [] then []
    else
      DoTimely(c, calls[0]);
      Queues(c, calls[0]) + AllQueued(Do(c, calls[0]), calls[1..])
  }

  ghost predicate Counted(o: Outgoing) { forall id :: Excess(o, id) == 0 }

  lemma DoAccepts(c: Conn, call: Call)
    requires Timely(c) && Proper(call.event) && Counted(c.out)
    ensures var d := Do(c, call);
      d.out.accepted == c.out.accepted + Queues(c, call) && Counted(d.out)
  {
    var d := c.(answers := call.answers, probeXid := call.xid);
    assert c.out.accepted + [] == c.out.accepted;
    forall id ensures Excess(Do(c, call).out, id) == 0 {
      DoConserves(c, call, id);
    }
    hide Run, Send, FlushQueue, Reconnect, Disconnect;
    match call.event
    case RunEvent => RunAccepts(d, call.now);
    case SendEvent(p) => SendAccepts(d, p, call.now);
    case SendWithLimitEvent(p, limit) =>
      assert Excess(c.out, p.counter.value) == 0;
      SendAccepts(d, p, call.now);
    case ConnectEvent =>
      var void := RconnDisconnect(d, call.now);
      ReconnectAccepts(void.(link := void.link.(reliable := true)), call.now);
    case RecvEvent(_, _) => DisconnectAccepts(Asked(d), call.now);
    case _ =>
  }

  lemma {:induction false} CallsAccept(c: Conn, calls: seq<Call>)
    requires Timely(c) && Counted(c.out) && forall k :: 0 <= k < |calls| ==> Proper(calls[k].event)
    ensures Calls(c, calls).out.accepted == c.out.accepted + AllQueued(c, calls)
    decreases |calls|
  {
    hide Do, Queues, Counted, Timely;
    if calls == [] {
      assert c.out.accepted + [] == c.out.accepted;
    } else {
      DoTimely(c, calls[0]);
      DoAccepts(c, calls[0]);
      var d, now, later := Do(c, calls[0]), Queues(c, calls[0]), AllQueued(Do(c, calls[0]), calls[1..]);
      CallsAccept(d, calls[1..]);
      assert Calls(c, calls) == Calls(d, calls[1..]) && AllQueued(c, calls) == now + later;
      assert c.out.accepted + (now + later) == c.out.accepted + now + later;
    }
  }

  /** In every run the queue gets the users' packets that are not refused and the probes
      of silent peers, in this order, and nothing else; with the packets that left it
      this is all it ever held. */
  lemma QueuedExactly(probe: int, max: nat, at: int, calls: seq<Call>)
    requires forall k :: 0 <= k < |calls| ==> Proper(calls[k].event)
    ensures Timely(Create(probe, max, at))
    ensures var c := Create(probe, max, at);
      var o := Calls(c, calls).out;
      RconnAccounting.Packets(o.departed) + o.txq == AllQueued(c, calls)
  {
    var c := Create(probe, max, at);
    NothingLost(probe, max, at, calls, 0);
    assert Counted(c.out);
    CallsAccept(c, calls);
    assert c.out.accepted == [];
  }

  // ----- since when a connection is active

  /** The time of the last call that changed the connection's sequence number, or an
      earlier time. */
  function LastChange(c: Conn, calls: seq<Call>, before: int): int
    requires Timely(c) && forall k :: 0 <= k < |calls| ==> Proper(calls[k].event)
    decreases |calls|
  {
    if calls == [] then before
    else
      DoTimely(c, calls[0]);
      var d := Do(c, calls[0]);
      LastChange(d, calls[1..], if d.link.seqno == c.link.seqno then before else calls[0].now)
  }

  /** The link as it is after being active all the time, or since now. */
  predicate Enters(l: Link, r: Link, now: int) {
    && l.seqno <= r.seqno
    && (r.state == Active ==> if r.seqno == l.seqno then r == l else r.entered == now)
  }

  lemma DisconnectEnters(c: Conn, now: int)
    ensures var r := Disconnect(c, now).link; c.link.seqno <= r.seqno && r.state in {Void, Backoff}
  {
    hide FlushQueue;
  }

  lemma TrySendEnters(c: Conn, now: int)
    requires c.out.txq != []
    ensures Enters(c.link, TrySend(c, now).1.link, now)
  {
    DisconnectEnters(Asked(c).(out := Attempted(c.out, false)), now);
    hide Disconnect;
  }

  lemma {:induction false} DoTxWorkEnters(c: Conn, now: int)
    ensures Enters(c.link, DoTxWork(c, now).link, now)
    decreases |c.out.txq|
  {
    if c.out.txq != [] {
      TrySendEnters(c, now);
      if TrySend(c, now).0 == 0 {
        DoTxWorkEnters(TrySend(c, now).1, now);
      }
    }
  }

  lemma RunStateEnters(c: Conn, now: int)
    requires Timely(c)
    ensures Enters(c.link, RunState(c, now).link, now)
  {
    DisconnectEnters(c, now);
    DisconnectEnters(Asked(c), now);
    DisconnectEnters(Asked(c).(timing := c.timing.(deadline := Never)), now);
    DoTxWorkEnters(c, now);
    var idle := c.(link := Transition(c.link, Idle, now), out := Accept(c.out, EchoRequest(c.probeXid)));
    TrySendEnters(idle, now);
    hide Disconnect, DoTxWork, TrySend;
  }

  lemma {:induction false} RunEnters(c: Conn, now: int)
    requires Timely(c)
    ensures Enters(c.link, Run(c, now).link, now)
    decreases Rank(c, now)
  {
    RunStateEnters(c, now);
    RunStateSettles(c, now);
    hide RunState, Rank;
    var next := RunState(c, now);
    if next.link.state != c.link.state {
      RunEnters(next, now);
    }
  }

  lemma DoEnters(c: Conn, call: Call)
    requires Timely(c) && Proper(call.event)
    ensures Enters(c.link, Do(c, call).link, call.now)
  {
    var d := c.(answers := call.answers, probeXid := call.xid);
    DisconnectEnters(Asked(d), call.now);
    hide Run, TrySend, Disconnect;
    match call.event
    case RunEvent => RunEnters(d, call.now);
    case SendEvent(p) => TrySendEnters(d.(out := Accept(d.out, p)), call.now);
    case SendWithLimitEvent(p, _) => TrySendEnters(d.(out := Accept(d.out, p)), call.now);
    case ConnectEvent =>
      var void := RconnDisconnect(d, call.now);
      var tried := void.(link := void.link.(reliable := true));
      DisconnectEnters(Asked(tried).(timing := tried.timing.(deadline := Never)), call.now);
    case _ =>
  }

  lemma {:induction false} CallsEnter(c: Conn, calls: seq<Call>, before: int)
    requires Timely(c) && (c.link.state == Active ==> before == c.link.entered)
    requires forall k :: 0 <= k < |calls| ==> Proper(calls[k].event)
    ensures var l := Calls(c, calls).link; l.state == Active ==> l.entered == LastChange(c, calls, before)
    decreases |calls|
  {
    if calls != [] {
      DoTimely(c, calls[0]);
      DoEnters(c, calls[0]);
      hide Do, Timely;
      var d := Do(c, calls[0]);
      CallsEnter(d, calls[1..], if d.link.seqno == c.link.seqno then before else calls[0].now);
    }
  }

  /** In every run an active connection is probed exactly if it is asked to be, and
      neither a message nor a connection came in for the probe interval. */
  lemma ProbedExactlyWhenSilent(probe: int, max: nat, at: int, calls: seq<Call>, call: Call)
    requires call.event.RunEvent? && forall k :: 0 <= k < |calls| ==> Proper(calls[k].event)
    ensures Timely(Create(probe, max, at))
    ensures var c0 := Create(probe, max, at);
      var c := Calls(c0, calls);
      var heard, since := LastHeard(c0, calls, at), LastChange(c0, calls, at);
      c.link.state == Active ==>
        Do(c, call).out.accepted == c.out.accepted +
          if probe != 0 && call.now >= heard + Max(1, probe) && call.now >= since + Max(1, probe)
          then [EchoRequest(call.xid)] else []
  {
    var c0 := Create(probe, max, at);
    var c := Calls(c0, calls);
    CallsHear(c0, calls);
    CallsEnter(c0, calls, at);
    RunAccepts(c.(answers := call.answers, probeXid := call.xid), call.now);
    hide Calls, LastHeard, LastChange, Run;
  }

  /** A message that an active connection receives postpones the probe, and does no more. */
  lemma MessagePostponesProbe(c: Conn, recv: Call, run: Call)
    requires Timely(c) && c.link.state == Active && c.timing.probeInterval > 0
    requires recv.event.RecvEvent? && recv.answers != [] && recv.answers[0] == 0 && run.event.RunEvent?
    ensures Timely(Do(c, recv))
    ensures var d := Do(c, recv);
      && d.link == c.link && d.out == c.out
      && Do(d, run).out.accepted == d.out.accepted +
           if run.now >= Max(recv.now, c.link.entered) + c.timing.probeInterval then [EchoRequest(run.xid)] else []
  {
    DoTimely(c, recv);
    var d := Do(c, recv);
    RunAccepts(d.(answers := run.answers, probeXid := run.xid), run.now);
    hide Run;
  }

  // ----- connecting, and losing the connection

  /** What a user's call to connect leads to. */
  lemma ConnectIsExact(c: Conn, call: Call)
    requires Timely(c) && call.event.ConnectEvent?
    ensures var d := Do(c, call);
      && d.out == c.out && d.link.entered == call.now
      && if call.answers != [] && call.answers[0] == 0 then
           && d.link.state == Connecting && d.link.open && d.timing.backoff == 0
           && (d.link.reliable <==> |call.answers| < 2 || call.answers[1] != 0)
         else d.link.state == Backoff && !d.link.open && d.link.reliable && d.timing.backoff == 1
  {
  }

  /** A connection that fails backs off and loses its queue if it is reliable; otherwise it
      is void and keeps it. */
  lemma LossIsExact(c: Conn, call: Call)
    requires Timely(c) && Connected(c.link.state) && call.event.RecvEvent?
    requires call.answers != [] && call.answers[0] != 0 && call.answers[0] != EAGAIN
    ensures var d := Do(c, call);
      && d.link.entered == call.now && !d.link.open && d.out.accepted == c.out.accepted
      && if c.link.reliable then
           && d.link.state == Backoff && d.link.reliable && d.out.txq == []
           && d.timing.deadline == At(call.now + d.timing.backoff)
           && d.timing.backoff == if Passed(c.timing.deadline, call.now) then 1
                                  else Min(c.timing.maxBackoff, Max(1, 2 * c.timing.backoff))
         else d.link.state == Void && d.out == c.out
  {
    FlushAccepts(c.out);
    FlushDrains(c.out, 0);
    hide FlushQueue;
  }
}
