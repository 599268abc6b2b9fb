/** What the reliable connection promises about packets: none is lost, duplicated or
    reordered, every counter counts the queued packets that carry it, and the queue
    limit holds. */
module RconnAccounting {
  import opened Prelude
  import opened Rconn

  // ----- accounting

  function Packets(departed: seq<(Packet, Fate)>): seq<Packet> {
    seq(|departed|, i requires 0 <= i < |departed| => departed[i].0)
  }

  function Sents(departed: seq<(Packet, Fate)>): nat {
    if departed == [] then 0
    else Sents(departed[..|departed| - 1]) + if departed[|departed| - 1].1 == Sent then 1 else 0
  }

  /** The number of queued packets that carry this counter. */
  function Carrying(txq: seq<Packet>, id: nat): nat {
    if txq == [] then 0 else (if txq[0].counter == Some(id) then 1 else 0) + Carrying(txq[1..], id)
  }

  /** Accepted packets are, in order, those that left the queue and those in it. */
  predicate Accounted(o: Outgoing) {
    o.accepted == Packets(o.departed) + o.txq && o.packetsSent == Sents(o.departed)
  }

  /** What a counter holds beyond the packets queued here. */
  function Excess(o: Outgoing, id: nat): int { Get(o.counters, id) - Carrying(o.txq, id) }

  /** The transaction id that the last attempt to send left behind: none if it failed
      or an echo reply came since. */
  function Awaited(marks: seq<Mark>): nat {
    if marks != [] && marks[|marks| - 1].Tried? && marks[|marks| - 1].sent then marks[|marks| - 1].xid else 0
  }

  predicate Waits(o: Outgoing) { o.echoXid == Awaited(o.marks) }

  /** From `o` to `p` nothing was lost, and history was only added to. */
  predicate Conserves(o: Outgoing, p: Outgoing, id: nat) {
    && (Accounted(o) ==> Accounted(p)) && (Waits(o) ==> Waits(p)) && Excess(p, id) == Excess(o, id)
    && o.accepted <= p.accepted && o.departed <= p.departed
  }

  /** In addition no packet was accepted, so no counter grew. */
  predicate Drains(o: Outgoing, p: Outgoing, id: nat) {
    Conserves(o, p, id) && p.accepted == o.accepted && Get(p.counters, id) <= Get(o.counters, id)
  }

  lemma {:induction false} CarryingAppend(txq: seq<Packet>, p: Packet, id: nat)
    ensures Carrying(txq + [p], id) == Carrying(txq, id) + if p.counter == Some(id) then 1 else 0
  {
    if txq != [] {
      assert (txq + [p])[1..] == txq[1..] + [p];
      CarryingAppend(txq[1..], p, id);
    } else {
      assert txq + [p] == [p];
    }
  }

  lemma AcceptConserves(o: Outgoing, p: Packet, id: nat)
    ensures Conserves(o, Accept(o, p), id)
  {
    CarryingAppend(o.txq, p, id);
  }

  lemma DepartDrains(o: Outgoing, fate: Fate, id: nat, sent: nat, xid: nat, marks: seq<Mark>)
    requires o.txq != [] && sent == o.packetsSent + if fate == Sent then 1 else 0
    requires xid == Awaited(marks) || (xid == o.echoXid && marks == o.marks)
    ensures Drains(o, Depart(o.(packetsSent := sent, echoXid := xid, marks := marks), fate), id)
  {
    var p := Depart(o.(packetsSent := sent, echoXid := xid, marks := marks), fate);
    assert p.departed[..|p.departed| - 1] == o.departed;
    assert Packets(p.departed) == Packets(o.departed) + [o.txq[0]];
    assert [o.txq[0]] + o.txq[1..] == o.txq;
    assert Packets(p.departed) + p.txq == Packets(o.departed) + o.txq;
  }

  lemma {:induction false} FlushDrains(o: Outgoing, id: nat)
    ensures Drains(o, FlushQueue(o), id) && FlushQueue(o).txq == []
    decreases |o.txq|
  {
    hide Accounted, Waits, Excess, Get;
    if o.txq != [] {
      DepartDrains(o, Flushed, id, o.packetsSent, o.echoXid, o.marks);
      assert o.(packetsSent := o.packetsSent, echoXid := o.echoXid, marks := o.marks) == o;
      FlushDrains(Depart(o, Flushed), id);
    }
  }

  lemma DisconnectDrains(c: Conn, now: int, id: nat)
    ensures Drains(c.out, Disconnect(c, now).out, id)
  {
    hide Accounted, Waits, Excess, Get, FlushQueue, NextBackoff;
    FlushDrains(c.out, id);
  }

  lemma TrySendDrains(c: Conn, now: int, id: nat)
    requires c.out.txq != []
    ensures Drains(c.out, TrySend(c, now).1.out, id)
  {
    hide Disconnect, Depart;
    if Answer(c) == 0 {
      var tried := Attempted(c.out, true);
      DepartDrains(c.out, Sent, id, c.out.packetsSent + 1, tried.echoXid, tried.marks);
    } else if Answer(c) != EAGAIN {
      DisconnectDrains(Asked(c).(out := Attempted(c.out, false)), now, id);
    }
  }

  lemma {:induction false} DoTxWorkDrains(c: Conn, now: int, id: nat)
    ensures Drains(c.out, DoTxWork(c, now).out, id)
    decreases |c.out.txq|
  {
    hide Accounted, Waits, Excess, Get, Disconnect;
    if c.out.txq != [] {
      TrySendDrains(c, now, id);
      if TrySend(c, now).0 == 0 {
        DoTxWorkDrains(TrySend(c, now).1, now, id);
      }
    }
  }

  /** A call to `rconn_send` accepts exactly the packet it reports as accepted. */
  lemma SendConserves(c: Conn, p: Packet, now: int, id: nat)
    ensures var (error, d) := Send(c, p, now);
      && Conserves(c.out, d.out, id)
      && (error == 0 <==> Connected(c.link.state))
      && d.out.accepted == c.out.accepted + (if error == 0 then [p] else [])
      && Get(d.out.counters, id) <= Get(c.out.counters, id) + if p.counter == Some(id) then 1 else 0
  {
    hide Accounted, Waits, Excess, TrySend;
    if Connected(c.link.state) {
      AcceptConserves(c.out, p, id);
      if c.out.txq == [] {
        TrySendDrains(c.(out := Accept(c.out, p)), now, id);
      }
    }
  }

  lemma ReconnectDrains(c: Conn, now: int, id: nat)
    ensures Drains(c.out, Reconnect(c, now).out, id)
  {
    hide Disconnect, Accounted, Excess, Get;
    DisconnectDrains(Asked(c).(timing := c.timing.(deadline := Never)), now, id);
  }

  lemma RunStateConserves(c: Conn, now: int, id: nat)
    ensures Conserves(c.out, RunState(c, now).out, id)
    ensures Get(RunState(c, now).out.counters, id) <= Get(c.out.counters, id)
  {
    hide Disconnect, Accounted, Excess, Get, Reconnect, DoTxWork, Send;
    match c.link.state
    case Void =>
    case Backoff => ReconnectDrains(c, now, id);
    case Connecting =>
      DisconnectDrains(Asked(c), now, id);
      DisconnectDrains(Asked(c).(timing := c.timing.(deadline := Never)), now, id);
    case Active =>
      DoTxWorkDrains(c, now, id);
      SendConserves(c.(link := Transition(c.link, Idle, now)), EchoRequest(c.probeXid), now, id);
    case Idle =>
      DoTxWorkDrains(c, now, id);
      DisconnectDrains(c, now, id);
  }

  lemma {:induction false} RunConserves(c: Conn, now: int, id: nat)
    requires Timely(c)
    ensures Conserves(c.out, Run(c, now).out, id)
    ensures Get(Run(c, now).out.counters, id) <= Get(c.out.counters, id)
    decreases Rank(c, now)
  {
    hide Accounted, Waits, Excess, Get, Timely, RunState, Rank;
    RunStateSettles(c, now);
    RunStateConserves(c, now, id);
    var next := RunState(c, now);
    if next.link.state != c.link.state {
      RunConserves(next, now, id);
    }
  }

  lemma DoConserves(c: Conn, call: Call, id: nat)
    requires Timely(c) && Proper(call.event)
    ensures Conserves(c.out, Do(c, call).out, id)
  {
    hide Accounted, Waits, Excess, Get, Run, Send, Reconnect, Disconnect;
    var d := c.(answers := call.answers, probeXid := call.xid);
    match call.event
    case ConnectEvent =>
      var void := RconnDisconnect(d, call.now);
      ReconnectDrains(void.(link := void.link.(reliable := true)), call.now, id);
    case RunEvent => RunConserves(d, call.now, id);
    case RecvEvent(_, _) => DisconnectDrains(Asked(d), call.now, id); AnswerConserves(c.out, id);
    case SendEvent(p) => SendConserves(d, p, call.now, id);
    case SendWithLimitEvent(p, _) => SendConserves(d, p, call.now, id);
    case _ =>
  }

  lemma AnswerConserves(o: Outgoing, id: nat)
    ensures Conserves(o, o.(echoXid := 0, marks := o.marks + [Answered]), id)
  {
  }

  // ----- whole runs

  /** Over any sequence of calls, at any times and with any answers from below, every
      counter changes exactly as the number of queued packets that carry it, and the
      accepted packets are, in order, the departed ones followed by the queue. */
  lemma {:induction false} CallsConserve(c: Conn, calls: seq<Call>, id: nat)
    requires Timely(c) && forall k :: 0 <= k < |calls| ==> Proper(calls[k].event)
    ensures Conserves(c.out, Calls(c, calls).out, id)
    decreases |calls|
  {
    hide Accounted, Waits, Excess, Timely, Do;
    if calls != [] {
      DoTimely(c, calls[0]);
      DoConserves(c, calls[0], id);
      CallsConserve(Do(c, calls[0]), calls[1..], id);
    }
  }

  /** The same for a connection from its creation. */
  lemma NothingLost(probeInterval: int, maxBackoff: nat, now: int, calls: seq<Call>, id: nat)
    requires forall k :: 0 <= k < |calls| ==> Proper(calls[k].event)
    ensures Timely(Create(probeInterval, maxBackoff, now))
    ensures var o := Calls(Create(probeInterval, maxBackoff, now), calls).out;
      && Get(o.counters, id) == Carrying(o.txq, id)
      && o.accepted == Packets(o.departed) + o.txq && o.packetsSent == Sents(o.departed)
      && |o.accepted| == o.packetsSent + Flushes(o.departed) + |o.txq|
  {
    var c := Create(probeInterval, maxBackoff, now);
    CallsConserve(c, calls, id);
    assert Accounted(c.out) && Excess(c.out, id) == 0;
    SentsAndFlushes(Calls(c, calls).out.departed);
  }

  function Flushes(departed: seq<(Packet, Fate)>): nat {
    if departed == [] then 0
    else Flushes(departed[..|departed| - 1]) + if departed[|departed| - 1].1 == Flushed then 1 else 0
  }

  lemma {:induction false} SentsAndFlushes(departed: seq<(Packet, Fate)>)
    ensures Sents(departed) + Flushes(departed) == |departed|
  {
    if departed != [] {
      SentsAndFlushes(departed[..|departed| - 1]);
    }
  }

  // ----- the queue limit

  /** All packets with this counter are sent through `rconn_send_with_limit`. */
  predicate Limited(e: Event, id: nat, limit: int) {
    && (e.SendEvent? ==> e.packet.counter != Some(id))
    && (e.SendWithLimitEvent? && e.limited.counter == Some(id) ==> e.limit <= limit)
  }

  lemma DoLimited(c: Conn, call: Call, id: nat, limit: int)
    requires Timely(c) && Proper(call.event) && Limited(call.event, id, limit)
    requires Get(c.out.counters, id) <= limit
    ensures Get(Do(c, call).out.counters, id) <= limit
  {
    hide Accounted, Waits, Excess, Run, Send, Reconnect, Disconnect, Conserves;
    var d := c.(answers := call.answers, probeXid := call.xid);
    match call.event
    case ConnectEvent =>
      var void := RconnDisconnect(d, call.now);
      ReconnectDrains(void.(link := void.link.(reliable := true)), call.now, id);
    case RunEvent => RunConserves(d, call.now, id);
    case RecvEvent(_, _) => DisconnectDrains(Asked(d), call.now, id);
    case SendEvent(p) => SendConserves(d, p, call.now, id);
    case SendWithLimitEvent(p, _) => SendConserves(d, p, call.now, id);
    case _ =>
  }

  /** The limit bounds the queued packets that carry the counter, in every run. */
  lemma {:induction false} QueueLimitHolds(c: Conn, calls: seq<Call>, id: nat, limit: int)
    requires Timely(c) && Excess(c.out, id) == 0 && Carrying(c.out.txq, id) <= limit
    requires forall k :: 0 <= k < |calls| ==> Proper(calls[k].event) && Limited(calls[k].event, id, limit)
    ensures Carrying(Calls(c, calls).out.txq, id) <= limit
    decreases |calls|
  {
    hide Accounted, Waits, Timely, Do, Limited, Proper;
    if calls != [] {
      assert Proper(calls[0].event) && Limited(calls[0].event, id, limit);
      DoTimely(c, calls[0]);
      DoConserves(c, calls[0], id);
      DoLimited(c, calls[0], id, limit);
      QueueLimitHolds(Do(c, calls[0]), calls[1..], id, limit);
    }
  }

  /** What `rconn_send_with_limit` answers: too many packets with this counter are queued,
      or there is no connection, or the packet is accepted. */
  function LimitError(c: Conn, id: nat, limit: int): nat {
    if Carrying(c.out.txq, id) >= limit then EAGAIN else if Connected(c.link.state) then 0 else ENOTCONN
  }

  /** In every run: a packet with a counter is refused exactly if the limit is reached by
      the queued packets that carry it, or there is no connection; otherwise it is the one
      packet that is accepted, and at once counted. */
  lemma SendWithLimitIsExact(probe: int, max: nat, at: int, calls: seq<Call>, p: Packet, limit: int, now: int)
    requires p.counter.Some? && forall k :: 0 <= k < |calls| ==> Proper(calls[k].event)
    ensures Timely(Create(probe, max, at))
    ensures var c := Calls(Create(probe, max, at), calls);
      var (error, d) := SendWithLimit(c, p, limit, now);
      && error == LimitError(c, p.counter.value, limit)
      && d.out.accepted == c.out.accepted + (if error == 0 then [p] else [])
      && (error != 0 ==> d == c)
      && Packets(d.out.departed) + d.out.txq == Packets(c.out.departed) + c.out.txq + (if error == 0 then [p] else [])
  {
    NothingLost(probe, max, at, calls, p.counter.value);
    var c := Calls(Create(probe, max, at), calls);
    SendConserves(c, p, now, p.counter.value);
    hide Calls, Create, Send;
    assert c.out.accepted + [] == c.out.accepted;
  }

  // ----- what a disconnection does to the queue

  /** Packets may stay queued without a connection: the queue is emptied exactly when
      a reliable connection that was up goes down. */
  lemma DisconnectEmptiesQueue(c: Conn, now: int)
    ensures Disconnect(c, now).out.txq == [] <==> c.out.txq == [] || (c.link.reliable && Up(c.link.state))
    ensures RconnDisconnect(c, now).out == c.out
  {
    FlushDrains(c.out, 0);
  }

  lemma QueueOutlivesConnection(p: Packet, now: int)
    ensures Timely(Create(0, 0, now))
    ensures var calls := [Call(ConnectUnreliablyEvent, now, [], 0), Call(SendEvent(p), now, [], 0),
                          Call(DisconnectEvent, now, [], 0)];
      Calls(Create(0, 0, now), calls).link.state == Void && Calls(Create(0, 0, now), calls).out.txq == [p]
  {
    var c0 := Create(0, 0, now);
    var calls := [Call(ConnectUnreliablyEvent, now, [], 0), Call(SendEvent(p), now, [], 0),
                  Call(DisconnectEvent, now, [], 0)];
    var c1 := Do(c0, calls[0]);
    DoTimely(c0, calls[0]);
    var c2 := Do(c1, calls[1]);
    DoTimely(c1, calls[1]);
    var c3 := Do(c2, calls[2]);
    assert c1.link.state == Active && c1.out.txq == [];
    assert [] + [p] == [p];
    assert c2.out.txq == [p] && c2.link.state == Active;
    assert Calls(c0, calls) == Calls(c1, calls[1..]) == Calls(c2, calls[1..][1..]);
    assert Calls(c2, calls[1..][1..]) == Calls(c3, calls[1..][1..][1..]);
  }
}
