/** The reliable connection of `lib/rconn.c`. */
module Rconn {
  // A five-state machine connects, backs off, probes an idle peer and owns a queue of
  // packets to send.  The virtual connection below it is not modelled; its return
  // values are an arbitrary tape.

  import opened Prelude

  const EAGAIN: nat := 11
  const ENOTCONN: nat := 107

  datatype State = Void | Backoff | Connecting | Active | Idle

  /** A packet and the counter, if any, that counts it while it is queued. */
  datatype Packet = Packet(data: seq<int>, xid: nat, counter: Option<nat>)

  /** `TIME_MIN`, a time, or `TIME_MAX`. */
  datatype Deadline = Always | At(time: int) | Never

  datatype Fate = Sent | Flushed

  datatype Link = Link(state: State, entered: int, open: bool, reliable: bool, seqno: nat)

  datatype Timing = Timing(backoff: nat, maxBackoff: nat, deadline: Deadline, lastReceived: int, probeInterval: nat)

  /** An attempt to send a packet with this transaction id, or the arrival of an echo
      reply at an idle connection. */
  datatype Mark = Tried(xid: nat, sent: bool) | Answered

  /** The transmit queue, the counters of its users, and three history variables: the
      packets accepted so far, the packets that left the queue, with their fate, and
      what happened to the transaction id that an idle connection waits for. */
  datatype Outgoing = Outgoing(txq: seq<Packet>, counters: map<nat, int>, packetsSent: nat, echoXid: nat,
                               accepted: seq<Packet>, departed: seq<(Packet, Fate)>, marks: seq<Mark>)

  /** `answers` are the return values of the coming calls to the virtual connection,
      `probeXid` is the random transaction id that a probe would get. */
  datatype Conn = Conn(link: Link, timing: Timing, out: Outgoing, answers: seq<nat>, probeXid: nat)

  // ----- states and timeouts

  predicate Connected(s: State) { s == Active || s == Idle }

  predicate Up(s: State) { s == Connecting || s == Active || s == Idle }

  function Min(a: nat, b: nat): nat { if a < b then a else b }

  function Max(a: int, b: int): int { if a > b then a else b }

  function Timeout(l: Link, t: Timing): Option<int> {
    match l.state
    case Void => None
    case Backoff => Some(t.backoff)
    case Connecting => Some(Max(1, t.backoff))
    case Active => if t.probeInterval == 0 then None
                   else Some(Max(t.lastReceived, l.entered) + t.probeInterval - l.entered)
    case Idle => Some(t.probeInterval)
  }

  predicate TimedOut(c: Conn, now: int) {
    var timeout := Timeout(c.link, c.timing);
    timeout.Some? && now >= c.link.entered + timeout.value
  }

  function Transition(l: Link, s: State, now: int): Link {
    l.(state := s, entered := now, seqno := l.seqno + if (l.state == Active) != (s == Active) then 1 else 0)
  }

  // ----- the virtual connection

  function Answer(c: Conn): nat { if c.answers == [] then EAGAIN else c.answers[0] }

  function Asked(c: Conn): Conn { c.(answers := if c.answers == [] then [] else c.answers[1..]) }

  // ----- the transmit queue

  function Get(counters: map<nat, int>, id: nat): int { if id in counters then counters[id] else 0 }

  function Bump(counters: map<nat, int>, counter: Option<nat>, step: int): map<nat, int> {
    if counter.None? then counters else counters[counter.value := Get(counters, counter.value) + step]
  }

  function Accept(o: Outgoing, p: Packet): Outgoing {
    o.(txq := o.txq + [p], counters := Bump(o.counters, p.counter, 1), accepted := o.accepted + [p])
  }

  function Depart(o: Outgoing, fate: Fate): Outgoing
    requires o.txq != []
  {
    o.(txq := o.txq[1..], counters := Bump(o.counters, o.txq[0].counter, -1),
       departed := o.departed + [(o.txq[0], fate)])
  }

  function FlushQueue(o: Outgoing): Outgoing
    decreases |o.txq|
  {
    if o.txq == [] then o else FlushQueue(Depart(o, Flushed))
  }

  // ----- connecting and disconnecting

  /** `rconn_disconnect`: the queue is kept. */
  function RconnDisconnect(c: Conn, now: int): Conn {
    if c.link.state == Void then c
    else c.(link := Transition(c.link.(open := false, reliable := false), Void, now),
            timing := c.timing.(backoff := 0, deadline := Always))
  }

  predicate Passed(d: Deadline, now: int) { d.Always? || (d.At? && now >= d.time) }

  function NextBackoff(t: Timing, now: int): nat {
    if Passed(t.deadline, now) then 1 else Min(t.maxBackoff, Max(1, 2 * t.backoff))
  }

  /** `disconnect`: a reliable connection backs off, any other one is void. */
  function Disconnect(c: Conn, now: int): Conn {
    if !c.link.reliable then RconnDisconnect(c, now)
    else
      var up := Up(c.link.state);
      var backoff := NextBackoff(c.timing, now);
      c.(link := Transition(c.link.(open := c.link.open && !up), Backoff, now),
         timing := c.timing.(backoff := backoff, deadline := At(now + backoff)),
         out := if up then FlushQueue(c.out) else c.out)
  }

  function Reconnect(c: Conn, now: int): Conn {
    var after := Asked(c);
    if Answer(c) == 0 then
      var link := after.link.(open := true, reliable := after.link.reliable && Answer(after) != 0);
      Asked(after).(link := Transition(link, Connecting, now),
                     timing := c.timing.(deadline := At(now + c.timing.backoff)))
    else
      Disconnect(after.(timing := c.timing.(deadline := Never)), now)
  }

  // ----- sending

  /** Every attempt overwrites the awaited transaction id, and a failed one clears it. */
  function Attempted(o: Outgoing, sent: bool): Outgoing
    requires o.txq != []
  {
    var xid := o.txq[0].xid;
    o.(echoXid := if sent then xid else 0, marks := o.marks + [Tried(xid, sent)])
  }

  /** `try_send`: the error and the new state. */
  function TrySend(c: Conn, now: int): (nat, Conn)
    requires c.out.txq != []
  {
    var asked := Asked(c);
    if Answer(c) != 0 then
      var failed := asked.(out := Attempted(c.out, false));
      (Answer(c), if Answer(c) == EAGAIN then failed else Disconnect(failed, now))
    else
      (0, asked.(out := Depart(Attempted(c.out, true).(packetsSent := c.out.packetsSent + 1), Sent)))
  }

  function DoTxWork(c: Conn, now: int): Conn
    decreases |c.out.txq|
  {
    if c.out.txq == [] then c
    else
      var (error, next) := TrySend(c, now);
      if error != 0 then next else DoTxWork(next, now)
  }

  /** `rconn_send`: only a packet that finds the queue empty is tried at once. */
  function Send(c: Conn, p: Packet, now: int): (nat, Conn) {
    if !Connected(c.link.state) then (ENOTCONN, c)
    else
      var queued := c.(out := Accept(c.out, p));
      (0, if |queued.out.txq| == 1 then TrySend(queued, now).1 else queued)
  }

  function SendWithLimit(c: Conn, p: Packet, limit: int, now: int): (nat, Conn)
    requires p.counter.Some?
  {
    if Get(c.out.counters, p.counter.value) >= limit then (EAGAIN, c) else Send(c, p, now)
  }

  // ----- running

  function EchoRequest(xid: nat): Packet { Packet([], xid, None) }

  function RunConnecting(c: Conn, now: int): Conn {
    var asked := Asked(c);
    if Answer(c) == 0 then asked.(link := Transition(c.link, Active, now))
    else if Answer(c) != EAGAIN then Disconnect(asked, now)
    else if TimedOut(asked, now) then Disconnect(asked.(timing := c.timing.(deadline := Never)), now)
    else asked
  }

  function RunState(c: Conn, now: int): Conn {
    match c.link.state
    case Void => c
    case Backoff => if TimedOut(c, now) then Reconnect(c, now) else c
    case Connecting => RunConnecting(c, now)
    case Active =>
      if TimedOut(c, now)
      then Send(c.(link := Transition(c.link, Idle, now)), EchoRequest(c.probeXid), now).1
      else DoTxWork(c, now)
    case Idle => if TimedOut(c, now) then Disconnect(c, now) else DoTxWork(c, now)
  }

  /** What every run keeps about states and timers. */
  predicate Timely(c: Conn) {
    && (c.link.open <==> Up(c.link.state))
    && (c.link.state == Void ==> !c.link.reliable && c.timing.backoff == 0)
    && (c.link.state == Backoff ==> c.link.reliable && c.timing.backoff >= 1)
    && (c.link.state == Idle ==> c.timing.probeInterval >= 1)
    && c.timing.backoff <= c.timing.maxBackoff && 1 <= c.timing.maxBackoff
    && (c.link.seqno % 2 == 1 <==> c.link.state == Active)
  }

  /** The number of state changes that can still follow while the clock stands. */
  function Rank(c: Conn, now: int): nat {
    match c.link.state
    case Void => 0
    case Backoff => if TimedOut(c, now) then 4 else 1
    case Connecting => 3
    case Active => if TimedOut(c, now) then 3 else 2
    case Idle => 2
  }

  /** Disconnecting leaves a state in which nothing happens at this time. */
  lemma DisconnectSettles(c: Conn, now: int)
    requires Timely(c)
    ensures Timely(Disconnect(c, now)) && Rank(Disconnect(c, now), now) <= 1
    ensures !Up(Disconnect(c, now).link.state)
    ensures Disconnect(c, now).link.reliable == c.link.reliable
    ensures Disconnect(c, now).timing.maxBackoff == c.timing.maxBackoff
  {
    hide FlushQueue;
  }

  lemma TrySendSettles(c: Conn, now: int)
    requires Timely(c) && Connected(c.link.state) && c.out.txq != []
    ensures var r := TrySend(c, now);
      Timely(r.1) && ((r.1.link == c.link && r.1.timing == c.timing)
                      || (r.0 != 0 && !Up(r.1.link.state) && Rank(r.1, now) <= 1))
  {
    if Answer(c) != 0 && Answer(c) != EAGAIN {
      DisconnectSettles(Asked(c).(out := Attempted(c.out, false)), now);
    }
  }

  lemma {:induction false} DoTxWorkSettles(c: Conn, now: int)
    requires Timely(c) && Connected(c.link.state)
    ensures var r := DoTxWork(c, now);
      Timely(r) && ((r.link == c.link && r.timing == c.timing) || (!Up(r.link.state) && Rank(r, now) <= 1))
    decreases |c.out.txq|
  {
    hide Timely, Rank, Disconnect;
    if c.out.txq != [] {
      TrySendSettles(c, now);
      if TrySend(c, now).0 == 0 {
        DoTxWorkSettles(TrySend(c, now).1, now);
      }
    }
  }

  lemma ReconnectSettles(c: Conn, now: int)
    requires Timely(c.(link := c.link.(reliable := c.link.state != Void && c.link.reliable)))
    requires c.link.reliable && !Up(c.link.state)
    ensures Timely(Reconnect(c, now)) && Reconnect(c, now).link.state in {Backoff, Connecting}
    ensures Rank(Reconnect(c, now), now) <= 3
  {
    hide FlushQueue;
  }

  lemma SendSettles(c: Conn, p: Packet, now: int)
    requires Timely(c)
    ensures var r := Send(c, p, now).1;
      Timely(r) && ((r.link == c.link && r.timing == c.timing) || (!Up(r.link.state) && Rank(r, now) <= 1))
  {
    hide TrySend;
    if Connected(c.link.state) && c.out.txq == [] {
      TrySendSettles(c.(out := Accept(c.out, p)), now);
    }
  }

  /** No state entered now times out now, so each change of state lowers the rank. */
  lemma RunStateSettles(c: Conn, now: int)
    requires Timely(c)
    ensures Timely(RunState(c, now))
    ensures RunState(c, now).link.state != c.link.state ==> Rank(RunState(c, now), now) < Rank(c, now)
  {
    match c.link.state
    case Void =>
    case Backoff =>
      if TimedOut(c, now) { ReconnectSettles(c, now); }
    case Connecting =>
      if Answer(c) != 0 && Answer(c) != EAGAIN {
        DisconnectSettles(Asked(c), now);
      } else if Answer(c) == EAGAIN && TimedOut(c, now) {
        DisconnectSettles(Asked(c).(timing := c.timing.(deadline := Never)), now);
      }
    case Active =>
      if TimedOut(c, now) {
        SendSettles(c.(link := Transition(c.link, Idle, now)), EchoRequest(c.probeXid), now);
      } else {
        DoTxWorkSettles(c, now);
      }
    case Idle =>
      if TimedOut(c, now) { DisconnectSettles(c, now); } else { DoTxWorkSettles(c, now); }
  }

  /** `rconn_run`: run the state's action until the state stands.  The clock does not
      advance in between; that the recursion is well-founded is the proof that the
      loop ends. */
  function Run(c: Conn, now: int): (r: Conn)
    requires Timely(c)
    ensures Timely(r)
    decreases Rank(c, now)
  {
    RunStateSettles(c, now);
    var next := RunState(c, now);
    if next.link.state == c.link.state then next else Run(next, now)
  }

  // ----- the remaining calls

  /** `rconn_connect`. */
  function Connect(c: Conn, now: int): Conn {
    var void := RconnDisconnect(c, now);
    Reconnect(void.(link := void.link.(reliable := true)), now)
  }

  /** `rconn_connect_unreliably`, given an open virtual connection. */
  function ConnectUnreliably(c: Conn, now: int): Conn {
    var void := RconnDisconnect(c, now);
    void.(link := Transition(void.link.(open := true, reliable := false), Active, now))
  }

  /** `rconn_recv`: `reply` says whether a received message is an echo reply. */
  function Recv(c: Conn, reply: bool, xid: nat, now: int): Conn {
    var asked := Asked(c);
    if !Connected(c.link.state) then c
    else if Answer(c) == 0 then
      var timed := asked.(timing := c.timing.(lastReceived := now));
      if c.link.state == Active then timed
      else
        var alive := !reply || c.out.echoXid == 0 || c.out.echoXid == xid;
        timed.(link := if alive then Transition(c.link, Active, now) else c.link,
               out := if reply then c.out.(echoXid := 0, marks := c.out.marks + [Answered]) else c.out)
    else if Answer(c) != EAGAIN then Disconnect(asked, now)
    else asked
  }

  datatype Event =
    | ConnectEvent
    | ConnectUnreliablyEvent
    | DisconnectEvent
    | RunEvent
    | RecvEvent(reply: bool, xid: nat)
    | SendEvent(packet: Packet)
    | SendWithLimitEvent(limited: Packet, limit: int)

  /** `rconn_create`. */
  function Create(probeInterval: int, maxBackoff: nat, now: int): Conn {
    Conn(Link(Void, now, false, false, 0),
         Timing(0, if maxBackoff == 0 then 60 else maxBackoff, Always, now,
                if probeInterval == 0 then 0 else Max(1, probeInterval)),
         Outgoing([], map[], 0, 0, [], [], []), [], 0)
  }

  /** One call of a user, at any time, with any answers from below and any random id. */
  datatype Call = Call(event: Event, now: int, answers: seq<nat>, xid: nat)

  predicate Proper(e: Event) { e.SendWithLimitEvent? ==> e.limited.counter.Some? }

  function Do(c: Conn, call: Call): Conn
    requires Timely(c) && Proper(call.event)
  {
    var c := c.(answers := call.answers, probeXid := call.xid);
    match call.event
    case ConnectEvent => Connect(c, call.now)
    case ConnectUnreliablyEvent => ConnectUnreliably(c, call.now)
    case DisconnectEvent => RconnDisconnect(c, call.now)
    case RunEvent => Run(c, call.now)
    case RecvEvent(reply, xid) => Recv(c, reply, xid, call.now)
    case SendEvent(p) => Send(c, p, call.now).1
    case SendWithLimitEvent(p, limit) => SendWithLimit(c, p, limit, call.now).1
  }

  lemma DoTimely(c: Conn, call: Call)
    requires Timely(c) && Proper(call.event)
    ensures Timely(Do(c, call))
  {
    hide Run, Send, Reconnect, Disconnect;
    var d := c.(answers := call.answers, probeXid := call.xid);
    match call.event
    case ConnectEvent =>
      var void := RconnDisconnect(d, call.now);
      ReconnectSettles(void.(link := void.link.(reliable := true)), call.now);
    case RecvEvent(_, _) => DisconnectSettles(Asked(d), call.now);
    case SendEvent(p) => SendSettles(d, p, call.now);
    case SendWithLimitEvent(p, _) => SendSettles(d, p, call.now);
    case _ =>
  }

  /** Every sequence of calls, each at any time: the connection exists exactly while
      connecting, active or idle, and so on. */
  function Calls(c: Conn, calls: seq<Call>): (r: Conn)
    requires Timely(c) && forall k :: 0 <= k < |calls| ==> Proper(calls[k].event)
    ensures Timely(r)
    decreases |calls|
  {
    if calls == [] then c
    else DoTimely(c, calls[0]); Calls(Do(c, calls[0]), calls[1..])
  }
}
