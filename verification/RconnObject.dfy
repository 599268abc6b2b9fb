/** `struct rconn` as an object: its methods change the fields the way `lib/rconn.c`
    does and are proved against the specification in module `Rconn`.

    The virtual connection is a tape of answers that `Ask` consumes; the counters of
    the users are a map.  Two ghost fields record the packets accepted and the
    packets that left, so that the abstract value is the state that
    `RconnAccounting` reasons about.  The loop of `Run` ends because the rank of the
    state falls with every change while the clock stands. */
module RconnObject {
  import opened Prelude
  import opened R = Rconn

  class Rconn {
    var state: State
    var entered: int
    var open: bool
    var reliable: bool
    var seqno: nat
    var txq: seq<Packet>
    var backoff: nat
    const maxBackoff: nat
    var deadline: Deadline
    var lastReceived: int
    const probeInterval: nat
    var packetsSent: nat
    var echoXid: nat
    /** The counters of the users of the connection. */
    var counters: map<nat, int>
    /** The coming answers of the virtual connection. */
    var answers: seq<nat>
    /** The random id for the next probe. */
    var probeXid: nat

    ghost var accepted: seq<Packet>
    ghost var departed: seq<(Packet, Fate)>
    ghost var marks: seq<Mark>

    ghost function Abs(): Conn
      reads this
    {
      Conn(Link(state, entered, open, reliable, seqno),
           Timing(backoff, maxBackoff, deadline, lastReceived, probeInterval),
           Outgoing(txq, counters, packetsSent, echoXid, accepted, departed, marks), answers, probeXid)
    }

    /** `rconn_create`. */
    constructor (probe: int, max: nat, now: int)
      ensures Abs() == Create(probe, max, now) && Timely(Abs())
    {
      state, entered, open, reliable, seqno := Void, now, false, false, 0;
      txq, counters, packetsSent, echoXid, answers := [], map[], 0, 0, [];
      backoff, deadline, lastReceived := 0, Always, now;
      maxBackoff := if max == 0 then 60 else max;
      probeInterval := if probe == 0 then 0 else Max(1, probe);
      accepted, departed, marks, probeXid := [], [], [], 0;
    }

    /** A call to the virtual connection. */
    method Ask() returns (answer: nat)
      modifies this`answers
      ensures answer == Answer(old(Abs())) && Abs() == Asked(old(Abs()))
    {
      answer := EAGAIN;
      if answers != [] {
        answer, answers := answers[0], answers[1..];
      }
    }

    method TimesOut(now: int) returns (r: bool)
      ensures r == TimedOut(Abs(), now)
    {
      var timeout := match state
        case Void => None
        case Backoff => Some(backoff)
        case Connecting => Some(Max(1, backoff))
        case Active => if probeInterval == 0 then None else Some(Max(lastReceived, entered) + probeInterval - entered)
        case Idle => Some(probeInterval);
      r := timeout.Some? && now >= entered + timeout.value;
    }

    method StateTransition(s: State, now: int)
      modifies this`state, this`entered, this`seqno
      ensures Abs() == old(Abs()).(link := Transition(old(Abs().link), s, now))
    {
      if (state == Active) != (s == Active) {
        seqno := seqno + 1;
      }
      state, entered := s, now;
    }

    method Count(counter: Option<nat>, step: int)
      modifies this`counters
      ensures counters == Bump(old(counters), counter, step)
    {
      if counter.Some? {
        counters := counters[counter.value := Get(counters, counter.value) + step];
      }
    }

    /** Take the first packet off the queue and stop counting it. */
    method PopHead(ghost fate: Fate)
      requires txq != []
      modifies this`txq, this`counters, this`departed
      ensures Abs() == old(Abs()).(out := Depart(old(Abs().out), fate))
    {
      var head := txq[0];
      Count(head.counter, -1);
      txq := txq[1..];
      departed := departed + [(head, fate)];
    }

    /** `flush_queue`. */
    method Flush()
      modifies this`txq, this`counters, this`departed
      ensures Abs() == old(Abs()).(out := FlushQueue(old(Abs().out)))
    {
      while txq != []
        invariant FlushQueue(Abs().out) == FlushQueue(old(Abs().out))
        decreases |txq|
      {
        PopHead(Flushed);
      }
    }

    method RconnDisconnect(now: int)
      modifies this
      ensures Abs() == R.RconnDisconnect(old(Abs()), now)
    {
      if state != Void {
        open, reliable, backoff, deadline := false, false, 0, Always;
        StateTransition(Void, now);
      }
    }

    method Disconnect(now: int)
      modifies this
      ensures Abs() == R.Disconnect(old(Abs()), now)
    {
      hide FlushQueue, Transition;
      if reliable {
        if Up(state) {
          open := false;
          Flush();
        }
        if Passed(deadline, now) {
          backoff := 1;
        } else {
          backoff := Min(maxBackoff, Max(1, 2 * backoff));
        }
        deadline := At(now + backoff);
        StateTransition(Backoff, now);
      } else {
        RconnDisconnect(now);
      }
    }

    method Reconnect(now: int)
      modifies this
      ensures Abs() == R.Reconnect(old(Abs()), now)
    {
      hide R.Disconnect, Transition;
      var error := Ask();
      if error == 0 {
        open := true;
        var reconnectable := Ask();
        if reconnectable == 0 {
          reliable := false;
        }
        deadline := At(now + backoff);
        StateTransition(Connecting, now);
      } else {
        deadline := Never;
        Disconnect(now);
      }
    }

    method TrySend(now: int) returns (error: nat)
      requires txq != []
      modifies this
      ensures (error, Abs()) == R.TrySend(old(Abs()), now)
    {
      hide R.Disconnect, Depart;
      echoXid := txq[0].xid;
      error := Ask();
      if error != 0 {
        echoXid := 0;
        marks := marks + [Tried(txq[0].xid, false)];
        if error != EAGAIN {
          Disconnect(now);
        }
        return;
      }
      packetsSent := packetsSent + 1;
      marks := marks + [Tried(echoXid, true)];
      PopHead(Sent);
    }

    method DoTxWork(now: int)
      modifies this
      ensures Abs() == R.DoTxWork(old(Abs()), now)
    {
      hide R.Disconnect;
      var error := 0;
      while txq != [] && error == 0
        invariant if error == 0 then R.DoTxWork(Abs(), now) == R.DoTxWork(old(Abs()), now)
                  else Abs() == R.DoTxWork(old(Abs()), now)
        decreases error == 0, |txq|
      {
        error := TrySend(now);
      }
    }

    method Send(p: Packet, now: int) returns (error: nat)
      modifies this
      ensures (error, Abs()) == R.Send(old(Abs()), p, now)
    {
      hide R.TrySend;
      if !Connected(state) {
        return ENOTCONN;
      }
      Count(p.counter, 1);
      txq := txq + [p];
      accepted := accepted + [p];
      if |txq| == 1 {
        var _ := TrySend(now);
      }
      error := 0;
    }

    method SendWithLimit(p: Packet, limit: int, now: int) returns (error: nat)
      requires p.counter.Some?
      modifies this
      ensures (error, Abs()) == R.SendWithLimit(old(Abs()), p, limit, now)
    {
      hide R.Send;
      if Get(counters, p.counter.value) >= limit {
        return EAGAIN;
      }
      error := Send(p, now);
    }

    method RunConnecting(now: int)
      requires state == Connecting
      modifies this
      ensures Abs() == R.RunConnecting(old(Abs()), now)
    {
      hide R.Disconnect;
      var error := Ask();
      if error == 0 {
        StateTransition(Active, now);
      } else if error != EAGAIN {
        Disconnect(now);
      } else {
        var late := TimesOut(now);
        if late {
          deadline := Never;
          Disconnect(now);
        }
      }
    }

    method RunState(now: int)
      modifies this
      ensures Abs() == R.RunState(old(Abs()), now)
    {
      hide R.Disconnect, R.Reconnect, R.DoTxWork, R.Send, R.RunConnecting;
      var late := TimesOut(now);
      match state
      case Void =>
      case Backoff =>
        if late { Reconnect(now); }
      case Connecting =>
        RunConnecting(now);
      case Active =>
        if late {
          StateTransition(Idle, now);
          var _ := Send(EchoRequest(probeXid), now);
        } else {
          DoTxWork(now);
        }
      case Idle =>
        if late { Disconnect(now); } else { DoTxWork(now); }
    }

    /** `rconn_run`: the loop ends because every change of state lowers the rank. */
    method Run(now: int)
      requires Timely(Abs())
      modifies this
      ensures Abs() == R.Run(old(Abs()), now) && Timely(Abs())
    {
      hide Timely, R.RunState, Rank;
      var again := true;
      while again
        invariant Timely(Abs())
        invariant if again then R.Run(Abs(), now) == R.Run(old(Abs()), now) else Abs() == R.Run(old(Abs()), now)
        decreases again, Rank(Abs(), now)
      {
        RunStateSettles(Abs(), now);
        var was := state;
        RunState(now);
        again := state != was;
      }
    }

    method Connect(now: int)
      modifies this
      ensures Abs() == R.Connect(old(Abs()), now)
    {
      hide R.Reconnect, R.RconnDisconnect;
      RconnDisconnect(now);
      reliable := true;
      Reconnect(now);
    }

    method ConnectUnreliably(now: int)
      modifies this
      ensures Abs() == R.ConnectUnreliably(old(Abs()), now)
    {
      hide R.RconnDisconnect;
      RconnDisconnect(now);
      open, reliable := true, false;
      StateTransition(Active, now);
    }

    method Recv(reply: bool, xid: nat, now: int) returns (received: bool)
      modifies this
      ensures Abs() == R.Recv(old(Abs()), reply, xid, now)
      ensures received <==> Connected(old(state)) && Answer(old(Abs())) == 0
    {
      hide R.Disconnect;
      received := false;
      if !Connected(state) {
        return;
      }
      var error := Ask();
      if error == 0 {
        received := true;
        lastReceived := now;
        if state == Idle {
          if !reply || echoXid == 0 || echoXid == xid {
            StateTransition(Active, now);
          }
          if reply {
            echoXid := 0;
            marks := marks + [Answered];
          }
        }
      } else if error != EAGAIN {
        Disconnect(now);
      }
    }
  }
}
