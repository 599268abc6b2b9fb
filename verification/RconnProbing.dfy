/** How the reliable connection treats a silent peer. */
module RconnProbing {
  import opened Rconn
  import opened RconnAccounting

  // An active connection that hears nothing for a probe interval queues an echo
  // request and is idle; an idle one that hears nothing for another interval is
  // dropped.  The request waits its turn in the queue, so what the peer sees of it
  // depends on what the virtual connection accepts meanwhile.

  // ----- draining the queue

  /** How many of `k` queued packets the virtual connection accepts. */
  function Taken(tape: seq<nat>, k: nat): (z: nat)
    ensures z <= k
    decreases k
  {
    if k == 0 || tape == [] || tape[0] != 0 then 0 else 1 + Taken(tape[1..], k - 1)
  }

  /** It then reports an error that ends the connection. */
  predicate Breaks(tape: seq<nat>, k: nat) {
    var z := Taken(tape, k);
    z < k && z < |tape| && tape[z] != 0 && tape[z] != EAGAIN
  }

  function AllSent(s: seq<Packet>): (r: seq<(Packet, Fate)>)
    ensures |r| == |s|
  {
    seq(|s|, i requires 0 <= i < |s| => (s[i], Sent))
  }

  /** The first `z` packets of `queue` were sent; nothing else happened to the queue. */
  predicate Drained(o: Outgoing, p: Outgoing, queue: seq<Packet>, z: nat) {
    z <= |queue| && p.txq == queue[z..] && p.departed == o.departed + AllSent(queue[..z])
  }

  lemma {:induction false} DoTxWorkExact(c: Conn, now: int)
    requires Timely(c) && Connected(c.link.state)
    ensures var d := DoTxWork(c, now);
      if Breaks(c.answers, |c.out.txq|) then Timely(d) && !Up(d.link.state) && Rank(d, now) <= 1
      else d.link == c.link && d.timing == c.timing && Drained(c.out, d.out, c.out.txq, Taken(c.answers, |c.out.txq|))
    decreases |c.out.txq|
  {
    var q := c.out.txq;
    if q == [] {
      assert q[0..] == q && AllSent(q[..0]) == [];
    } else {
      TrySendSettles(c, now);
      var d := TrySend(c, now).1;
      if Answer(c) == 0 {
        assert d.out.txq == q[1..] && d.out.departed == c.out.departed + [(q[0], Sent)];
        assert d.answers == c.answers[1..] && d.link == c.link && d.timing == c.timing;
        assert Taken(c.answers, |q|) == 1 + Taken(d.answers, |q| - 1);
        assert Breaks(c.answers, |q|) <==> Breaks(d.answers, |q| - 1);
        hide Timely, Rank, Drained, Breaks, TrySend, Taken;
        DoTxWorkExact(d, now);
        TakeOne(c.out, d.out, DoTxWork(d, now).out, q, Taken(c.answers, |q|));
      } else {
        assert q[0..] == q && AllSent(q[..0]) == [];
        if Answer(c) != EAGAIN {
          DisconnectSettles(Asked(c).(out := Attempted(c.out, false)), now);
        }
      }
    }
  }

  lemma TakeOne(o: Outgoing, p: Outgoing, r: Outgoing, q: seq<Packet>, z: nat)
    requires q != [] && p.departed == o.departed + [(q[0], Sent)] && p.txq == q[1..]
    ensures 1 <= z <= |q| && Drained(p, r, p.txq, z - 1) ==> Drained(o, r, q, z)
  {
    if 1 <= z <= |q| {
      assert q[1..][z - 1..] == q[z..];
      assert AllSent(q[..z]) == [(q[0], Sent)] + AllSent(q[1..][..z - 1]);
      assert o.departed + ([(q[0], Sent)] + AllSent(q[1..][..z - 1]))
          == p.departed + AllSent(q[1..][..z - 1]);
    }
  }

  // ----- one call to `rconn_run`

  lemma DownStays(c: Conn, now: int)
    requires Timely(c) && !Up(c.link.state) && Rank(c, now) <= 1
    ensures Run(c, now) == c
  {
    RunStateSettles(c, now);
  }

  /** An idle connection is dropped when its interval has passed or sending fails. */
  lemma IdleRun(c: Conn, now: int)
    requires Timely(c) && c.link.state == Idle
    ensures var d := Run(c, now);
      if now >= c.link.entered + c.timing.probeInterval || Breaks(c.answers, |c.out.txq|)
      then !Connected(d.link.state)
      else d.link == c.link && d.timing == c.timing && Drained(c.out, d.out, c.out.txq, Taken(c.answers, |c.out.txq|))
  {
    RunStateSettles(c, now);
    var d := RunState(c, now);
    if TimedOut(c, now) {
      DisconnectSettles(c, now);
      DownStays(d, now);
    } else {
      DoTxWorkExact(c, now);
      if Breaks(c.answers, |c.out.txq|) {
        DownStays(d, now);
      }
    }
  }

  /** The interval without a message after which an active connection is probed. */
  function ProbeTime(c: Conn): int { Max(c.timing.lastReceived, c.link.entered) + c.timing.probeInterval }

  lemma ActiveRun(c: Conn, now: int)
    requires Timely(c) && c.link.state == Active && c.timing.probeInterval > 0 && now < ProbeTime(c)
    ensures var d := Run(c, now);
      if Breaks(c.answers, |c.out.txq|) then !Connected(d.link.state)
      else d.link == c.link && d.timing == c.timing && Drained(c.out, d.out, c.out.txq, Taken(c.answers, |c.out.txq|))
  {
    RunStateSettles(c, now);
    DoTxWorkExact(c, now);
    if Breaks(c.answers, |c.out.txq|) {
      DownStays(RunState(c, now), now);
    }
  }

  /** The answers for the packets queued when the probe is: a probe that finds the
      queue empty is tried twice if the first attempt has to wait. */
  function ProbeTape(tape: seq<nat>, k: nat): seq<nat> {
    if k == 0 && tape != [] && tape[0] == EAGAIN then tape[1..] else tape
  }

  lemma ProbeRun(c: Conn, now: int)
    requires Timely(c) && c.link.state == Active && c.timing.probeInterval > 0 && now >= ProbeTime(c)
    ensures var d := Run(c, now);
      var queue := c.out.txq + [EchoRequest(c.probeXid)];
      var tape := ProbeTape(c.answers, |c.out.txq|);
      if Breaks(tape, |queue|) then !Connected(d.link.state)
      else && d.link.state == Idle && d.link.entered == now && d.link.reliable == c.link.reliable
           && d.timing == c.timing && Drained(c.out, d.out, queue, Taken(tape, |queue|))
  {
    RunStateSettles(c, now);
    assert TimedOut(c, now);
    var idle := c.(link := Transition(c.link, Idle, now), out := Accept(c.out, EchoRequest(c.probeXid)));
    var next := RunState(c, now);
    var queue := c.out.txq + [EchoRequest(c.probeXid)];
    if c.out.txq != [] {
      assert next == idle;
      IdleRun(next, now);
    } else {
      assert queue == [EchoRequest(c.probeXid)];
      assert next == TrySend(idle, now).1;
      FirstProbe(c, idle, now);
    }
  }

  lemma FirstProbe(c: Conn, idle: Conn, now: int)
    requires Timely(idle) && idle.link.state == Idle && idle.timing.probeInterval > 0 && idle.link.entered == now
    requires |idle.out.txq| == 1 && idle.answers == c.answers && idle.out.departed == c.out.departed
    ensures var next := TrySend(idle, now).1;
      var tape := ProbeTape(c.answers, 0);
      Timely(next) && var d := Run(next, now);
      if Breaks(tape, 1) then !Connected(d.link.state)
      else d.link == idle.link && d.timing == idle.timing && Drained(c.out, d.out, idle.out.txq, Taken(tape, 1))
  {
    var next := TrySend(idle, now).1;
    TrySendSettles(idle, now);
    if Answer(idle) == 0 {
      assert Taken(c.answers[1..], 0) == 0;
      IdleRun(next, now);
      TakeOne(c.out, next.out, Run(next, now).out, idle.out.txq, 1);
    } else if Answer(idle) == EAGAIN {
      IdleRun(next, now);
    } else {
      DisconnectSettles(Asked(idle).(out := Attempted(idle.out, false)), now);
      DownStays(next, now);
    }
  }

  // ----- one call, as far as a silent peer is concerned

  /** The user runs the connection or sends a packet. */
  predicate Busy(e: Event) { e.RunEvent? || e.SendEvent? }

  /** A run that comes no sooner than `limit`. */
  predicate Late(call: Call, limit: int) { call.event.RunEvent? && call.now >= limit }

  /** The packets that the call adds to the queue. */
  function Added(call: Call, late: bool): seq<Packet> {
    if call.event.SendEvent? then [call.event.packet] else if late then [EchoRequest(call.xid)] else []
  }

  /** The answers that the call uses, if `q` packets are queued before it: a packet that
      finds others in the queue is not tried. */
  function Tape(call: Call, late: bool, q: nat): seq<nat> {
    if call.event.SendEvent? then if q == 0 && call.answers != [] then [call.answers[0]] else []
    else if late then ProbeTape(call.answers, q)
    else call.answers
  }

  /** The time at which the next run probes an active connection or drops an idle one. */
  function Limit(c: Conn): int {
    if c.link.state == Idle then c.link.entered + c.timing.probeInterval else ProbeTime(c)
  }

  /** The packets queued after the call, and whether an answer ends the connection. */
  function Rest(call: Call, late: bool, q: nat): nat {
    var k := q + |Added(call, late)|;
    k - Taken(Tape(call, late, q), k)
  }

  predicate Fatal(call: Call, late: bool, q: nat) { Breaks(Tape(call, late, q), q + |Added(call, late)|) }

  function NextLimit(call: Call, limit: int, interval: nat): int {
    if Late(call, limit) then call.now + interval else limit
  }

  lemma OneSend(c: Conn, p: Packet, now: int, tape: seq<nat>)
    requires Timely(c) && Connected(c.link.state)
    requires tape == if c.out.txq == [] && c.answers != [] then [c.answers[0]] else []
    ensures var d, queue := Send(c, p, now).1, c.out.txq + [p];
      if Breaks(tape, |queue|) then !Connected(d.link.state)
      else d.link == c.link && d.timing == c.timing && Drained(c.out, d.out, queue, Taken(tape, |queue|))
  {
    var queue, queued := c.out.txq + [p], c.(out := Accept(c.out, p));
    assert queue[0..] == queue && AllSent(queue[..0]) == [];
    if c.out.txq == [] {
      assert queue == [p];
      TrySendSettles(queued, now);
      if Answer(c) == 0 {
        assert Taken(tape, 1) == 1 + Taken([], 0);
        assert queue[1..] == [] && AllSent(queue[..1]) == [(p, Sent)];
      }
    }
  }

  /** Whether the connection survives the call, and what it has sent. */
  lemma OneCall(c: Conn, call: Call)
    requires Timely(c) && Connected(c.link.state) && c.timing.probeInterval > 0 && Busy(call.event)
    ensures Timely(Do(c, call))
    ensures var d, late := Do(c, call), Late(call, Limit(c));
      var queue, tape := c.out.txq + Added(call, late), Tape(call, late, |c.out.txq|);
      if Breaks(tape, |queue|) || (late && c.link.state == Idle) then !Connected(d.link.state)
      else
        && (if late then d.link.state == Idle && d.link.entered == call.now else d.link == c.link)
        && d.timing == c.timing && Drained(c.out, d.out, queue, Taken(tape, |queue|))
  {
    var b := c.(answers := call.answers, probeXid := call.xid);
    DoTimely(c, call);
    hide Run, Send;
    assert c.out.txq + [] == c.out.txq;
    if call.event.SendEvent? {
      OneSend(b, call.event.packet, call.now, Tape(call, false, |c.out.txq|));
    } else if c.link.state == Idle {
      IdleRun(b, call.now);
    } else if call.now < Limit(c) {
      ActiveRun(b, call.now);
    } else {
      ProbeRun(b, call.now);
    }
  }

  /** The same, as far as the next call is concerned. */
  lemma OneCallNext(c: Conn, call: Call)
    requires Timely(c) && Connected(c.link.state) && c.timing.probeInterval > 0 && Busy(call.event)
    ensures Timely(Do(c, call))
    ensures var d, q, late := Do(c, call), |c.out.txq|, Late(call, Limit(c));
      && (Connected(d.link.state) <==> !Fatal(call, late, q) && !(late && c.link.state == Idle))
      && (Connected(d.link.state) ==>
            && |d.out.txq| == Rest(call, late, q) && d.timing.probeInterval == c.timing.probeInterval
            && d.link.state == (if late then Idle else c.link.state)
            && Limit(d) == NextLimit(call, Limit(c), c.timing.probeInterval))
  {
    OneCall(c, call);
    hide Do, Breaks, Taken, Tape, Timely, AllSent, Added;
  }

  // ----- any schedule of calls

  predicate Busily(calls: seq<Call>) { forall k :: 0 <= k < |calls| ==> Busy(calls[k].event) }

  /** The connection is up after every one of the calls. */
  predicate StaysUp(c: Conn, calls: seq<Call>)
    requires Timely(c) && Busily(calls)
    decreases |calls|
  {
    calls == [] ||
    (DoTimely(c, calls[0]); Connected(Do(c, calls[0]).link.state) && StaysUp(Do(c, calls[0]), calls[1..]))
  }

  /** The conditions on times and answers alone, for a connection with `q` packets
      queued that has been probed or not. */
  predicate Lasts(calls: seq<Call>, probed: bool, limit: int, interval: nat, q: nat)
    decreases |calls|
  {
    calls == [] ||
    var late := Late(calls[0], limit);
    && !(late && probed) && !Fatal(calls[0], late, q)
    && Lasts(calls[1..], probed || late, NextLimit(calls[0], limit, interval), interval, Rest(calls[0], late, q))
  }

  /** The connection stays up through a schedule exactly when the times and answers say
      so: no fatal answer, and no second interval without a message. */
  lemma {:induction false} StaysUpExactly(c: Conn, calls: seq<Call>)
    requires Timely(c) && Connected(c.link.state) && c.timing.probeInterval > 0 && Busily(calls)
    ensures StaysUp(c, calls)
            <==> Lasts(calls, c.link.state == Idle, Limit(c), c.timing.probeInterval, |c.out.txq|)
    decreases |calls|
  {
    hide Do, Timely, Fatal, Rest, Limit;
    if calls != [] {
      OneCallNext(c, calls[0]);
      if Connected(Do(c, calls[0]).link.state) {
        StaysUpExactly(Do(c, calls[0]), calls[1..]);
      }
    }
  }

  // ----- what the peer has seen

  /** The first run that comes no sooner than `limit`. */
  function FirstAt(calls: seq<Call>, limit: int): (i: nat)
    ensures i <= |calls| && (i < |calls| ==> Late(calls[i], limit))
    ensures forall j :: 0 <= j < i ==> !Late(calls[j], limit)
    decreases |calls|
  {
    if calls == [] || Late(calls[0], limit) then 0 else 1 + FirstAt(calls[1..], limit)
  }

  /** All packets that the schedule adds to the queue, probes included. */
  function Queued(calls: seq<Call>, limit: int, interval: nat): seq<Packet>
    decreases |calls|
  {
    if calls == [] then []
    else Added(calls[0], Late(calls[0], limit)) + Queued(calls[1..], NextLimit(calls[0], limit, interval), interval)
  }

  /** How many of all packets are still queued afterwards. */
  function Left(calls: seq<Call>, limit: int, interval: nat, q: nat): nat
    decreases |calls|
  {
    if calls == [] then q
    else
      Left(calls[1..], NextLimit(calls[0], limit, interval), interval, Rest(calls[0], Late(calls[0], limit), q))
  }

  lemma DrainedTwice(o: Outgoing, p: Outgoing, r: Outgoing, queue: seq<Packet>, more: seq<Packet>, y: nat, z: nat)
    requires Drained(o, p, queue, y) && Drained(p, r, p.txq + more, z)
    ensures Drained(o, r, queue + more, y + z)
  {
    var all := queue + more;
    assert all[y..] == p.txq + more && all[y..][z..] == all[y + z..];
    assert AllSent(all[..y + z]) == AllSent(queue[..y]) + AllSent((p.txq + more)[..z]) by {
      assert all[..y + z] == queue[..y] + (p.txq + more)[..z];
    }
    assert o.departed + (AllSent(queue[..y]) + AllSent((p.txq + more)[..z]))
        == p.departed + AllSent((p.txq + more)[..z]);
  }

  /** Of the packets queued before and during the schedule all but the last `left` were
      sent, in order, and nothing else happened to the queue. */
  predicate Outcome(o: Outgoing, more: seq<Packet>, left: nat, p: Outgoing) {
    var all := o.txq + more;
    left <= |all| && Drained(o, p, all, |all| - left)
  }

  lemma OutcomeTwice(o: Outgoing, p: Outgoing, r: Outgoing, first: seq<Packet>, more: seq<Packet>, y: nat, left: nat)
    requires Drained(o, p, o.txq + first, y) && Outcome(p, more, left, r)
    ensures Outcome(o, first + more, left, r)
  {
    assert o.txq + (first + more) == o.txq + first + more;
    DrainedTwice(o, p, r, o.txq + first, more, y, |p.txq + more| - left);
  }

  /** One call adds its packets behind the others and sends from the front. */
  lemma OneCallOutcome(c: Conn, call: Call, more: seq<Packet>, left: nat, p: Outgoing)
    requires Timely(c) && Connected(c.link.state) && c.timing.probeInterval > 0 && Busy(call.event)
    requires Connected(Do(c, call).link.state) && Outcome(Do(c, call).out, more, left, p)
    ensures Outcome(c.out, Added(call, Late(call, Limit(c))) + more, left, p)
  {
    OneCall(c, call);
    var late := Late(call, Limit(c));
    var queue := c.out.txq + Added(call, late);
    hide Do, Timely, Breaks, Drained, Outcome, Taken, Tape, Limit, Added;
    OutcomeTwice(c.out, Do(c, call).out, p, Added(call, late), more,
                 Taken(Tape(call, late, |c.out.txq|), |queue|), left);
  }

  /** While the connection stays up, packets leave in order, a probe after all those
      queued before it, and only by being sent. */
  lemma {:induction false} SentInOrder(c: Conn, calls: seq<Call>)
    requires Timely(c) && Connected(c.link.state) && c.timing.probeInterval > 0 && Busily(calls) && StaysUp(c, calls)
    ensures var d, limit, interval := Calls(c, calls), Limit(c), c.timing.probeInterval;
      && Outcome(c.out, Queued(calls, limit, interval), Left(calls, limit, interval, |c.out.txq|), d.out)
      && d.link.state == (if FirstAt(calls, limit) < |calls| then Idle else c.link.state)
    decreases |calls|
  {
    if calls == [] {
      assert c.out.txq + [] == c.out.txq && AllSent(c.out.txq[..0]) == [] && c.out.txq[0..] == c.out.txq;
    } else {
      OneCallNext(c, calls[0]);
      var d := Do(c, calls[0]);
      hide Do, Timely, Fatal, Rest, Outcome, Limit, Added, Late;
      SentInOrder(d, calls[1..]);
      OneCallOutcome(c, calls[0], Queued(calls[1..], Limit(d), d.timing.probeInterval),
                     Left(calls[1..], Limit(d), d.timing.probeInterval, |d.out.txq|), Calls(d, calls[1..]).out);
    }
  }

  // ----- when the peer is dropped

  predicate Harmless(calls: seq<Call>) {
    forall k, i :: 0 <= k < |calls| && 0 <= i < |calls[k].answers| ==> calls[k].answers[i] in {0, EAGAIN}
  }

  /** No run is late, or one that probes is followed by none that is late for it. */
  predicate Punctual(calls: seq<Call>, probed: bool, limit: int, interval: nat) {
    var i := FirstAt(calls, limit);
    i == |calls| || (!probed && forall j :: i < j < |calls| ==> !Late(calls[j], calls[i].now + interval))
  }

  lemma PunctualStep(calls: seq<Call>, probed: bool, limit: int, interval: nat)
    requires calls != []
    ensures var late := Late(calls[0], limit);
      Punctual(calls, probed, limit, interval) <==>
      !(late && probed) && Punctual(calls[1..], probed || late, NextLimit(calls[0], limit, interval), interval)
  {
    var rest := calls[1..];
    assert forall j :: 0 <= j < |rest| ==> rest[j] == calls[j + 1];
    if Late(calls[0], limit) {
      AllBefore(rest, calls[0].now + interval);
    } else {
      ShiftFirst(calls, limit, interval);
    }
  }

  lemma HarmlessRest(calls: seq<Call>, late: bool, q: nat)
    requires Harmless(calls) && calls != []
    ensures Harmless(calls[1..]) && !Fatal(calls[0], late, q)
  {
    var rest := calls[1..];
    forall k, i | 0 <= k < |rest| && 0 <= i < |rest[k].answers| ensures rest[k].answers[i] in {0, EAGAIN} {
      assert rest[k] == calls[k + 1];
    }
    NeverBreaks(Tape(calls[0], late, q), q + |Added(calls[0], late)|);
  }

  /** Schedules that last are punctual, and without errors those are all. */
  lemma {:induction false} LastsPunctually(calls: seq<Call>, probed: bool, limit: int, interval: nat, q: nat)
    ensures Lasts(calls, probed, limit, interval, q) ==> Punctual(calls, probed, limit, interval)
    ensures Harmless(calls) && Punctual(calls, probed, limit, interval) ==> Lasts(calls, probed, limit, interval, q)
    decreases |calls|
  {
    if calls != [] {
      var late := Late(calls[0], limit);
      PunctualStep(calls, probed, limit, interval);
      if Harmless(calls) {
        HarmlessRest(calls, late, q);
      }
      hide Punctual, Harmless, Fatal, Rest, Late;
      LastsPunctually(calls[1..], probed || late, NextLimit(calls[0], limit, interval), interval,
                      Rest(calls[0], late, q));
    }
  }

  lemma NeverBreaks(tape: seq<nat>, k: nat)
    requires forall i :: 0 <= i < |tape| ==> tape[i] in {0, EAGAIN}
    ensures !Breaks(tape, k)
  {
  }

  lemma ShiftFirst(calls: seq<Call>, limit: int, interval: nat)
    requires calls != [] && !Late(calls[0], limit)
    ensures FirstAt(calls, limit) == 1 + FirstAt(calls[1..], limit)
    ensures var i := FirstAt(calls, limit);
      i < |calls| ==>
        ((forall j :: i < j < |calls| ==> !Late(calls[j], calls[i].now + interval))
         <==> forall j :: i - 1 < j < |calls[1..]| ==> !Late(calls[1..][j], calls[1..][i - 1].now + interval))
  {
    var i := FirstAt(calls, limit);
    if i < |calls| && forall j :: i - 1 < j < |calls[1..]| ==> !Late(calls[1..][j], calls[1..][i - 1].now + interval) {
      forall j | i < j < |calls| ensures !Late(calls[j], calls[i].now + interval) {
        assert calls[1..][j - 1] == calls[j];
      }
    }
  }

  lemma AllBefore(calls: seq<Call>, limit: int)
    ensures FirstAt(calls, limit) == |calls| <==> forall j :: 0 <= j < |calls| ==> !Late(calls[j], limit)
  {
  }

  /** A silent peer is dropped exactly when a run comes a full interval after the first
      run that was late enough to probe it, whatever is queued or sent meanwhile and
      however little of it the virtual connection accepts. */
  lemma SilentPeerIsDropped(c: Conn, calls: seq<Call>)
    requires Timely(c) && c.link.state == Active && c.timing.probeInterval > 0 && Busily(calls) && Harmless(calls)
    ensures !StaysUp(c, calls) <==>
            var i := FirstAt(calls, ProbeTime(c));
            exists j :: i < j < |calls| && Late(calls[j], calls[i].now + c.timing.probeInterval)
  {
    StaysUpExactly(c, calls);
    LastsPunctually(calls, false, ProbeTime(c), c.timing.probeInterval, |c.out.txq|);
  }

  /** The packets that the user sends. */
  function Packets(calls: seq<Call>): seq<Packet> {
    if calls == [] then [] else Added(calls[0], false) + Packets(calls[1..])
  }

  lemma {:induction false} NoneLate(calls: seq<Call>, limit: int, interval: nat)
    requires FirstAt(calls, limit) == |calls|
    ensures Queued(calls, limit, interval) == Packets(calls)
  {
    if calls != [] {
      NoneLate(calls[1..], limit, interval);
    }
  }

  /** The probe stands between what was sent before it and what was sent after it. */
  lemma {:induction false} ProbeIsBetween(calls: seq<Call>, limit: int, interval: nat, i: nat)
    requires i == FirstAt(calls, limit) < |calls| && Punctual(calls, false, limit, interval)
    ensures Queued(calls, limit, interval)
            == Packets(calls[..i]) + ([EchoRequest(calls[i].xid)] + Packets(calls[i + 1..]))
    decreases i
  {
    PunctualStep(calls, false, limit, interval);
    if i == 0 {
      hide Packets, Queued;
      ProbeIsFirst(calls, limit, interval);
    } else {
      hide Punctual, Packets, Late, Added;
      ProbeIsBetween(calls[1..], limit, interval, i - 1);
      PacketsShift(calls, i);
      QueuedShift(calls, limit, interval);
    }
  }

  lemma ProbeIsFirst(calls: seq<Call>, limit: int, interval: nat)
    requires calls != [] && Late(calls[0], limit) && Punctual(calls[1..], true, calls[0].now + interval, interval)
    ensures Queued(calls, limit, interval)
            == Packets(calls[..0]) + ([EchoRequest(calls[0].xid)] + Packets(calls[0 + 1..]))
  {
    NoneLate(calls[1..], calls[0].now + interval, interval);
    assert Packets(calls[..0]) == [];
  }

  lemma QueuedShift(calls: seq<Call>, limit: int, interval: nat)
    requires calls != [] && !Late(calls[0], limit)
    ensures Queued(calls, limit, interval) == Added(calls[0], false) + Queued(calls[1..], limit, interval)
  {
  }

  lemma PacketsShift(calls: seq<Call>, i: nat)
    requires 0 < i < |calls|
    ensures var rest := calls[1..];
      && rest[i - 1] == calls[i] && rest[i - 1 + 1..] == calls[i + 1..]
      && forall tail :: Packets(calls[..i]) + tail == Added(calls[0], false) + (Packets(rest[..i - 1]) + tail)
  {
    assert calls[..i][1..] == calls[1..][..i - 1];
    assert Packets(calls[..i]) == Added(calls[0], false) + Packets(calls[1..][..i - 1]);
  }

  /** Before that, the probe has reached the virtual connection exactly when nothing is
      left in the queue but packets sent after it. */
  lemma ProbeHasLeft(c: Conn, calls: seq<Call>)
    requires Timely(c) && c.link.state == Active && c.timing.probeInterval > 0 && Busily(calls) && StaysUp(c, calls)
    requires FirstAt(calls, ProbeTime(c)) < |calls|
    ensures var d, i := Calls(c, calls), FirstAt(calls, ProbeTime(c));
      var at, probe := |c.out.departed| + |c.out.txq| + |Packets(calls[..i])|, EchoRequest(calls[i].xid);
      && d.link.state == Idle
      && |d.out.txq| == Left(calls, ProbeTime(c), c.timing.probeInterval, |c.out.txq|)
      && (|d.out.txq| <= |Packets(calls[i + 1..])| <==> |d.out.departed| > at)
      && (if |d.out.departed| > at then d.out.departed[at] == (probe, Sent)
          else at - |d.out.departed| < |d.out.txq| && d.out.txq[at - |d.out.departed|] == probe)
  {
    var i, interval := FirstAt(calls, ProbeTime(c)), c.timing.probeInterval;
    SentInOrder(c, calls);
    StaysUpExactly(c, calls);
    hide Calls, StaysUp, Lasts, Left, Queued, Punctual, Outcome, FirstAt, Packets;
    LastsPunctually(calls, false, ProbeTime(c), interval, |c.out.txq|);
    ProbeIsBetween(calls, ProbeTime(c), interval, i);
    ProbePlace(c.out, Calls(c, calls).out, Packets(calls[..i]), EchoRequest(calls[i].xid), Packets(calls[i + 1..]),
               Left(calls, ProbeTime(c), interval, |c.out.txq|));
  }

  lemma ProbePlace(o: Outgoing, p: Outgoing, before: seq<Packet>, probe: Packet, behind: seq<Packet>, left: nat)
    requires Outcome(o, before + ([probe] + behind), left, p)
    ensures var at := |o.departed| + |o.txq| + |before|;
      && |p.txq| == left && (left <= |behind| <==> |p.departed| > at)
      && (if |p.departed| > at then p.departed[at] == (probe, Sent)
          else at - |p.departed| < left && p.txq[at - |p.departed|] == probe)
  {
    var all := o.txq + (before + ([probe] + behind));
    var k := |o.txq| + |before|;
    assert all[k] == probe;
    assert p.departed == o.departed + AllSent(all[..|all| - left]) && p.txq == all[|all| - left..];
  }

  /** So a peer can be dropped that was never probed: with one packet queued, a virtual
      connection that accepts nothing, and two runs an interval apart. */
  lemma DroppedUnprobed(c: Conn, t: int, u: int, xid: nat)
    requires Timely(c) && c.link.state == Active && c.timing.probeInterval > 0 && |c.out.txq| == 1
    requires t >= ProbeTime(c) && u >= t + c.timing.probeInterval
    ensures var first, second := Call(RunEvent, t, [EAGAIN], xid), Call(RunEvent, u, [], xid);
      && Calls(c, [first]).link.state == Idle && Calls(c, [first]).out.departed == c.out.departed
      && Calls(c, [first]).out.txq == c.out.txq + [EchoRequest(xid)]
      && !StaysUp(c, [first, second])
  {
    var first, second := Call(RunEvent, t, [EAGAIN], xid), Call(RunEvent, u, [], xid);
    ProbeIsStuck(c, first);
    hide Do, Timely, Calls, Late;
    SilentPeerIsDropped(c, [first, second]);
    LateTwice(first, second, ProbeTime(c), c.timing.probeInterval);
  }

  lemma ProbeIsStuck(c: Conn, call: Call)
    requires Timely(c) && c.link.state == Active && c.timing.probeInterval > 0 && |c.out.txq| == 1
    requires Late(call, ProbeTime(c)) && call.answers == [EAGAIN]
    ensures var d := Calls(c, [call]);
      && d.link.state == Idle && d.out.departed == c.out.departed
      && d.out.txq == c.out.txq + [EchoRequest(call.xid)]
  {
    OneCall(c, call);
    var queue := c.out.txq + [EchoRequest(call.xid)];
    assert queue[0..] == queue && AllSent(queue[..0]) == [];
    hide Do, Timely;
    assert Calls(c, [call]) == Calls(Do(c, call), [call][1..]) == Do(c, call);
  }

  lemma LateTwice(first: Call, second: Call, limit: int, interval: nat)
    requires Late(first, limit) && Late(second, first.now + interval)
    ensures var i := FirstAt([first, second], limit);
      exists j :: i < j < 2 && Late([first, second][j], [first, second][i].now + interval)
  {
    assert FirstAt([first, second], limit) == 0;
    assert [first, second][1] == second && [first, second][0] == first;
  }

  // ----- when the peer revives the connection

  /** The last attempt sent a packet with another transaction id, not zero. */
  predicate Overtaken(marks: seq<Mark>, xid: nat) {
    marks != [] && var m := marks[|marks| - 1]; m.Tried? && m.sent && m.xid != 0 && m.xid != xid
  }

  /** In every run, a message revives an idle connection exactly when it is not an echo
      reply, or no packet with another id, not zero, was sent last. */
  lemma ReplyRevives(probe: int, max: nat, at: int, calls: seq<Call>, reply: bool, xid: nat, now: int)
    requires forall k :: 0 <= k < |calls| ==> Rconn.Proper(calls[k].event)
    ensures Timely(Create(probe, max, at))
    ensures var c := Calls(Create(probe, max, at), calls);
      c.link.state == Idle ==>
        (Do(c, Call(RecvEvent(reply, xid), now, [0], 0)).link.state == Active
         <==> !reply || !Overtaken(c.out.marks, xid))
  {
    hide *;
    AlwaysWaits(probe, max, at, calls);
    var c := Calls(Create(probe, max, at), calls);
    if c.link.state == Idle {
      WaitingRevives(c, reply, xid, now);
    }
  }

  lemma AlwaysWaits(probe: int, max: nat, at: int, calls: seq<Call>)
    requires forall k :: 0 <= k < |calls| ==> Rconn.Proper(calls[k].event)
    ensures Timely(Create(probe, max, at)) && Waits(Calls(Create(probe, max, at), calls).out)
  {
    assert Timely(Create(probe, max, at)) && Waits(Create(probe, max, at).out);
    hide Timely, Create, Waits, Accounted, Excess, Rconn.Proper, Calls;
    CallsConserve(Create(probe, max, at), calls, 0);
  }

  lemma WaitingRevives(c: Conn, reply: bool, xid: nat, now: int)
    requires Timely(c) && c.link.state == Idle && Waits(c.out)
    ensures Do(c, Call(RecvEvent(reply, xid), now, [0], 0)).link.state == Active
            <==> !reply || !Overtaken(c.out.marks, xid)
  {
  }

  /** So the reply to the probe itself can be ignored: any packet with an id of its own
      that is sent before the reply arrives makes it look stale. */
  lemma GenuineReplyIgnored(c: Conn, p: Packet, t: int, u: int)
    requires Timely(c) && c.link.state == Idle && c.out.txq == [] && p.xid != 0 && p.xid != c.out.echoXid
    ensures var sent := Do(c, Call(SendEvent(p), t, [0], 0));
      && sent.link.state == Idle && sent.out.departed == c.out.departed + [(p, Sent)] && Timely(sent)
      && Do(sent, Call(RecvEvent(true, c.out.echoXid), u, [0], 0)).link.state == Idle
  {
    DoTimely(c, Call(SendEvent(p), t, [0], 0));
    assert [] + [p] == [p];
  }
}
