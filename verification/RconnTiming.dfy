/** How the reliable connection times its attempts and probes. */
module RconnTiming {
  import opened Prelude
  import opened Rconn

  // ----- backing off

  /** How an attempt to connect fails: the connection cannot be opened, the peer
      refuses it some seconds later, or it is not made before its time is up. */
  datatype Failure = OpenFails(error: nat) | Refuses(error: nat, after: nat) | Unanswered(extra: nat)

  /** An attempt that starts `wait` seconds after the backoff has elapsed. */
  datatype Attempt = Attempt(wait: nat, failure: Failure)

  predicate Fatal(error: nat) { error != 0 && error != EAGAIN }

  predicate Proper(a: Attempt) {
    (a.failure.OpenFails? ==> a.failure.error != 0) && (a.failure.Refuses? ==> Fatal(a.failure.error))
  }

  /** What `rconn_run` makes of an attempt opened at `t`. */
  function Ended(c: Conn, t: int, f: Failure): (r: Conn)
    requires Timely(c)
    ensures Timely(r)
  {
    match f
    case OpenFails(_) => c
    case Refuses(error, after) => Run(c.(answers := [error]), t + after)
    case Unanswered(extra) => Run(c.(answers := [EAGAIN]), t + Max(1, c.timing.backoff) + extra)
  }

  /** The first attempt, by `rconn_connect`. */
  function FirstTry(c: Conn, t: int, f: Failure): (r: Conn)
    requires Timely(c)
    ensures Timely(r)
  {
    var answers := if f.OpenFails? then [f.error] else [0, 1];
    DoTimely(c, Call(ConnectEvent, t, answers, c.probeXid));
    Ended(Connect(c.(answers := answers), t), t, f)
  }

  /** Another attempt, by `rconn_run` when the backoff has elapsed. */
  function NextTry(c: Conn, a: Attempt): (r: Conn)
    requires Timely(c)
    ensures Timely(r)
  {
    var t := c.link.entered + c.timing.backoff + a.wait;
    Ended(Run(c.(answers := if a.failure.OpenFails? then [a.failure.error] else [0, 1, EAGAIN]), t), t, a.failure)
  }

  /** Attempts in a row, all of which fail, from a first one at time `t`. */
  function Failing(c: Conn, t: int, s: seq<Attempt>): (r: Conn)
    requires Timely(c)
    ensures Timely(r)
    decreases |s|
  {
    if s == [] then c
    else if |s| == 1 then FirstTry(c, t, s[0].failure)
    else NextTry(Failing(c, t, s[..|s| - 1]), s[|s| - 1])
  }

  /** A refusal that comes no sooner than the backoff after the attempt was started is
      taken for the end of a connection: the backoff begins anew. */
  predicate Late(a: Attempt, backoff: nat) { a.failure.Refuses? && a.failure.after >= backoff }

  function Cap(max: nat, k: nat): nat { Min(max, Pow2(k)) }

  /** The attempts since the backoff last began anew. */
  function Since(s: seq<Attempt>, max: nat): nat {
    if |s| <= 1 then 0
    else
      var k := Since(s[..|s| - 1], max);
      if Late(s[|s| - 1], Cap(max, k)) then 0 else k + 1
  }

  lemma FailedReconnect(c: Conn, now: int)
    requires c.link.reliable && !Up(c.link.state) && c.answers != [] && c.answers[0] != 0
    ensures var d := Reconnect(c, now);
      d.link.state == Backoff && d.timing.maxBackoff == c.timing.maxBackoff
      && d.timing.backoff == Min(c.timing.maxBackoff, Max(1, 2 * c.timing.backoff))
  {
  }

  lemma OpenedReconnect(c: Conn, now: int)
    requires !Up(c.link.state) && c.link.reliable && |c.answers| >= 2 && c.answers[0] == 0 && c.answers[1] == 1
    ensures var d := Reconnect(c, now);
      && d.link.state == Connecting && d.link.entered == now && d.link.reliable && d.answers == c.answers[2..]
      && d.timing == c.timing.(deadline := At(now + c.timing.backoff))
  {
  }

  /** A connection in progress, polled by `rconn_run`. */
  lemma ConnectingRun(c: Conn, now: int)
    requires Timely(c) && c.link.state == Connecting && c.link.reliable && |c.answers| == 1 && c.answers[0] != 0
    ensures var d := Run(c, now);
      if c.answers[0] == EAGAIN && now < c.link.entered + Max(1, c.timing.backoff) then
        d.link == c.link && d.timing == c.timing
      else
        && d.link.state == Backoff && d.timing.maxBackoff == c.timing.maxBackoff
        && d.timing.backoff == if Fatal(c.answers[0]) && Passed(c.timing.deadline, now) then 1
                               else Min(c.timing.maxBackoff, Max(1, 2 * c.timing.backoff))
  {
    RunStateSettles(c, now);
    var d := RunState(c, now);
    if d.link.state == Backoff {
      assert !TimedOut(d, now);
      RunStateSettles(d, now);
      assert Run(c, now) == RunState(d, now) == d;
    }
  }

  /** The end of an attempt opened at `t` with the current backoff. */
  lemma EndedBackoff(c: Conn, t: int, f: Failure)
    requires Timely(c) && c.link.state == Connecting && c.link.reliable && c.link.entered == t
    requires c.timing.deadline == At(t + c.timing.backoff) && !f.OpenFails? && (f.Refuses? ==> Fatal(f.error))
    ensures var d := Ended(c, t, f);
      && d.link.state == Backoff && d.timing.maxBackoff == c.timing.maxBackoff
      && d.timing.backoff == if f.Refuses? && f.after >= c.timing.backoff then 1
                             else Min(c.timing.maxBackoff, Max(1, 2 * c.timing.backoff))
  {
    hide Run, Timely;
    match f
    case Refuses(error, after) => AnsweredTimely(c, [error]); ConnectingRun(c.(answers := [error]), t + after);
    case Unanswered(extra) =>
      AnsweredTimely(c, [EAGAIN]);
      ConnectingRun(c.(answers := [EAGAIN]), t + Max(1, c.timing.backoff) + extra);
  }

  lemma AnsweredTimely(c: Conn, answers: seq<nat>)
    requires Timely(c)
    ensures Timely(c.(answers := answers))
  {
  }

  lemma FirstTryBackoff(c: Conn, t: int, f: Failure)
    requires Timely(c) && Proper(Attempt(0, f))
    ensures var d := FirstTry(c, t, f);
      d.link.state == Backoff && d.timing.backoff == 1 && d.timing.maxBackoff == c.timing.maxBackoff
  {
    var answers := if f.OpenFails? then [f.error] else [0, 1];
    var void := RconnDisconnect(c.(answers := answers), t);
    var tried := void.(link := void.link.(reliable := true));
    DoTimely(c, Call(ConnectEvent, t, answers, c.probeXid));
    assert tried.timing.backoff == 0 && tried.timing.maxBackoff == c.timing.maxBackoff >= 1;
    hide Reconnect, Ended;
    if f.OpenFails? {
      FailedReconnect(tried, t);
      EndedAtOnce(Connect(c.(answers := answers), t), t, f);
    } else {
      OpenedReconnect(tried, t);
      EndedBackoff(Connect(c.(answers := answers), t), t, f);
    }
  }

  lemma EndedAtOnce(c: Conn, t: int, f: Failure)
    requires Timely(c) && f.OpenFails?
    ensures Ended(c, t, f) == c
  {
  }

  /** Opening, or failing to open, a connection when the backoff has elapsed. */
  lemma BackoffRun(c: Conn, now: int)
    requires Timely(c) && c.link.state == Backoff && now >= c.link.entered + c.timing.backoff
    requires c.answers == [0, 1, EAGAIN] || (|c.answers| == 1 && c.answers[0] != 0)
    ensures var d := Run(c, now);
      if c.answers[0] != 0 then
        && d.link.state == Backoff && d.timing.maxBackoff == c.timing.maxBackoff
        && d.timing.backoff == Min(c.timing.maxBackoff, 2 * c.timing.backoff)
      else
        && d.link.state == Connecting && d.link.entered == now && d.link.reliable
        && d.timing == c.timing.(deadline := At(now + c.timing.backoff))
  {
    RunStateSettles(c, now);
    assert TimedOut(c, now);
    var d := RunState(c, now);
    assert d == Reconnect(c, now);
    if c.answers[0] != 0 {
      FailedReconnect(c, now);
    } else {
      OpenedReconnect(c, now);
      hide Reconnect;
      assert d.answers == [EAGAIN];
      ConnectingRun(d, now);
    }
  }

  lemma NextTryBackoff(c: Conn, a: Attempt)
    requires Timely(c) && c.link.state == Backoff && Proper(a)
    ensures var d := NextTry(c, a);
      && d.link.state == Backoff && d.timing.maxBackoff == c.timing.maxBackoff
      && d.timing.backoff == if Late(a, c.timing.backoff) then 1 else Min(c.timing.maxBackoff, 2 * c.timing.backoff)
  {
    var t := c.link.entered + c.timing.backoff + a.wait;
    var asked := c.(answers := if a.failure.OpenFails? then [a.failure.error] else [0, 1, EAGAIN]);
    assert c.timing.backoff >= 1;
    hide Run, Ended;
    BackoffRun(asked, t);
    if a.failure.OpenFails? {
      EndedAtOnce(Run(asked, t), t, a.failure);
    } else {
      EndedBackoff(Run(asked, t), t, a.failure);
    }
  }

  /** The interval between attempts starts at one second and doubles with every failure
      up to the maximum, whichever way the attempts fail, except that a late refusal
      starts it anew. */
  lemma {:induction false} BackoffDoubles(c: Conn, t: int, s: seq<Attempt>)
    requires Timely(c) && s != [] && forall i :: 0 <= i < |s| ==> Proper(s[i])
    ensures var d := Failing(c, t, s);
      && d.link.state == Backoff && d.timing.maxBackoff == c.timing.maxBackoff
      && d.timing.backoff == Cap(c.timing.maxBackoff, Since(s, c.timing.maxBackoff))
    decreases |s|
  {
    hide NextTry, FirstTry;
    assert Pow2(0) == 1;
    if |s| == 1 {
      FirstTryBackoff(c, t, s[0].failure);
    } else {
      BackoffDoubles(c, t, s[..|s| - 1]);
      NextTryBackoff(Failing(c, t, s[..|s| - 1]), s[|s| - 1]);
    }
  }

  /** Without late refusals it is the number of attempts that counts. */
  lemma {:induction false} NeverLate(s: seq<Attempt>, max: nat)
    requires s != [] && forall i :: 0 <= i < |s| ==> !s[i].failure.Refuses?
    ensures Since(s, max) == |s| - 1
    decreases |s|
  {
    if |s| > 1 {
      NeverLate(s[..|s| - 1], max);
    }
  }

  /** Three attempts that cannot be opened, and one that is refused. */
  function FourFailures(error: nat, after: nat): seq<Attempt> {
    var f := Attempt(0, OpenFails(error));
    [f, f, f] + [Attempt(0, Refuses(error, after))]
  }

  lemma FourFailuresSince(error: nat, after: nat)
    ensures Since(FourFailures(error, after), 60) == if after >= 4 then 0 else 3
  {
    var f := Attempt(0, OpenFails(error));
    var s := FourFailures(error, after);
    assert s[..|s| - 1] == [f, f, f];
    NeverLate([f, f, f], 60);
    assert Pow2(2) == 4;
  }

  /** With the default maximum, the fourth failure of four doubles the backoff to eight
      seconds, unless it is a refusal that took four seconds: then it is one second. */
  lemma LateRefusalResets(now: int, error: nat, after: nat)
    requires Fatal(error)
    ensures Timely(Create(0, 0, now))
    ensures Failing(Create(0, 0, now), now, FourFailures(error, after)).timing.backoff == if after >= 4 then 1 else 8
  {
    hide Failing, Since;
    FourFailuresSince(error, after);
    BackoffDoubles(Create(0, 0, now), now, FourFailures(error, after));
    assert Pow2(0) == 1 && Pow2(3) == 8;
  }

  lemma Reconnects(c: Conn, t: int)
    requires Timely(c) && c.link.state == Backoff && TimedOut(c, t) && c.answers == [0, 1, 0]
    ensures var d := Run(c, t);
      && d.link.state == Active && d.link.reliable && d.out.txq == c.out.txq
      && d.timing == c.timing.(deadline := At(t + c.timing.backoff))
  {
    var connecting := RunState(c, t);
    assert connecting.link.state == Connecting && connecting.answers == [0];
    var active := RunState(connecting, t);
    assert active.link.state == Active && active.answers == [];
    RunStateSettles(c, t);
    RunStateSettles(connecting, t);
    assert !TimedOut(active, t);
    StillActive(active, t);
  }

  lemma StillActive(c: Conn, t: int)
    requires Timely(c) && c.link.state == Active && !TimedOut(c, t) && c.answers == []
    ensures var d := Run(c, t);
      d.link == c.link && d.timing == c.timing && d.out.txq == c.out.txq
  {
    RunStateSettles(c, t);
    assert RunState(c, t) == DoTxWork(c, t);
  }

  /** The backoff falls back to one second exactly when the connection, counted from
      the start of the attempt, lasted at least as long as the backoff before it. */
  lemma BackoffAfterConnection(c: Conn, t: int, u: int, error: nat)
    requires Timely(c) && c.link.state == Backoff && TimedOut(c, t) && error != 0 && error != EAGAIN
    ensures var d := Run(c.(answers := [0, 1, 0]), t);
      var e := Recv(d.(answers := [error]), false, 0, u);
      && d.link.state == Active && e.link.state == Backoff && e.out.txq == []
      && e.timing.backoff == if u >= t + c.timing.backoff then 1
                             else Min(c.timing.maxBackoff, 2 * c.timing.backoff)
  {
    Reconnects(c.(answers := [0, 1, 0]), t);
    hide Run;
    FlushEmpties(Run(c.(answers := [0, 1, 0]), t).out);
  }

  lemma {:induction false} FlushEmpties(o: Outgoing)
    ensures FlushQueue(o).txq == []
    decreases |o.txq|
  {
    if o.txq != [] {
      FlushEmpties(Depart(o, Flushed));
    }
  }
}
