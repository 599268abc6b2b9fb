/** Flow-mod processing (`datapath/forward.c`) and the emergency switchover of
    `datapath/private-msg.c`, over all runs of the chain. */
module FlowProtection {
  import opened FlowKey
  import opened Flow
  import opened FlowChain
  import H = HashTable
  import L = LinearTable

  /** The part of a flow-mod message that `add_flow` and `mod_flow` use. */
  datatype FlowMod = FlowMod(pattern: Match, priority: nat, acts: seq<Action>, idleTimeout: nat,
                             hardTimeout: nat, checkOverlap: bool, emergency: bool, sendFlowRem: bool)

  function PriorityOf(key: Key, priority: nat): nat {
    if key.wild == EXACT then EXACT_PRIORITY else priority
  }

  function FlowOf(m: FlowMod, now: nat): FlowEntry {
    var key := ExtractMatch(m.pattern);
    FlowEntry(key, PriorityOf(key, m.priority), m.acts, m.idleTimeout, m.hardTimeout,
              now, now, m.sendFlowRem, m.emergency, 0)
  }

  predicate HasConflict(hs: Hashes, c: Chain, key: Key, priority: nat) {
    || H.HasConflict(hs.h0, c.sub0, key, priority, false)
    || H.HasConflict(hs.h1, c.sub1, key, priority, false)
    || exists i :: 0 <= i < |c.linear.flows| && L.Conflicts(c.linear.flows[i], key, priority, false)
  }

  function AddFlow(hs: Hashes, c: Chain, m: FlowMod, now: nat): Chain {
    var f := FlowOf(m, now);
    if m.checkOverlap && HasConflict(hs, c, f.key, f.priority) then c
    else if m.emergency && (m.idleTimeout != OFP_FLOW_PERMANENT || m.hardTimeout != OFP_FLOW_PERMANENT)
    then c
    else Insert(hs, c, f, m.emergency)
  }

  function ModFlow(hs: Hashes, c: Chain, m: FlowMod, strict: bool, now: nat): Chain {
    var f := FlowOf(m, now);
    var sel := ModifySelector(f.key, f.priority, strict);
    if ModifyCount(hs, c, sel, m.emergency) == 0 then Insert(hs, c, f, m.emergency)
    else Modify(hs, c, sel, m.acts, m.emergency)
  }

  /** A delete command fixes the priority only if it is strict. */
  function DeleteSelector(key: Key, priority: nat, outPort: nat, strict: bool): Selector {
    Described(key, strict, true, if strict then PriorityOf(key, priority) else 0, outPort)
  }

  ghost function DeleteFlow(hs: Hashes, c: Chain, pattern: Match, priority: nat, outPort: nat,
                            strict: bool, emergency: bool): Chain
    requires Ok(hs, c)
  {
    Delete(hs, c, DeleteSelector(ExtractMatch(pattern), priority, outPort, strict), emergency)
  }

  // ----- emergency switchover

  /** The copy of an emergency flow that goes into the working tables. */
  function CopyOf(e: FlowEntry, now: nat): FlowEntry {
    e.(key := ExtractMatch(FillMatch(e.key)), idleTimeout := OFP_FLOW_PERMANENT,
       hardTimeout := OFP_FLOW_PERMANENT, used := now, created := now, emergency := false, serial := 0)
  }

  const EVERYTHING := Described(ALL_KEY, false, true, 0, OFPP_NONE)

  ghost function FlushWorking(hs: Hashes, c: Chain): Chain
    requires Ok(hs, c)
  {
    Delete(hs, c, EVERYTHING, false)
  }

  predicate Visited(e: FlowEntry) { Matches2Wild(ALL_KEY, e.key) && HasOutPort(e.acts, OFPP_NONE) }

  /** The iteration over the emergency list: insert a copy of each visited entry,
      stopping at the first that is refused. */
  function Restore(hs: Hashes, c: Chain, s: seq<FlowEntry>, now: nat): Chain
    decreases |s|
  {
    if s == [] then c
    else if !Visited(s[0]) then Restore(hs, c, s[1..], now)
    else if InsertFails(hs, c, CopyOf(s[0], now), false) then c
    else Restore(hs, Insert(hs, c, CopyOf(s[0], now), false), s[1..], now)
  }

  ghost function Protect(hs: Hashes, c: Chain, now: nat): Chain
    requires Ok(hs, c)
  {
    Restore(hs, FlushWorking(hs, c), c.emergency.iter, now)
  }

  // ----- runs

  datatype Event =
    | Add(m: FlowMod)
    | Mod(m: FlowMod, strict: bool)
    | Del(pattern: Match, priority: nat, outPort: nat, strict: bool, emergency: bool)
    | Expire
    | Switchover

  predicate Sensible(e: Event) { (e.Add? || e.Mod?) ==> e.m.priority <= EXACT_PRIORITY }

  ghost function Step(hs: Hashes, c: Chain, e: Event, now: nat): Chain
    requires Ok(hs, c)
  {
    match e
    case Add(m) => AddFlow(hs, c, m, now)
    case Mod(m, strict) => ModFlow(hs, c, m, strict, now)
    case Del(pattern, priority, outPort, strict, emergency) =>
      DeleteFlow(hs, c, pattern, priority, outPort, strict, emergency)
    case Expire => Timeout(hs, c, now)
    case Switchover => Protect(hs, c, now)
  }

  lemma FlowOfIsProper(m: FlowMod, now: nat)
    requires m.priority <= EXACT_PRIORITY
    ensures Proper(FlowOf(m, now)) && Normal(FlowOf(m, now).key) && Masked(FlowOf(m, now).key)
  {
    assert Normal(FlowOf(m, now).key);
    NormalIsMasked(FlowOf(m, now).key);
  }

  lemma CopyIsProper(e: FlowEntry, now: nat)
    requires Proper(e) && Normal(e.key)
    ensures Proper(CopyOf(e, now)) && CopyOf(e, now).key == e.key
  {
    ExtractFillIdentity(e.key);
  }

  lemma {:induction false} RestoreKeeps(hs: Hashes, c: Chain, s: seq<FlowEntry>, now: nat)
    requires Ok(hs, c) && forall e :: e in s ==> Proper(e) && Normal(e.key)
    ensures Ok(hs, Restore(hs, c, s, now)) && Restore(hs, c, s, now).emergency == c.emergency
    decreases |s|
  {
    if s != [] {
      CopyIsProper(s[0], now);
      InsertKeeps(hs, c, CopyOf(s[0], now), false);
      RestoreKeeps(hs, c, s[1..], now);
      RestoreKeeps(hs, Insert(hs, c, CopyOf(s[0], now), false), s[1..], now);
    }
  }

  lemma ProtectKeeps(hs: Hashes, c: Chain, now: nat)
    requires Ok(hs, c)
    ensures Ok(hs, Protect(hs, c, now)) && Protect(hs, c, now).emergency == c.emergency
  {
    AllKeyMatches(ALL_KEY);
    DeleteKeeps(hs, c, EVERYTHING, false);
    forall e | e in c.emergency.iter ensures Proper(e) && Normal(e.key) {
      assert e in c.emergency.flows && Proper(e);
    }
    RestoreKeeps(hs, FlushWorking(hs, c), c.emergency.iter, now);
  }

  lemma StepKeeps(hs: Hashes, c: Chain, e: Event, now: nat)
    requires Ok(hs, c) && Sensible(e)
    ensures Ok(hs, Step(hs, c, e, now))
  {
    match e
    case Add(m) =>
      FlowOfIsProper(m, now);
      InsertKeeps(hs, c, FlowOf(m, now), m.emergency);
    case Mod(m, strict) =>
      var f := FlowOf(m, now);
      FlowOfIsProper(m, now);
      InsertKeeps(hs, c, f, m.emergency);
      ModifyKeeps(hs, c, ModifySelector(f.key, f.priority, strict), m.acts, m.emergency);
    case Del(pattern, priority, outPort, strict, emergency) =>
      var key := ExtractMatch(pattern);
      assert Normal(key);
      NormalIsMasked(key);
      DeleteKeeps(hs, c, DeleteSelector(key, priority, outPort, strict), emergency);
    case Expire => TimeoutKeeps(hs, c, now);
    case Switchover => ProtectKeeps(hs, c, now);
  }

  lemma NewChainOk(hs: Hashes)
    ensures Ok(hs, NewChain())
  {
    H.NewOk(hs.h0, TABLE_HASH_MAX_FLOWS);
    H.NewOk(hs.h1, TABLE_HASH_MAX_FLOWS);
  }

  /** The chain after a sequence of flow-mods, expiry passes and switchovers, each
      at its own time: it is always consistent. */
  ghost function Run(hs: Hashes, events: seq<(Event, nat)>): (c: Chain)
    requires SensibleRun(events)
    ensures Ok(hs, c)
  {
    if events == [] then
      NewChainOk(hs);
      NewChain()
    else
      var (e, now) := events[|events| - 1];
      var b := Run(hs, events[..|events| - 1]);
      assert events[|events| - 1] in events;
      StepKeeps(hs, b, e, now);
      Step(hs, b, e, now)
  }

  predicate SensibleRun(events: seq<(Event, nat)>) { forall e :: e in events ==> Sensible(e.0) }

  lemma RunOneMore(hs: Hashes, events: seq<(Event, nat)>, e: Event, now: nat)
    requires SensibleRun(events) && Sensible(e)
    ensures SensibleRun(events + [(e, now)])
    ensures Run(hs, events + [(e, now)]) == Step(hs, Run(hs, events), e, now)
  {
    assert (events + [(e, now)])[..|events|] == events;
  }

  /** After any run, a packet lookup finds a flow exactly when some working flow
      matches, and then one of the highest priority. */
  lemma RunLookupIsBest(hs: Hashes, events: seq<(Event, nat)>, key: Key)
    requires SensibleRun(events) && key.wild == EXACT
    ensures var c := Run(hs, events);
            match Lookup(hs, c, key, false)
            case None => forall f :: InWorking(c, f) ==> !Matches1Wild(key, f.key)
            case Some(f) =>
              && InWorking(c, f) && Matches1Wild(key, f.key)
              && forall g :: InWorking(c, g) && Matches1Wild(key, g.key) ==> g.priority <= f.priority
  {
    LookupIsBest(hs, Run(hs, events), key);
  }
}
