/** Emergency flows handle packets after a switchover. */
module FlowRescue {
  import opened Prelude
  import opened FlowKey
  import opened Flow
  import opened FlowChain
  import opened FlowProtection
  import opened FlowRestore
  import opened FlowSwitchover
  import opened FlowSteps
  import H = HashTable

  lemma {:induction false} HashCountMeans(s: seq<Option<FlowEntry>>, x: FlowEntry)
    ensures HashCount(s, x) > 0 <==> exists i :: 0 <= i < |s| && s[i].Some? && Bare(s[i].value) == x
  {
    if s != [] {
      var r := s[..|s| - 1];
      HashCountMeans(r, x);
      if i :| 0 <= i < |r| && r[i].Some? && Bare(r[i].value) == x {
        assert s[i] == r[i];
      }
      if i :| 0 <= i < |s| && s[i].Some? && Bare(s[i].value) == x {
        assert i < |r| ==> r[i] == s[i];
      }
    }
  }

  lemma {:induction false} ListCountMeans(s: seq<FlowEntry>, x: FlowEntry)
    ensures ListCount(s, x) > 0 <==> exists f :: f in s && Bare(f) == x
  {
    if s != [] {
      ListCountMeans(s[..|s| - 1], x);
      assert s == s[..|s| - 1] + [s[|s| - 1]];
    }
  }

  lemma WorkingCountMeans(c: Chain, x: FlowEntry)
    ensures WorkingCount(c, x) > 0 <==> exists f :: InWorking(c, f) && Bare(f) == x
  {
    HashCountMeans(c.sub0.buckets, x);
    HashCountMeans(c.sub1.buckets, x);
    ListCountMeans(c.linear.flows, x);
    StoredMeans(c.sub0, x);
    StoredMeans(c.sub1, x);
  }

  lemma StoredMeans(t: H.Hash, x: FlowEntry)
    ensures (exists f :: H.Stores(t, f) && Bare(f) == x)
            <==> exists i :: 0 <= i < |t.buckets| && t.buckets[i].Some? && Bare(t.buckets[i].value) == x
  {
    if i :| 0 <= i < |t.buckets| && t.buckets[i].Some? && Bare(t.buckets[i].value) == x {
      assert H.Stores(t, t.buckets[i].value);
    }
  }

  /** The flow does what the other does, for ever. */
  predicate Continues(f: FlowEntry, e: FlowEntry) {
    && f.key == e.key && f.priority == e.priority && f.acts == e.acts
    && f.idleTimeout == 0 && f.hardTimeout == 0
  }

  /** After a switchover a packet that an emergency flow matches is handled by the copy of an
      emergency flow of at least its priority. */
  lemma SwitchoverHandles(hs: Hashes, c: Chain, now: nat, g: FlowEntry, key: Key)
    requires Ok(hs, c) && g in c.emergency.flows && key.wild == EXACT && Matches1Wild(key, g.key)
    ensures var r := Lookup(hs, Protect(hs, c, now), key, false);
            && r.Some? && r.value.priority >= g.priority
            && exists e :: e in c.emergency.flows && Continues(r.value, e)
  {
    var d := Protect(hs, c, now);
    ProtectKeeps(hs, c, now);
    ProtectionIsExact(hs, c, now, PermanentCopy(g, now));
    WorkingCountMeans(d, PermanentCopy(g, now));
    var h :| InWorking(d, h) && Bare(h) == PermanentCopy(g, now);
    LookupIsBest(hs, d, key);
    var r := Lookup(hs, d, key, false);
    hide Protect, Ok, Lookup;
    assert h.key == g.key && h.priority == g.priority;
    WorkingCountMeans(d, Bare(r.value));
    ProtectionIsExact(hs, c, now, Bare(r.value));
    var e :| e in c.emergency.flows && Bare(r.value) == PermanentCopy(e, now);
    assert Continues(r.value, e);
  }

  /** An emergency flow that is accepted is held as the message describes it. */
  lemma AcceptedIsHeld(hs: Hashes, c: Chain, m: FlowMod, t: nat) returns (g: FlowEntry)
    requires Ok(hs, c) && m.emergency && m.priority <= EXACT_PRIORITY && !Refused(hs, c, m, t)
    ensures Describes(g, m, t) && g in Step(hs, c, Add(m), t).emergency.flows
  {
    g := AddIsExact(hs, c, m, t);
    hide Ok, Step, Describes, InWorking;
  }

  /** End to end: after any run, an emergency flow that is accepted handles its packets once
      the switch fails over, unless another emergency flow of at least its priority does. */
  lemma EmergencyFlowTakesOver(hs: Hashes, events: seq<(Event, nat)>, m: FlowMod, t: nat, now: nat, key: Key)
    requires SensibleRun(events) && m.emergency && m.priority <= EXACT_PRIORITY && !Refused(hs, Run(hs, events), m, t)
    requires key.wild == EXACT && Matches1Wild(key, ExtractMatch(m.pattern))
    ensures SensibleRun(events + [(Add(m), t)]) && SensibleRun(events + [(Add(m), t)] + [(Switchover, now)])
    ensures var c := Run(hs, events + [(Add(m), t)]);
            var r := Lookup(hs, Run(hs, events + [(Add(m), t)] + [(Switchover, now)]), key, false);
            && r.Some? && r.value.priority >= (if ExtractMatch(m.pattern).wild == EXACT then 0xffff else m.priority)
            && exists e :: e in c.emergency.flows && Continues(r.value, e)
  {
    var more := events + [(Add(m), t)];
    var g := AcceptedIsHeld(hs, Run(hs, events), m, t);
    assert Sensible(Add(m)) && Sensible(Switchover);
    assert forall c: Chain :: Ok(hs, c) ==> Step(hs, c, Switchover, now) == Protect(hs, c, now);
    hide Run, Refused, SensibleRun, Sensible, ExtractMatch, Ok, Lookup, Step, Matches1Wild, Protect;
    RunOneMore(hs, events, Add(m), t);
    RunOneMore(hs, more, Switchover, now);
    SwitchoverHandles(hs, Run(hs, more), now, g, key);
  }
}
