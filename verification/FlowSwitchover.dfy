/** What the emergency switchover leaves in the tables. */
module FlowSwitchover {
  import opened FlowKey
  import opened Flow
  import opened FlowChain
  import opened FlowProtection
  import opened FlowRestore
  import H = HashTable

  lemma FlushEmpties(hs: Hashes, c: Chain)
    requires Ok(hs, c)
    ensures var d := FlushWorking(hs, c);
            Ok(hs, d) && (forall x :: WorkingCount(d, x) == 0) && d.linear.flows == []
            && d.emergency == c.emergency && d.linear.maxFlows == c.linear.maxFlows
  {
    AllKeyMatches(ALL_KEY);
    DeleteKeeps(hs, c, EVERYTHING, false);
    var hsel := EVERYTHING.(byPriority := false);
    H.FastDelete(hs.h0, c.sub0, hsel);
    H.FastDelete(hs.h1, c.sub1, hsel);
    forall f ensures Selects(hsel, f) && Selects(EVERYTHING, f) {
      AllKeyMatches(f.key);
    }
    var d := FlushWorking(hs, c);
    forall x ensures HashCount(d.sub0.buckets, x) == 0 && HashCount(d.sub1.buckets, x) == 0 {
      HashCountEmpty(d.sub0.buckets, x);
      HashCountEmpty(d.sub1.buckets, x);
    }
    assert forall i :: 0 <= i < |d.linear.flows| ==> d.linear.flows[i] in d.linear.flows;
  }

  /** After the switchover the working tables hold exactly one permanent copy of
      each emergency flow, with its key, priority and actions, and nothing else. */
  lemma ProtectionIsExact(hs: Hashes, c: Chain, now: nat, x: FlowEntry)
    requires Ok(hs, c)
    ensures WorkingCount(Protect(hs, c, now), x)
            == if exists e :: e in c.emergency.flows && x == PermanentCopy(e, now) then 1 else 0
  {
    var s := c.emergency.iter;
    FlushEmpties(hs, c);
    IterLength(c.emergency);
    IterIsClean(hs, c);
    assert s[..0] == [] && s[0..] == s;
    RestoreAll(hs, FlushWorking(hs, c), s, 0, now);
    assert WorkingCount(Protect(hs, c, now), x) == CopyCount(s, now, x);
    CopyCountIsOne(s, now, x);
    CopiesArePermanent(hs, c, now, x);
  }

  function PermanentCopy(e: FlowEntry, now: nat): FlowEntry {
    e.(idleTimeout := OFP_FLOW_PERMANENT, hardTimeout := OFP_FLOW_PERMANENT,
       used := now, created := now, emergency := false, serial := 0)
  }

  lemma CopiesArePermanent(hs: Hashes, c: Chain, now: nat, x: FlowEntry)
    requires Ok(hs, c)
    ensures var s := c.emergency.iter;
            (exists i :: 0 <= i < |s| && x == CopyOf(s[i], now))
            <==> exists e :: e in c.emergency.flows && x == PermanentCopy(e, now)
  {
    var s := c.emergency.iter;
    forall e | e in c.emergency.flows ensures CopyOf(e, now) == PermanentCopy(e, now) {
      assert Proper(e);
      CopyIsProper(e, now);
    }
    if i :| 0 <= i < |s| && x == CopyOf(s[i], now) {
      assert s[i] in c.emergency.flows;
    }
    if e :| e in c.emergency.flows && x == PermanentCopy(e, now) {
      assert e in s;
    }
  }
}
