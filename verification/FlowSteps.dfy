/** What every flow-mod command does to the working and the emergency flows. */
module FlowSteps {
  import opened FlowKey
  import opened Flow
  import opened FlowChain
  import opened FlowEffects
  import opened FlowInsertion
  import opened FlowProtection
  import opened FlowOverlap
  import L = LinearTable

  // ----- the emergency list

  /** The emergency list gains the flow in place of its duplicate; nothing else changes. */
  ghost predicate EmergencyGained(c: Chain, d: Chain, g: FlowEntry) {
    && d == c.(emergency := d.emergency)
    && forall h :: h in d.emergency.flows <==> h == g || (h in c.emergency.flows && !L.Same(h, g))
  }

  lemma EmergencyInsertIsExact(hs: Hashes, c: Chain, f: FlowEntry) returns (g: FlowEntry)
    requires Ok(hs, c) && Proper(f) && !InsertFails(hs, c, f, true)
    ensures g == f.(serial := g.serial) && EmergencyGained(c, Insert(hs, c, f, true), g)
  {
    L.InsertKeeps(c.emergency, f);
    var n :| L.Combines(c.emergency.flows, L.Insert(c.emergency, f).flows, f.(serial := n));
    g := f.(serial := n);
    hide L.Insert, L.Same;
  }

  /** It is refused exactly if the list is full and holds no duplicate. */
  lemma EmergencyIsFull(hs: Hashes, c: Chain, f: FlowEntry)
    requires Ok(hs, c) && Proper(f)
    ensures InsertFails(hs, c, f, true) <==>
            |c.emergency.flows| == c.emergency.maxFlows && forall g :: g in c.emergency.flows ==> !L.Same(g, f)
    ensures InsertFails(hs, c, f, true) ==> Insert(hs, c, f, true) == c
  {
    L.InsertKeeps(c.emergency, f);
  }

  // ----- adding

  /** The flow that a message asks for. */
  predicate Describes(g: FlowEntry, m: FlowMod, now: nat) {
    && g.key == ExtractMatch(m.pattern) && g.priority == (if g.key.wild == EXACT then 0xffff else m.priority)
    && g.acts == m.acts && g.idleTimeout == m.idleTimeout && g.hardTimeout == m.hardTimeout
    && g.used == now && g.created == now && g.sendFlowRem == m.sendFlowRem && g.emergency == m.emergency
  }

  /** An add is refused if it asks for a check and some packet could be handled by either
      flow, if it asks for an emergency flow that expires, or if the tables are full. */
  ghost predicate Refused(hs: Hashes, c: Chain, m: FlowMod, now: nat) {
    var f := FlowOf(m, now);
    || (m.checkOverlap && exists g :: InWorking(c, g) && Ambiguous(g, f.key, f.priority))
    || (m.emergency && (m.idleTimeout != 0 || m.hardTimeout != 0))
    || InsertFails(hs, c, f, m.emergency)
  }

  lemma InsertFailsKeeps(hs: Hashes, c: Chain, f: FlowEntry, emergency: bool)
    requires InsertFails(hs, c, f, emergency)
    ensures Insert(hs, c, f, emergency) == c
  {
  }

  /** What becomes of the tables when a flow is offered to them. */
  ghost predicate Offered(hs: Hashes, c: Chain, d: Chain, f: FlowEntry, emergency: bool, g: FlowEntry) {
    if InsertFails(hs, c, f, emergency) then d == c
    else
      && g == f.(serial := g.serial)
      && if emergency then EmergencyGained(c, d, g) else Gained(c, d, AcceptedAt(hs, c, f), g)
  }

  lemma InsertOffers(hs: Hashes, c: Chain, f: FlowEntry, emergency: bool) returns (g: FlowEntry)
    requires Ok(hs, c) && Proper(f)
    ensures Offered(hs, c, Insert(hs, c, f, emergency), f, emergency, g)
  {
    g := f;
    if InsertFails(hs, c, f, emergency) {
      InsertFailsKeeps(hs, c, f, emergency);
    } else {
      hide InsertFails, Insert, Ok, Gained, EmergencyGained;
      if emergency {
        g := EmergencyInsertIsExact(hs, c, f);
      } else {
        g := InsertIsExact(hs, c, f);
      }
    }
  }

  lemma AddIsExact(hs: Hashes, c: Chain, m: FlowMod, now: nat) returns (g: FlowEntry)
    requires Ok(hs, c) && m.priority <= EXACT_PRIORITY
    ensures var d := Step(hs, c, Add(m), now);
            if Refused(hs, c, m, now) then d == c
            else Describes(g, m, now) && Offered(hs, c, d, FlowOf(m, now), m.emergency, g)
  {
    var f := FlowOf(m, now);
    FlowOfIsProper(m, now);
    ConflictMeansAmbiguous(hs, c, f.key, f.priority);
    hide Ok, Ambiguous, HasConflict, Gained, EmergencyGained, ExtractMatch, InWorking, InsertFails, Insert;
    g := InsertOffers(hs, c, f, m.emergency);
  }

  // ----- modifying

  /** The flow is one that a description selects. */
  predicate Chosen(f: FlowEntry, key: Key, strict: bool, priority: nat) {
    && Matches1Wild(f.key, key)
    && (strict ==> f.key.wild == key.wild && f.priority == if key.wild == EXACT then 0xffff else priority)
  }

  predicate InTable(c: Chain, emergency: bool, f: FlowEntry) {
    if emergency then f in c.emergency.flows else InWorking(c, f)
  }

  /** What a modify command makes of a flow. */
  function Updated(f: FlowEntry, key: Key, strict: bool, priority: nat, acts: seq<Action>): FlowEntry {
    if Chosen(f, key, strict, priority) then f.(acts := acts) else f
  }

  /** The table holds a flow that becomes this one. */
  ghost predicate Rewritten(c: Chain, emergency: bool, key: Key, strict: bool, priority: nat, acts: seq<Action>,
                            h: FlowEntry) {
    exists f :: InTable(c, emergency, f) && h == Updated(f, key, strict, priority, acts)
  }

  ghost predicate NoneChosen(c: Chain, emergency: bool, key: Key, strict: bool, priority: nat) {
    forall f :: InTable(c, emergency, f) ==> !Chosen(f, key, strict, priority)
  }

  lemma EmergencyModify(hs: Hashes, c: Chain, sel: Selector, acts: seq<Action>, h: FlowEntry)
    requires sel.Described?
    ensures var d := Modify(hs, c, sel, acts, true);
            && (h in d.emergency.flows <==> exists f :: f in c.emergency.flows && h == Reactioned(f, sel, acts))
            && (InWorking(d, h) <==> InWorking(c, h))
    ensures ModifyCount(hs, c, sel, true) == 0 <==> forall f :: f in c.emergency.flows ==> !Selects(sel, f)
  {
    CountSelectedZero(c.emergency.flows, sel);
    if h in Modified(c.emergency.flows, sel, acts) {
      ModifiedFrom(c.emergency.flows, sel, acts, h);
    }
    if f :| f in c.emergency.flows && h == Reactioned(f, sel, acts) {
      var i :| 0 <= i < |c.emergency.flows| && c.emergency.flows[i] == f;
      assert Modified(c.emergency.flows, sel, acts)[i] == h;
    }
  }

  lemma SelectedIsChosen(key: Key, strict: bool, priority: nat, acts: seq<Action>, f: FlowEntry)
    ensures var sel := ModifySelector(key, if key.wild == EXACT then 0xffff else priority, strict);
            && (Selects(sel, f) <==> Chosen(f, key, strict, priority))
            && Reactioned(f, sel, acts) == Updated(f, key, strict, priority, acts)
  {
  }

  lemma ModifyTable(hs: Hashes, c: Chain, sel: Selector, acts: seq<Action>, emergency: bool, h: FlowEntry)
    requires Ok(hs, c) && sel.Described? && Masked(sel.key)
    ensures var d := Modify(hs, c, sel, acts, emergency);
            && (InTable(d, emergency, h) <==> exists f :: InTable(c, emergency, f) && h == Reactioned(f, sel, acts))
            && (InTable(d, !emergency, h) <==> InTable(c, !emergency, h))
    ensures ModifyCount(hs, c, sel, emergency) == 0 <==> forall f :: InTable(c, emergency, f) ==> !Selects(sel, f)
  {
    if emergency {
      EmergencyModify(hs, c, sel, acts, h);
    } else {
      ModifyIsExact(hs, c, sel, acts, h);
      ModifyCountZero(hs, c, sel);
    }
    hide Ok, InWorking, Modify, ModifyCount, Selects, Reactioned;
  }

  lemma ModifyTableIsExact(hs: Hashes, c: Chain, key: Key, strict: bool, priority: nat, acts: seq<Action>,
                           emergency: bool, h: FlowEntry)
    requires Ok(hs, c) && Masked(key)
    ensures var sel := ModifySelector(key, if key.wild == EXACT then 0xffff else priority, strict);
            var d := Modify(hs, c, sel, acts, emergency);
            && (InTable(d, emergency, h) <==> Rewritten(c, emergency, key, strict, priority, acts, h))
            && (InTable(d, !emergency, h) <==> InTable(c, !emergency, h))
            && (ModifyCount(hs, c, sel, emergency) == 0 <==> NoneChosen(c, emergency, key, strict, priority))
  {
    var sel := ModifySelector(key, if key.wild == EXACT then 0xffff else priority, strict);
    hide Ok, InTable, Modify, ModifyCount, Selects, Chosen, Reactioned, Updated;
    ModifyTable(hs, c, sel, acts, emergency, h);
    forall f
      ensures Selects(sel, f) <==> Chosen(f, key, strict, priority)
      ensures Reactioned(f, sel, acts) == Updated(f, key, strict, priority, acts)
    {
      SelectedIsChosen(key, strict, priority, acts, f);
    }
  }

  /** A modify command gives the chosen flows of its table the new actions; if there is none
      it adds the flow, without the checks of an add. */
  lemma ModIsExact(hs: Hashes, c: Chain, m: FlowMod, strict: bool, now: nat, h: FlowEntry) returns (g: FlowEntry)
    requires Ok(hs, c) && m.priority <= EXACT_PRIORITY
    ensures var d, key := Step(hs, c, Mod(m, strict), now), ExtractMatch(m.pattern);
            if NoneChosen(c, m.emergency, key, strict, m.priority) then
              && Offered(hs, c, d, FlowOf(m, now), m.emergency, g)
              && (InsertFails(hs, c, FlowOf(m, now), m.emergency) || Describes(g, m, now))
            else
              && (InTable(d, !m.emergency, h) <==> InTable(c, !m.emergency, h))
              && (InTable(d, m.emergency, h) <==> Rewritten(c, m.emergency, key, strict, m.priority, m.acts, h))
  {
    FlowOfIsProper(m, now);
    hide Ok, Gained, EmergencyGained, ExtractMatch, InTable, Modify, ModifyCount, InsertFails, Insert, Rewritten,
         NoneChosen, ModifySelector;
    ModifyTableIsExact(hs, c, FlowOf(m, now).key, strict, m.priority, m.acts, m.emergency, h);
    g := InsertOffers(hs, c, FlowOf(m, now), m.emergency);
  }

  // ----- deleting and expiring

  /** A delete command removes the chosen flows of its table that output to the port asked
      for, if one is. */
  lemma DelIsExact(hs: Hashes, c: Chain, pattern: Match, priority: nat, outPort: nat, strict: bool, emergency: bool,
                   now: nat, h: FlowEntry)
    requires Ok(hs, c)
    ensures var d, key := Step(hs, c, Del(pattern, priority, outPort, strict, emergency), now), ExtractMatch(pattern);
            && (InTable(d, !emergency, h) <==> InTable(c, !emergency, h))
            && (InTable(d, emergency, h) <==>
                InTable(c, emergency, h)
                && !(Chosen(h, key, strict, priority)
                     && (outPort == OFPP_NONE || exists i :: 0 <= i < |h.acts| && OutputsTo(h.acts[i], outPort))))
  {
    var key := ExtractMatch(pattern);
    assert Normal(key);
    NormalIsMasked(key);
    var sel := DeleteSelector(key, priority, outPort, strict);
    hide ExtractMatch;
    if emergency {
      L.RemoveKeeps(c.emergency, sel);
      assert forall f :: InWorking(Delete(hs, c, sel, true), f) <==> InWorking(c, f);
    } else {
      DeleteIsExact(hs, c, sel, h);
    }
  }

  /** Working flows go when they have not been used, or have existed, for longer than they
      may; emergency flows stay. */
  lemma ExpireIsExact(hs: Hashes, c: Chain, now: nat, f: FlowEntry)
    requires Ok(hs, c)
    ensures var d := Step(hs, c, Expire, now);
            && d.emergency == c.emergency
            && (InWorking(d, f) <==>
                InWorking(c, f) && (f.idleTimeout == 0 || now <= f.used + 100 * f.idleTimeout)
                                && (f.hardTimeout == 0 || now <= f.created + 100 * f.hardTimeout))
  {
    TimeoutIsExact(hs, c, now, f);
  }
}
