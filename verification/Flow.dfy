/** A flow entry of `datapath/flow.h` and the predicates that select entries. */
module Flow {
  import opened FlowKey

  const OFPP_NONE := 0xffff
  const OFP_FLOW_PERMANENT := 0
  const HZ := 100                  // clock ticks per second; no result depends on its value
  const EXACT_PRIORITY := 0xffff   // the priority of every wildcard-free entry

  /** One decoded action of an action list. */
  datatype Action = Output(port: nat, maxLen: nat) | Edit(kind: nat, args: seq<nat>)

  datatype FlowEntry = FlowEntry(
    key: Key, priority: nat, acts: seq<Action>, idleTimeout: nat, hardTimeout: nat,
    used: nat, created: nat, sendFlowRem: bool, emergency: bool, serial: nat)

  predicate OutputsTo(a: Action, port: nat) { a.Output? && a.port == port }

  /** `flow_has_out_port`: the list outputs to `port`, or any list when it is NONE. */
  predicate HasOutPort(acts: seq<Action>, port: nat) {
    port == OFPP_NONE || exists i :: 0 <= i < |acts| && OutputsTo(acts[i], port)
  }

  predicate TimedOut(f: FlowEntry, now: nat) {
    || (f.idleTimeout != OFP_FLOW_PERMANENT && now > f.used + f.idleTimeout * HZ)
    || (f.hardTimeout != OFP_FLOW_PERMANENT && now > f.created + f.hardTimeout * HZ)
  }

  /** Which entries a modify, delete or timeout pass applies to.  `byPriority` says
      whether a strict description also fixes the priority. */
  datatype Selector =
    | Described(key: Key, strict: bool, byPriority: bool, priority: nat, outPort: nat)
    | Elapsed(now: nat)

  predicate Selects(sel: Selector, f: FlowEntry) {
    match sel
    case Described(key, strict, byPriority, priority, outPort) =>
      && MatchesDesc(f.key, key, strict) && HasOutPort(f.acts, outPort)
      && (strict && byPriority ==> f.priority == priority)
    case Elapsed(now) => TimedOut(f, now)
  }

  /** What a modify command selects: any output port will do. */
  function ModifySelector(key: Key, priority: nat, strict: bool): Selector {
    Described(key, strict, true, priority, OFPP_NONE)
  }

  /** The entries not selected, in order. */
  function Unselected(s: seq<FlowEntry>, sel: Selector): (r: seq<FlowEntry>)
    ensures |r| <= |s|
    ensures forall f :: f in r <==> f in s && !Selects(sel, f)
  {
    if s == [] then []
    else
      var last := s[|s| - 1];
      var front := Unselected(s[..|s| - 1], sel);
      assert s == s[..|s| - 1] + [last];
      if Selects(sel, last) then front else front + [last]
  }

  function Reactioned(f: FlowEntry, sel: Selector, acts: seq<Action>): FlowEntry {
    if Selects(sel, f) then f.(acts := acts) else f
  }

  /** The selected entries with their actions replaced. */
  function Modified(s: seq<FlowEntry>, sel: Selector, acts: seq<Action>): (r: seq<FlowEntry>)
    ensures |r| == |s|
    ensures forall i :: 0 <= i < |s| ==> r[i] == Reactioned(s[i], sel, acts)
  {
    seq(|s|, i requires 0 <= i < |s| => Reactioned(s[i], sel, acts))
  }

  function CountSelected(s: seq<FlowEntry>, sel: Selector): nat { |s| - |Unselected(s, sel)| }

  /** `add_flow` gives wildcard-free flows the highest priority. */
  predicate Proper(f: FlowEntry) {
    && Masked(f.key) && f.priority <= EXACT_PRIORITY
    && (f.key.wild == EXACT ==> f.priority == EXACT_PRIORITY)
  }
}
