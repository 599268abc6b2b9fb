/** Action lists of `datapath/dp_act.c`: validation of the wire form, and an
    executor that holds each output back for one step to save a packet clone. */
module Actions {
  import opened Prelude
  import opened FlowKey
  import opened Flow

  type Byte = n: nat | n < 256

  const HEADER_LEN := 8            // sizeof(struct ofp_action_header)
  const N_ACTIONS := 11            // entries of the of_actions table
  const OFPAT_OUTPUT := 0
  const OFPAT_SET_DL_SRC := 4
  const OFPAT_SET_DL_DST := 5
  const OFPAT_VENDOR := 0xffff
  const OFPBAC_BAD_TYPE := 0
  const OFPBAC_BAD_LEN := 1
  const OFPBAC_BAD_VENDOR := 2
  const OFPBAC_BAD_OUT_PORT := 4
  const ACT_VALIDATION_OK := 0xffff

  function U16(b: seq<Byte>, i: nat): nat
    requires i + 2 <= |b|
  {
    var hi: nat := b[i];
    var lo: nat := b[i + 1];
    hi * 256 + lo
  }

  function Type(b: seq<Byte>): nat
    requires |b| >= HEADER_LEN
  {
    U16(b, 0)
  }

  function Len(b: seq<Byte>): nat
    requires |b| >= HEADER_LEN
  {
    U16(b, 2)
  }

  /** The size the of_actions table demands, both as minimum and as maximum. */
  function SizeOf(kind: nat): nat {
    if kind == OFPAT_SET_DL_SRC || kind == OFPAT_SET_DL_DST then 16 else 8
  }

  // ----- validation

  predicate BadOutPort(port: nat, key: Key) {
    port == OFPP_NONE || (!key.wild.flags.inPort && port == key.fields.inPort)
  }

  function ValidateOne(b: seq<Byte>, key: Key): nat
    requires |b| >= HEADER_LEN
  {
    var kind, len := Type(b), Len(b);
    if |b| < len || len % 8 != 0 then OFPBAC_BAD_LEN
    else if kind < N_ACTIONS then
      if len != SizeOf(kind) then OFPBAC_BAD_LEN
      else if kind == OFPAT_OUTPUT && BadOutPort(U16(b, 4), key) then OFPBAC_BAD_OUT_PORT
      else ACT_VALIDATION_OK
    else if kind == OFPAT_VENDOR then
      if len < HEADER_LEN then OFPBAC_BAD_LEN else OFPBAC_BAD_VENDOR
    else OFPBAC_BAD_TYPE
  }

  function Validate(b: seq<Byte>, key: Key): nat
    decreases |b|
  {
    if |b| < HEADER_LEN then if b == [] then ACT_VALIDATION_OK else OFPBAC_BAD_LEN
    else if ValidateOne(b, key) != ACT_VALIDATION_OK then ValidateOne(b, key)
    else Validate(b[Len(b)..], key)
  }

  method ValidateActions(b: seq<Byte>, key: Key) returns (code: nat)
    ensures code == Validate(b, key)
  {
    var p := b;
    while |p| >= HEADER_LEN
      invariant Validate(p, key) == Validate(b, key)
      decreases |p|
    {
      code := ValidateOne(p, key);
      if code != ACT_VALIDATION_OK {
        return;
      }
      p := p[Len(p)..];
    }
    return if p == [] then ACT_VALIDATION_OK else OFPBAC_BAD_LEN;
  }

  /** A byte string that is exactly a sequence of known actions. */
  predicate WellFormed(b: seq<Byte>)
    decreases |b|
  {
    b == [] ||
    (&& |b| >= HEADER_LEN && Type(b) < N_ACTIONS && Len(b) == SizeOf(Type(b)) <= |b|
     && WellFormed(b[Len(b)..]))
  }

  function DecodeOne(b: seq<Byte>): Action
    requires |b| >= HEADER_LEN && Len(b) <= |b|
  {
    if Type(b) == OFPAT_OUTPUT then Output(U16(b, 4), U16(b, 6))
    else Edit(Type(b), if Len(b) >= 4 then b[4..Len(b)] else [])
  }

  function Decode(b: seq<Byte>): seq<Action>
    requires WellFormed(b)
    decreases |b|
  {
    if b == [] then [] else [DecodeOne(b)] + Decode(b[Len(b)..])
  }

  /** Exactly the well-formed lists without a forbidden output port are accepted. */
  lemma {:induction false} AcceptedMeansWellFormed(b: seq<Byte>, key: Key)
    ensures Validate(b, key) == ACT_VALIDATION_OK <==>
              WellFormed(b) && forall a :: a in Decode(b) && a.Output? ==> !BadOutPort(a.port, key)
    decreases |b|
  {
    if |b| >= HEADER_LEN {
      if ValidateOne(b, key) == ACT_VALIDATION_OK {
        AcceptedMeansWellFormed(b[Len(b)..], key);
        assert WellFormed(b) ==> Decode(b) == [DecodeOne(b)] + Decode(b[Len(b)..]);
      } else if WellFormed(b) {
        assert Decode(b)[0] == Output(U16(b, 4), U16(b, 6));
      }
    }
  }

  // ----- searching for an output port

  /** `flow_has_out_port` walks the bytes of a validated list. */
  method FlowHasOutPort(b: seq<Byte>, port: nat) returns (r: bool)
    requires WellFormed(b)
    ensures r == HasOutPort(Decode(b), port)
  {
    if port == OFPP_NONE {
      return true;
    }
    var p := b;
    while |p| > 0
      invariant WellFormed(p) && (HasOutPort(Decode(p), port) <==> HasOutPort(Decode(b), port))
      decreases |p|
    {
      if Type(p) == OFPAT_OUTPUT && U16(p, 4) == port {
        assert OutputsTo(Decode(p)[0], port);
        return true;
      }
      OutPortTail(p, port);
      p := p[Len(p)..];
    }
    return false;
  }

  lemma OutPortTail(p: seq<Byte>, port: nat)
    requires WellFormed(p) && p != [] && port != OFPP_NONE && !OutputsTo(DecodeOne(p), port)
    ensures HasOutPort(Decode(p), port) <==> HasOutPort(Decode(p[Len(p)..]), port)
  {
    var rest := Decode(p[Len(p)..]);
    var all := Decode(p);
    assert all == [DecodeOne(p)] + rest;
    if i :| 0 <= i < |rest| && OutputsTo(rest[i], port) {
      assert OutputsTo(all[i + 1], port);
    }
  }

  // ----- execution

  /** A packet being processed: its contents and the key the actions keep in step. */
  datatype World<P> = World(packet: P, key: Key)

  /** What an editing action does: the new packet and key, or nothing if the packet
      is lost. */
  type Editor<!P> = (World<P>, Action) -> Option<World<P>>

  datatype Emission<P> = Emission(packet: P, port: nat, maxLen: nat)

  /** The obvious interpreter: output a copy at each output action. */
  datatype Outcome<P> = Outcome(sent: seq<Emission<P>>, world: Option<World<P>>)

  function Immediate<P>(edit: Editor<P>, w: World<P>, acts: seq<Action>): Outcome<P>
    decreases |acts|
  {
    if acts == [] then Outcome([], Some(w))
    else if acts[0].Output? then
      var rest := Immediate(edit, w, acts[1..]);
      Outcome([Emission(w.packet, acts[0].port, acts[0].maxLen)] + rest.sent, rest.world)
    else if edit(w, acts[0]).None? then Outcome([], None)
    else Immediate(edit, edit(w, acts[0]).value, acts[1..])
  }

  /** What became of the original packet buffer. */
  datatype Fate = Transmitted | Freed | Lost

  function Pending<P>(w: World<P>, prevPort: int, maxLen: nat): seq<Emission<P>> {
    if prevPort < 0 then [] else [Emission(w.packet, prevPort, maxLen)]
  }

  /** `execute_actions`.  It emits what the obvious interpreter emits, consumes the
      original packet exactly once, and clones one packet fewer than there are
      outputs when the list ends with an output. */
  method ExecuteActions<P>(edit: Editor<P>, b: seq<Byte>, world: World<P>)
    returns (sent: seq<Emission<P>>, fate: Fate, clones: nat)
    requires WellFormed(b)
    ensures var acts := Decode(b);
            var out := Immediate(edit, world, acts);
            && sent == out.sent
            && (fate == Lost <==> out.world.None?)
            && (fate == Transmitted <==> out.world.Some? && acts != [] && acts[|acts| - 1].Output?)
            && clones + (if fate == Transmitted then 1 else 0) == |sent|
  {
    hide WellFormed, Decode, Immediate, DecodeOne, U16, Type;
    ghost var goal := Immediate(edit, world, Decode(b));
    var w := world;
    var prevPort: int := -1;
    var maxLen: nat := 0xffff;
    var p := b;
    ghost var done: seq<Action> := [];
    sent, clones := [], 0;
    while |p| > 0
      invariant WellFormed(p) && Decode(b) == done + Decode(p)
      invariant prevPort >= -1 && (prevPort >= 0 <==> done != [] && done[|done| - 1].Output?)
      invariant |sent| == clones
      invariant sent + Pending(w, prevPort, maxLen) + Immediate(edit, w, Decode(p)).sent == goal.sent
      invariant Immediate(edit, w, Decode(p)).world == goal.world
      decreases |p|
    {
      DecodeStep(p);
      OutputFirst(p);
      ImmediateStep(edit, w, DecodeOne(p), Decode(p[Len(p)..]));
      if prevPort != -1 {
        clones := clones + 1;
      }
      sent := sent + Pending(w, prevPort, maxLen);
      prevPort := -1;
      assert sent + Immediate(edit, w, Decode(p)).sent == goal.sent;
      done := done + [DecodeOne(p)];
      if Type(p) == OFPAT_OUTPUT {
        prevPort := U16(p, 4);
        maxLen := U16(p, 6);
        Regroup(sent, Pending(w, prevPort, maxLen), Immediate(edit, w, Decode(p[Len(p)..])).sent);
      } else {
        var r := edit(w, DecodeOne(p));
        if r.None? {
          return sent, Lost, clones;
        }
        w := r.value;
        assert sent + Pending(w, prevPort, maxLen) == sent;
      }
      p := p[Len(p)..];
    }
    ImmediateNone(edit, w, p);
    sent := sent + Pending(w, prevPort, maxLen);
    fate := if prevPort != -1 then Transmitted else Freed;
  }

  lemma Regroup<T>(a: seq<T>, b: seq<T>, c: seq<T>)
    ensures a + (b + c) == a + b + c
  {
  }

  lemma OutputFirst(p: seq<Byte>)
    requires |p| >= HEADER_LEN && Len(p) <= |p|
    ensures Type(p) == OFPAT_OUTPUT ==> DecodeOne(p) == Output(U16(p, 4), U16(p, 6))
    ensures Type(p) != OFPAT_OUTPUT ==> DecodeOne(p).Edit?
  {
  }

  lemma DecodeStep(p: seq<Byte>)
    requires WellFormed(p) && p != []
    ensures HEADER_LEN <= Len(p) <= |p| && WellFormed(p[Len(p)..])
    ensures Decode(p) == [DecodeOne(p)] + Decode(p[Len(p)..])
  {
  }

  lemma ImmediateStep<P>(edit: Editor<P>, w: World<P>, act: Action, rest: seq<Action>)
    ensures var out := Immediate(edit, w, [act] + rest);
            if act.Output? then
              && out.sent == [Emission(w.packet, act.port, act.maxLen)] + Immediate(edit, w, rest).sent
              && out.world == Immediate(edit, w, rest).world
            else if edit(w, act).None? then out == Outcome([], None)
            else out == Immediate(edit, edit(w, act).value, rest)
  {
    assert ([act] + rest)[1..] == rest;
  }

  lemma ImmediateNone<P>(edit: Editor<P>, w: World<P>, p: seq<Byte>)
    requires p == []
    ensures WellFormed(p) && Decode(p) == [] && Immediate(edit, w, []) == Outcome([], Some(w))
  {
  }
}
