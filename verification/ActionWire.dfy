/** The wire form of action lists, and what validation says about any bytes. */
module ActionWire {
  import opened FlowKey
  import opened Flow
  import opened Actions

  /** An action that exists: its number, and arguments of the right length. */
  predicate Exists(a: Action) {
    match a
    case Output(port, maxLen) => port <= 0xffff && maxLen <= 0xffff
    case Edit(kind, args) =>
      && 1 <= kind <= 10 && |args| == (if kind == 4 || kind == 5 then 12 else 4)
      && forall i :: 0 <= i < |args| ==> args[i] < 256
  }

  /** An existing action that does not output to no port or to where the packet came from. */
  predicate Allowed(a: Action, key: Key) {
    && Exists(a)
    && (a.Output? ==> a.port != 0xffff && (key.wild.flags.inPort || a.port != key.fields.inPort))
  }

  predicate AllExist(acts: seq<Action>) { forall i :: 0 <= i < |acts| ==> Exists(acts[i]) }

  predicate AllAllowed(acts: seq<Action>, key: Key) { forall i :: 0 <= i < |acts| ==> Allowed(acts[i], key) }

  /** Type and length, then the arguments, all in network byte order. */
  function Bytewise(a: Action): seq<Byte>
    requires Exists(a)
  {
    match a
    case Output(port, maxLen) => [0, 0, 0, 8, port / 256, port % 256, maxLen / 256, maxLen % 256]
    case Edit(kind, args) => [0, kind, 0, |args| + 4] + seq(|args|, i requires 0 <= i < |args| => args[i])
  }

  function Render(acts: seq<Action>): seq<Byte>
    requires AllExist(acts)
  {
    if acts == [] then [] else Bytewise(acts[0]) + Render(acts[1..])
  }

  // ----- the round trips

  /** One action in front of any bytes. */
  lemma DecodeFirst(a: Action, b: seq<Byte>)
    requires Exists(a)
    ensures var c := Bytewise(a) + b;
      && |c| >= 8 && Type(c) <= 10 && Len(c) == SizeOf(Type(c)) == |Bytewise(a)| <= |c|
      && c[Len(c)..] == b && DecodeOne(c) == a && (a.Output? <==> Type(c) == 0)
  {
    var c := Bytewise(a) + b;
    if a.Edit? {
      assert c[4..Len(c)] == a.args;
    }
  }

  lemma {:induction false} DecodeRendered(acts: seq<Action>)
    requires AllExist(acts)
    ensures WellFormed(Render(acts)) && Decode(Render(acts)) == acts
  {
    hide DecodeOne, Bytewise;
    if acts != [] {
      DecodeFirst(acts[0], Render(acts[1..]));
      DecodeRendered(acts[1..]);
      assert acts == [acts[0]] + acts[1..];
    }
  }

  lemma RenderFirst(b: seq<Byte>)
    requires |b| >= 8 && Type(b) <= 10 && Len(b) == SizeOf(Type(b)) <= |b|
    ensures Exists(DecodeOne(b)) && Bytewise(DecodeOne(b)) == b[..Len(b)]
  {
    var a := DecodeOne(b);
    if a.Edit? {
      assert a.args == b[4..Len(b)];
    }
    assert forall i :: 0 <= i < Len(b) ==> Bytewise(a)[i] == b[i];
  }

  lemma {:induction false} RenderDecoded(b: seq<Byte>)
    requires WellFormed(b)
    ensures AllExist(Decode(b)) && Render(Decode(b)) == b
    decreases |b|
  {
    hide DecodeOne, Bytewise;
    if b != [] {
      RenderFirst(b);
      RenderDecoded(b[Len(b)..]);
      assert b == b[..Len(b)] + b[Len(b)..];
      assert Decode(b)[1..] == Decode(b[Len(b)..]);
    }
  }

  // ----- the verdict on any bytes

  lemma AllowedIsValid(a: Action, b: seq<Byte>, key: Key)
    requires Exists(a)
    ensures ValidateOne(Bytewise(a) + b, key) == (if Allowed(a, key) then 0xffff else 4)
  {
    DecodeFirst(a, b);
  }

  /** Allowed actions in front of any bytes do not change the verdict. */
  lemma {:induction false} AllowedAreSkipped(acts: seq<Action>, rest: seq<Byte>, key: Key)
    requires AllAllowed(acts, key)
    ensures AllExist(acts) && Validate(Render(acts) + rest, key) == Validate(rest, key)
    decreases |acts|
  {
    hide ValidateOne, Bytewise, DecodeOne;
    if acts == [] {
      assert Render(acts) + rest == rest;
    } else {
      var more := Render(acts[1..]) + rest;
      assert Render(acts) + rest == Bytewise(acts[0]) + more;
      DecodeFirst(acts[0], more);
      AllowedIsValid(acts[0], more, key);
      AllowedAreSkipped(acts[1..], rest, key);
    }
  }

  /** Bytes that are not empty and do not start with an allowed action. */
  ghost predicate Faulty(b: seq<Byte>, key: Key) {
    b != [] && forall a :: Allowed(a, key) ==> !(Bytewise(a) <= b)
  }

  lemma ValidIsAllowed(b: seq<Byte>, key: Key) returns (a: Action)
    requires |b| >= 8 && ValidateOne(b, key) == 0xffff
    ensures Allowed(a, key) && Bytewise(a) <= b
  {
    RenderFirst(b);
    a := DecodeOne(b);
    hide DecodeOne, Bytewise;
    assert b == Bytewise(a) + b[Len(b)..];
    AllowedIsValid(a, b[Len(b)..], key);
  }

  lemma FaultyMeans(b: seq<Byte>, key: Key)
    requires |b| >= 8
    ensures Faulty(b, key) <==> ValidateOne(b, key) != 0xffff
  {
    hide ValidateOne, Bytewise, Exists;
    if ValidateOne(b, key) == 0xffff {
      var a := ValidIsAllowed(b, key);
    }
    if a :| Allowed(a, key) && Bytewise(a) <= b {
      assert b == Bytewise(a) + b[|Bytewise(a)|..];
      AllowedIsValid(a, b[|Bytewise(a)|..], key);
    }
  }

  function Pair(x: Byte, y: Byte): nat {
    var hi: nat := x;
    var lo: nat := y;
    hi * 256 + lo
  }

  lemma RenderMore(a: Action, more: seq<Action>, rest: seq<Byte>)
    requires Exists(a) && AllExist(more)
    ensures AllExist([a] + more) && Render([a] + more) + rest == Bytewise(a) + (Render(more) + rest)
  {
    assert ([a] + more)[1..] == more;
  }

  /** Any bytes are allowed actions up to their end or their first fault. */
  lemma {:induction false} AnyBytes(b: seq<Byte>, key: Key) returns (acts: seq<Action>, rest: seq<Byte>)
    ensures AllAllowed(acts, key) && AllExist(acts) && b == Render(acts) + rest && (rest == [] || Faulty(rest, key))
    decreases |b|
  {
    if b == [] || Faulty(b, key) {
      acts, rest := [], b;
    } else {
      var a :| Allowed(a, key) && Bytewise(a) <= b;
      assert |Bytewise(a)| >= 8;
      var tail := b[|Bytewise(a)|..];
      assert b == Bytewise(a) + tail;
      hide Bytewise, Render, Exists, Faulty;
      var more;
      more, rest := AnyBytes(tail, key);
      RenderMore(a, more, rest);
      acts := [a] + more;
    }
  }

  /** The code of a fault, by the type and the length that the bytes announce. */
  predicate Diagnosed(code: nat, kind: nat, len: nat, size: nat) {
    var length := len <= size && len % 8 == 0
                  && (kind <= 10 ==> len == if kind == 4 || kind == 5 then 16 else 8)
                  && (kind == 0xffff ==> len > 0);
    && (code == 1 <==> !length)
    && (code == 0 <==> length && 11 <= kind < 0xffff)
    && (code == 2 <==> length && kind == 0xffff)
    && (code == 4 <==> length && kind <= 10)
    && (code == 4 ==> kind == 0)
  }

  lemma FaultIsDiagnosed(b: seq<Byte>, key: Key)
    requires |b| >= 8 && ValidateOne(b, key) != 0xffff
    ensures Diagnosed(Validate(b, key), Pair(b[0], b[1]), Pair(b[2], b[3]), |b|)
  {
  }

  /** The first fault decides: the length is wrong, the type or the vendor is unknown, or
      the output port is. */
  lemma FirstFaultDecides(acts: seq<Action>, rest: seq<Byte>, key: Key)
    requires AllAllowed(acts, key) && AllExist(acts) && (rest == [] || Faulty(rest, key))
    ensures var code := Validate(Render(acts) + rest, key);
      if rest == [] then code == 0xffff
      else if |rest| < 8 then code == 1
      else Diagnosed(code, Pair(rest[0], rest[1]), Pair(rest[2], rest[3]), |rest|)
  {
    AllowedAreSkipped(acts, rest, key);
    if |rest| >= 8 {
      hide Faulty, Diagnosed, ValidateOne, Validate, Render, Allowed;
      FaultyMeans(rest, key);
      FaultIsDiagnosed(rest, key);
    }
  }
}
