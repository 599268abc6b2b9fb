/** The option codec of `lib/dhcp.c`: option values of any length, split into
    chunks of at most 255 bytes and concatenated again by code (section 4.1 of
    RFC 2131, section 2 of RFC 2132). */
module DhcpCodec {
  import opened Prelude

  type Byte = n: nat | n < 256
  type Bytes = seq<Byte>

  const DHCP_CODE_PAD := 0
  const DHCP_CODE_END := 255
  const DHCP_CODE_VENDOR_SPECIFIC := 43
  const DHCP_CODE_DHCP_MSG_TYPE := 53
  const DHCP_N_OPTIONS := 512
  const DHCP_VENDOR_OFS := 256

  type Values = s: seq<Option<Bytes>> | |s| == DHCP_N_OPTIONS
    witness seq(DHCP_N_OPTIONS, i => None)

  /** The options of a message.  `live` says whether the message has an arena: until
      then an option that is present but empty cannot be told from an absent one. */
  datatype Options = Options(live: bool, values: Values)

  function NoOptions(): Options { Options(false, seq(DHCP_N_OPTIONS, i => None)) }

  // ----- collecting options

  function BytesOf(v: Option<Bytes>): Bytes { if v.Some? then v.value else [] }

  /** `dhcp_msg_put`: append to the option with this code. */
  function Put(m: Options, code: nat, data: Bytes): Options
    requires code < DHCP_N_OPTIONS
  {
    if code == DHCP_CODE_PAD || code == DHCP_CODE_END then m
    else if !m.live && data == [] && BytesOf(m.values[code]) == [] then m
    else Options(true, m.values[code := Some(BytesOf(m.values[code]) + data)])
  }

  function Code(b: Bytes): nat
    requires b != []
  {
    b[0]
  }

  function Length(b: Bytes): nat
    requires |b| >= 2
  {
    b[1]
  }

  /** `parse_options`: stops at END, at a truncated option, or at the end. */
  function Parse(m: Options, b: Bytes, ofs: nat): Options
    requires ofs == 0 || ofs == DHCP_VENDOR_OFS
    decreases |b|
  {
    if b == [] || b[0] == DHCP_CODE_END then m
    else if b[0] == DHCP_CODE_PAD then Parse(m, b[1..], ofs)
    else if |b| < 2 || |b| < 2 + Length(b) then m
    else Parse(Put(m, Code(b) + ofs, b[2..2 + Length(b)]), b[2 + Length(b)..], ofs)
  }

  // ----- emitting options

  function Chunk(code: Byte, data: Bytes): Bytes
    requires |data| < 256
  {
    [code, |data|] + data
  }

  /** Long values: chunks of 248 bytes, and a last one of up to 255. */
  function Chunks(code: Byte, data: Bytes): Bytes
    decreases |data|
  {
    if data == [] then []
    else if |data| > 255 then Chunk(code, data[..248]) + Chunks(code, data[248..])
    else Chunk(code, data)
  }

  function PutOption(code: Byte, v: Option<Bytes>): Bytes {
    if v.None? then [] else if v.value == [] then Chunk(code, []) else Chunks(code, v.value)
  }

  /** The options from `lo` up to `hi`, numbered from `ofs`. */
  function Range(values: Values, lo: nat, hi: nat, ofs: nat): Bytes
    requires ofs <= lo <= hi <= ofs + 256 && hi <= DHCP_N_OPTIONS
    decreases |values|, hi - lo
  {
    if lo == hi then [] else PutOption(lo - ofs, values[lo]) + Range(values, lo + 1, hi, ofs)
  }

  function VendorData(values: Values): Bytes {
    Range(values, DHCP_VENDOR_OFS, DHCP_N_OPTIONS, DHCP_VENDOR_OFS)
  }

  /** The option part of `dhcp_assemble`: message type, standard options, vendor
      options wrapped into one option, end marker. */
  function Assemble(msgType: Byte, values: Values): Bytes {
    (if msgType == 0 then [] else Chunks(DHCP_CODE_DHCP_MSG_TYPE, [msgType]))
    + Range(values, 0, DHCP_VENDOR_OFS, 0)
    + Chunks(DHCP_CODE_VENDOR_SPECIFIC, VendorData(values))
    + [DHCP_CODE_END]
  }

  // ----- one option

  lemma PutTwice(m: Options, code: nat, d: Bytes, e: Bytes)
    requires code < DHCP_N_OPTIONS && d != []
    ensures Put(Put(m, code, d), code, e) == Put(m, code, d + e)
  {
    assert BytesOf(m.values[code]) + d + e == BytesOf(m.values[code]) + (d + e);
  }

  lemma PutFresh(m: Options, code: nat, d: Bytes)
    requires code < DHCP_N_OPTIONS && code != DHCP_CODE_PAD && code != DHCP_CODE_END
    requires m.values[code].None? && (m.live || d != [])
    ensures Put(m, code, d) == Options(true, m.values[code := Some(d)])
  {
    assert [] + d == d;
  }

  predicate Usable(code: nat) { code != DHCP_CODE_PAD && code < DHCP_CODE_END }

  lemma ParseChunk(m: Options, code: Byte, data: Bytes, rest: Bytes, ofs: nat)
    requires Usable(code) && |data| < 256 && (ofs == 0 || ofs == DHCP_VENDOR_OFS)
    ensures Parse(m, Chunk(code, data) + rest, ofs) == Parse(Put(m, code + ofs, data), rest, ofs)
  {
    var b := Chunk(code, data) + rest;
    assert b[0] == code && b[1] == |data|;
    assert b[2..2 + Length(b)] == data && b[2 + Length(b)..] == rest;
  }

  /** However a value is chunked, parsing appends the whole of it. */
  lemma {:induction false} ParseChunks(m: Options, code: Byte, data: Bytes, rest: Bytes, ofs: nat)
    requires Usable(code) && data != [] && (ofs == 0 || ofs == DHCP_VENDOR_OFS)
    ensures Parse(m, Chunks(code, data) + rest, ofs) == Parse(Put(m, code + ofs, data), rest, ofs)
    decreases |data|
  {
    if |data| > 255 {
      var first, later := data[..248], data[248..];
      assert Chunks(code, data) + rest == Chunk(code, first) + (Chunks(code, later) + rest);
      ParseChunk(m, code, first, Chunks(code, later) + rest, ofs);
      ParseChunks(Put(m, code + ofs, first), code, later, rest, ofs);
      PutTwice(m, code + ofs, first, later);
      assert first + later == data;
    } else {
      ParseChunk(m, code, data, rest, ofs);
    }
  }

  function PutValue(m: Options, code: nat, v: Option<Bytes>): Options
    requires code < DHCP_N_OPTIONS
  {
    if v.None? then m else Put(m, code, v.value)
  }

  lemma ParseOption(m: Options, code: Byte, v: Option<Bytes>, rest: Bytes, ofs: nat)
    requires (Usable(code) || v.None?) && (ofs == 0 || ofs == DHCP_VENDOR_OFS)
    ensures Parse(m, PutOption(code, v) + rest, ofs) == Parse(PutValue(m, code + ofs, v), rest, ofs)
  {
    if v.None? {
      assert PutOption(code, v) + rest == rest;
    } else if v.value == [] {
      ParseChunk(m, code, [], rest, ofs);
    } else {
      ParseChunks(m, code, v.value, rest, ofs);
    }
  }

  // ----- ranges of options

  function PutAll(m: Options, values: Values, lo: nat, hi: nat): Options
    requires lo <= hi <= DHCP_N_OPTIONS
    decreases |values|, hi - lo
  {
    if lo == hi then m else PutAll(PutValue(m, lo, values[lo]), values, lo + 1, hi)
  }

  /** No value sits at a code that means PAD or END, in either half. */
  predicate Encodable(values: Values) {
    && values[DHCP_CODE_PAD].None? && values[DHCP_CODE_END].None?
    && values[DHCP_VENDOR_OFS + DHCP_CODE_PAD].None? && values[DHCP_VENDOR_OFS + DHCP_CODE_END].None?
  }

  lemma {:induction false} ParseRange(m: Options, values: Values, lo: nat, hi: nat, ofs: nat, rest: Bytes)
    requires (ofs == 0 || ofs == DHCP_VENDOR_OFS) && ofs <= lo <= hi <= ofs + 256 && Encodable(values)
    ensures Parse(m, Range(values, lo, hi, ofs) + rest, ofs)
            == Parse(PutAll(m, values, lo, hi), rest, ofs)
    decreases hi - lo
  {
    hide Parse, PutOption;
    if lo == hi {
      assert Range(values, lo, hi, ofs) + rest == rest;
    } else {
      var tail := Range(values, lo + 1, hi, ofs) + rest;
      assert Range(values, lo, hi, ofs) + rest == PutOption(lo - ofs, values[lo]) + tail;
      ParseOption(m, lo - ofs, values[lo], tail, ofs);
      ParseRange(PutValue(m, lo, values[lo]), values, lo + 1, hi, ofs, rest);
    }
  }

  function Joined(v: Option<Bytes>, w: Option<Bytes>): Option<Bytes> {
    if w.None? then v else Some(BytesOf(v) + w.value)
  }

  lemma JoinedToNone(w: Option<Bytes>)
    ensures Joined(None, w) == w
  {
    if w.Some? {
      assert [] + w.value == w.value;
    }
  }

  /** On a live message, putting a range of options joins them code by code. */
  lemma {:induction false} PutAllJoins(m: Options, values: Values, lo: nat, hi: nat)
    requires m.live && lo <= hi <= DHCP_N_OPTIONS && Encodable(values)
    ensures var r := PutAll(m, values, lo, hi);
            r.live && forall i :: 0 <= i < DHCP_N_OPTIONS ==>
              r.values[i] == if lo <= i < hi then Joined(m.values[i], values[i]) else m.values[i]
    decreases hi - lo
  {
    if lo < hi {
      PutAllJoins(PutValue(m, lo, values[lo]), values, lo + 1, hi);
    }
  }

  // ----- the round trip

  /** The message type and the wrapped vendor options as ordinary values. */
  function Wire(msgType: Byte, values: Values): Values {
    var vendor := VendorData(values);
    values[DHCP_CODE_DHCP_MSG_TYPE := Some([msgType])]
          [DHCP_CODE_VENDOR_SPECIFIC := if vendor == [] then None else Some(vendor)]
  }

  predicate Composable(values: Values) {
    && Encodable(values) && values[DHCP_CODE_DHCP_MSG_TYPE].None?
    && values[DHCP_CODE_VENDOR_SPECIFIC].None?
  }

  lemma NoChunks(code: Byte)
    ensures Chunks(code, []) == []
  {
  }

  /** Assembling the options of a typed message and parsing them back yields every
      standard option with its exact value, present-but-empty ones included, and the
      vendor options as the bytes of option 43. */
  lemma StandardRoundTrip(msgType: Byte, values: Values)
    requires msgType != 0 && Composable(values)
    ensures var r := Parse(NoOptions(), Assemble(msgType, values), 0);
            r.live && forall i :: 0 <= i < DHCP_N_OPTIONS ==>
              r.values[i] == if i < DHCP_VENDOR_OFS then Wire(msgType, values)[i] else None
  {
    hide Range, PutAll, Chunks;
    var vendor := VendorData(values);
    var tail := Chunks(DHCP_CODE_VENDOR_SPECIFIC, vendor) + [DHCP_CODE_END];
    var middle := Range(values, 0, DHCP_VENDOR_OFS, 0) + tail;
    assert Assemble(msgType, values) == Chunks(DHCP_CODE_DHCP_MSG_TYPE, [msgType]) + middle;
    ParseChunks(NoOptions(), DHCP_CODE_DHCP_MSG_TYPE, [msgType], middle, 0);
    var m := Put(NoOptions(), DHCP_CODE_DHCP_MSG_TYPE, [msgType]);
    PutFresh(NoOptions(), DHCP_CODE_DHCP_MSG_TYPE, [msgType]);
    ParseRange(m, values, 0, DHCP_VENDOR_OFS, 0, tail);
    PutAllJoins(m, values, 0, DHCP_VENDOR_OFS);
    var n := PutAll(m, values, 0, DHCP_VENDOR_OFS);
    forall i | 0 <= i < DHCP_VENDOR_OFS ensures Joined(None, values[i]) == values[i] {
      JoinedToNone(values[i]);
    }
    if vendor == [] {
      NoChunks(DHCP_CODE_VENDOR_SPECIFIC);
      assert tail == [DHCP_CODE_END];
      assert Parse(NoOptions(), Assemble(msgType, values), 0) == n;
    } else {
      ParseChunks(n, DHCP_CODE_VENDOR_SPECIFIC, vendor, [DHCP_CODE_END], 0);
      PutFresh(n, DHCP_CODE_VENDOR_SPECIFIC, vendor);
    }
  }

  /** Parsing the vendor option of the received message then restores the vendor
      options too.  This is what the codec means; `dhcp_parse` attains it exactly on
      the messages that module `DhcpRoom` calls receivable. */
  lemma VendorRoundTrip(msgType: Byte, values: Values)
    requires msgType != 0 && Composable(values)
    ensures var r := Parse(NoOptions(), Assemble(msgType, values), 0);
            Parse(r, BytesOf(r.values[DHCP_CODE_VENDOR_SPECIFIC]), DHCP_VENDOR_OFS)
            == Options(true, Wire(msgType, values))
  {
    hide Range, PutAll, Chunks, Assemble;
    StandardRoundTrip(msgType, values);
    var r := Parse(NoOptions(), Assemble(msgType, values), 0);
    var vendor := VendorData(values);
    assert BytesOf(r.values[DHCP_CODE_VENDOR_SPECIFIC]) == vendor;
    assert vendor + [] == vendor;
    ParseRange(r, values, DHCP_VENDOR_OFS, DHCP_N_OPTIONS, DHCP_VENDOR_OFS, []);
    PutAllJoins(r, values, DHCP_VENDOR_OFS, DHCP_N_OPTIONS);
    forall i | 0 <= i < DHCP_N_OPTIONS ensures Joined(None, values[i]) == values[i] {
      JoinedToNone(values[i]);
    }
    assert PutAll(r, values, DHCP_VENDOR_OFS, DHCP_N_OPTIONS).values == Wire(msgType, values);
  }

  // ----- options without a message type in front

  /** An empty option with nothing but empty or absent options before it. */
  predicate LeadingEmpty(values: Values, i: nat)
    requires i < DHCP_N_OPTIONS
  {
    values[i] == Some([]) && forall j :: 0 <= j < i ==> BytesOf(values[j]) == []
  }

  lemma {:induction false} PutAllFromNothing(m: Options, values: Values, lo: nat, hi: nat)
    requires lo <= hi <= DHCP_N_OPTIONS && Encodable(values) && m == NoOptions()
    requires forall j :: 0 <= j < lo ==> BytesOf(values[j]) == []
    ensures var r := PutAll(m, values, lo, hi);
            forall i :: 0 <= i < DHCP_N_OPTIONS ==>
              r.values[i] == if lo <= i < hi && !LeadingEmpty(values, i) then values[i] else None
    decreases hi - lo
  {
    if lo < hi {
      if BytesOf(values[lo]) == [] {
        PutAllFromNothing(m, values, lo + 1, hi);
      } else {
        PutFresh(m, lo, values[lo].value);
        PutAllJoins(PutValue(m, lo, values[lo]), values, lo + 1, hi);
        forall i | lo < i < hi ensures Joined(None, values[i]) == values[i] {
          JoinedToNone(values[i]);
        }
      }
    }
  }

  /** A bare list of standard options comes back exactly, except that empty options
      before the first non-empty one are lost; so it comes back unchanged exactly
      when there are none of those. */
  lemma BareRoundTrip(values: Values)
    requires Encodable(values)
    requires forall i :: DHCP_VENDOR_OFS <= i < DHCP_N_OPTIONS ==> values[i].None?
    ensures var r := Parse(NoOptions(), Range(values, 0, DHCP_VENDOR_OFS, 0) + [DHCP_CODE_END], 0);
            && (forall i :: 0 <= i < DHCP_N_OPTIONS ==>
                  r.values[i] == if LeadingEmpty(values, i) then None else values[i])
            && (r.values == values <==> forall i :: 0 <= i < DHCP_N_OPTIONS ==> !LeadingEmpty(values, i))
  {
    hide Range, PutAll;
    ParseRange(NoOptions(), values, 0, DHCP_VENDOR_OFS, 0, [DHCP_CODE_END]);
    PutAllFromNothing(NoOptions(), values, 0, DHCP_VENDOR_OFS);
    var r := PutAll(NoOptions(), values, 0, DHCP_VENDOR_OFS);
    assert Parse(r, [DHCP_CODE_END], 0) == r;
    if forall i :: 0 <= i < DHCP_N_OPTIONS ==> !LeadingEmpty(values, i) {
      assert r.values == values;
    }
  }

  /** Such a list: an empty host name, a vendor class, and no message type. */
  lemma LeadingEmptyIsLost(name: Bytes) returns (values: Values)
    requires name != []
    ensures Encodable(values) && values[12] == Some([]) && values[60] == Some(name)
    ensures var r := Parse(NoOptions(), Range(values, 0, DHCP_VENDOR_OFS, 0) + [DHCP_CODE_END], 0);
            r.values[12].None? && r.values[60] == Some(name) && r.values != values
  {
    values := NoOptions().values[12 := Some([])][60 := Some(name)];
    BareRoundTrip(values);
    assert LeadingEmpty(values, 12) && !LeadingEmpty(values, 60);
  }

  // ----- the loops

  /** `put_option`, appending to a buffer. */
  method EmitOption(b: Bytes, code: Byte, v: Option<Bytes>) returns (r: Bytes)
    ensures r == b + PutOption(code, v)
  {
    r := b;
    if v.Some? {
      if v.value == [] {
        r := r + [code, 0];
      } else {
        var p := v.value;
        while |p| > 0
          invariant r + Chunks(code, p) == b + Chunks(code, v.value)
          decreases |p|
        {
          var n: nat := if |p| > 255 then 248 else |p|;
          ghost var before := r;
          r := r + [code, n] + p[..n];
          assert r == before + Chunk(code, p[..n]);
          assert p[..n] == p || |p| > 255;
          p := p[n..];
        }
      }
    }
  }

  method EmitRange(b: Bytes, values: Values, lo: nat, hi: nat, ofs: nat) returns (r: Bytes)
    requires ofs <= lo <= hi <= ofs + 256 && hi <= DHCP_N_OPTIONS
    ensures r == b + Range(values, lo, hi, ofs)
  {
    hide PutOption;
    r := b;
    for i := lo to hi
      invariant r + Range(values, i, hi, ofs) == b + Range(values, lo, hi, ofs)
    {
      ghost var before := r;
      r := EmitOption(r, i - ofs, values[i]);
      assert before + (PutOption(i - ofs, values[i]) + Range(values, i + 1, hi, ofs))
             == r + Range(values, i + 1, hi, ofs);
    }
  }

  /** The option part of `dhcp_assemble`. */
  method EmitMessage(msgType: Byte, values: Values) returns (r: Bytes)
    ensures r == Assemble(msgType, values)
  {
    r := [];
    if msgType != 0 {
      r := EmitOption(r, DHCP_CODE_DHCP_MSG_TYPE, Some([msgType]));
    }
    ghost var head := if msgType == 0 then [] else Chunks(DHCP_CODE_DHCP_MSG_TYPE, [msgType]);
    assert r == head;
    r := EmitRange(r, values, 0, DHCP_VENDOR_OFS, 0);
    var vendor := EmitRange([], values, DHCP_VENDOR_OFS, DHCP_N_OPTIONS, DHCP_VENDOR_OFS);
    assert vendor == VendorData(values);
    NoChunks(DHCP_CODE_VENDOR_SPECIFIC);
    if vendor != [] {
      r := EmitOption(r, DHCP_CODE_VENDOR_SPECIFIC, Some(vendor));
    }
    assert r == head + Range(values, 0, DHCP_VENDOR_OFS, 0) + Chunks(DHCP_CODE_VENDOR_SPECIFIC, vendor);
    r := r + [DHCP_CODE_END];
  }
}
