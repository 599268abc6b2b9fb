/** When the option arena of `lib/dhcp.c` is replaced. */
module DhcpRoom {
  import opened Prelude
  import opened DhcpCodec

  // `dhcp_parse` parses the vendor options out of the arena that it puts them into.
  // A put that does not fit replaces the arena and frees the old one, and the bytes
  // still to be parsed with it.  Whether that happens depends on lengths and offsets
  // only, which this module follows through a whole message.

  /** Where the bytes of an option are. */
  datatype Region = Absent | Region(ofs: nat, n: nat)

  type Regions = s: seq<Region> | |s| == DHCP_N_OPTIONS witness seq(DHCP_N_OPTIONS, i => Absent)

  /** The arena without its bytes; `live` says that there is a buffer. */
  datatype Room = Room(live: bool, used: nat, capacity: nat, regions: Regions)

  function NoRoom(): Room { Room(false, 0, 0, seq(DHCP_N_OPTIONS, i => Absent)) }

  function Size(r: Region): nat { if r.Absent? then 0 else r.n }

  function Total(s: seq<Region>): nat {
    if s == [] then 0 else Total(s[..|s| - 1]) + Size(s[|s| - 1])
  }

  /** `copy_data`: the options end to end, in the order of their codes. */
  function Packed(s: seq<Region>): (r: seq<Region>)
    ensures |r| == |s|
  {
    seq(|s|, c requires 0 <= c < |s| => if s[c].Absent? then Absent else Region(Total(s[..c]), s[c].n))
  }

  /** The put needs more than is left. */
  predicate Exceeds(room: Room, code: nat, k: nat)
    requires code < DHCP_N_OPTIONS
  {
    room.used + Size(room.regions[code]) + k > room.capacity
  }

  /** `prealloc_data`. */
  function Reserved(room: Room, n: nat): Room {
    var needed := room.used + n;
    if needed <= room.capacity then room
    else Room(true, Total(room.regions), if needed * 2 > 64 then needed * 2 else 64, Packed(room.regions))
  }

  /** The rest of `dhcp_msg_put`: extend the last option in place, move any other. */
  function Grown(room: Room, code: nat, k: nat): Room
    requires code < DHCP_N_OPTIONS
  {
    var r := room.regions[code];
    var n := Size(r);
    var ofs := if n > 0 && r.ofs + n == room.used then r.ofs else room.used;
    room.(used := ofs + n + k, regions := room.regions[code := Region(ofs, n + k)])
  }

  function PutRoom(room: Room, code: nat, k: nat): Room
    requires code < DHCP_N_OPTIONS
  {
    if code == DHCP_CODE_PAD || code == DHCP_CODE_END then room
    else
      var r := Reserved(room, Size(room.regions[code]) + k);
      if r.live then Grown(r, code, k) else r
  }

  /** `parse_options`, from memory that no put can free. */
  function ParseRoom(room: Room, b: Bytes, ofs: nat): Room
    requires ofs == 0 || ofs == DHCP_VENDOR_OFS
    decreases |b|
  {
    if b == [] || b[0] == DHCP_CODE_END then room
    else if b[0] == DHCP_CODE_PAD then ParseRoom(room, b[1..], ofs)
    else if |b| < 2 || |b| < 2 + Length(b) then room
    else ParseRoom(PutRoom(room, Code(b) + ofs, Length(b)), b[2 + Length(b)..], ofs)
  }

  /** `parse_options` on vendor options that lie in the arena itself reads no byte of
      a buffer that was freed: no put exceeds the arena, unless it is the very last
      thing read and has no payload to copy. */
  predicate ReadsLive(room: Room, b: Bytes)
    decreases |b|
  {
    if b == [] || b[0] == DHCP_CODE_END then true
    else if b[0] == DHCP_CODE_PAD then ReadsLive(room, b[1..])
    else if |b| < 2 || |b| < 2 + Length(b) then true
    else if Exceeds(room, Code(b) + DHCP_VENDOR_OFS, Length(b)) then |b| == 2
    else ReadsLive(PutRoom(room, Code(b) + DHCP_VENDOR_OFS, Length(b)), b[2 + Length(b)..])
  }

  lemma VendorNothing(m: Options, room: Room)
    ensures Parse(m, [], DHCP_VENDOR_OFS) == m && ReadsLive(room, [])
  {
  }

  /** One turn of the loop of `parse_options` over vendor options. */
  lemma VendorTurn(m: Options, room: Room, b: Bytes)
    requires b != []
    ensures b[0] == DHCP_CODE_END || (b[0] != DHCP_CODE_PAD && (|b| < 2 || |b| < 2 + Length(b))) ==>
              Parse(m, b, DHCP_VENDOR_OFS) == m && ReadsLive(room, b)
    ensures b[0] == DHCP_CODE_PAD ==>
              && Parse(m, b, DHCP_VENDOR_OFS) == Parse(m, b[1..], DHCP_VENDOR_OFS)
              && (ReadsLive(room, b) <==> ReadsLive(room, b[1..]))
    ensures Usable(b[0]) && |b| >= 2 && |b| >= 2 + Length(b) ==>
              var n, code := Length(b), Code(b) + DHCP_VENDOR_OFS;
              && Parse(m, b, DHCP_VENDOR_OFS) == Parse(Put(m, code, b[2..2 + n]), b[2 + n..], DHCP_VENDOR_OFS)
              && (ReadsLive(room, b) <==> if Exceeds(room, code, n) then |b| == 2
                                          else ReadsLive(PutRoom(room, code, n), b[2 + n..]))
  {
  }

  const DHCP_CODE_VENDOR_CLASS := 60

  /** The characters of "OpenFlow". */
  const OPENFLOW: Bytes := [79, 112, 101, 110, 70, 108, 111, 119]

  /** The option holds the string "OpenFlow", as far as its first null character. */
  predicate IsOpenFlow(v: Option<Bytes>) {
    v.Some? && OPENFLOW <= v.value && (|v.value| > |OPENFLOW| ==> v.value[|OPENFLOW|] == 0)
  }

  /** What `dhcp_parse` makes of the options of a message: the standard options and,
      from an OpenFlow peer, the vendor options wrapped in one of them. */
  function Received(b: Bytes): Options {
    var m := Parse(NoOptions(), b, 0);
    if IsOpenFlow(m.values[DHCP_CODE_VENDOR_CLASS])
    then Parse(m, BytesOf(m.values[DHCP_CODE_VENDOR_SPECIFIC]), DHCP_VENDOR_OFS) else m
  }

  /** The message can be received without reading freed memory. */
  predicate Receivable(b: Bytes) {
    var m := Parse(NoOptions(), b, 0);
    IsOpenFlow(m.values[DHCP_CODE_VENDOR_CLASS])
    ==> ReadsLive(ParseRoom(NoRoom(), b, 0), BytesOf(m.values[DHCP_CODE_VENDOR_SPECIFIC]))
  }

  /** The complete message of an OpenFlow peer comes back, if it is received at all. */
  lemma MessageRoundTrip(msgType: Byte, values: Values)
    requires msgType != 0 && Composable(values) && IsOpenFlow(values[DHCP_CODE_VENDOR_CLASS])
    ensures Received(Assemble(msgType, values)) == Options(true, Wire(msgType, values))
  {
    hide Assemble, Wire;
    StandardRoundTrip(msgType, values);
    assert Wire(msgType, values)[DHCP_CODE_VENDOR_CLASS] == values[DHCP_CODE_VENDOR_CLASS] by {
      WireKeeps(msgType, values, DHCP_CODE_VENDOR_CLASS);
    }
    VendorRoundTrip(msgType, values);
  }

  lemma WireKeeps(msgType: Byte, values: Values, i: nat)
    requires i < DHCP_N_OPTIONS && i != DHCP_CODE_DHCP_MSG_TYPE && i != DHCP_CODE_VENDOR_SPECIFIC
    ensures Wire(msgType, values)[i] == values[i]
  {
  }

  // ----- one chunk

  lemma RoomChunk(room: Room, code: Byte, data: Bytes, rest: Bytes, ofs: nat)
    requires Usable(code) && |data| < 256 && (ofs == 0 || ofs == DHCP_VENDOR_OFS)
    ensures ParseRoom(room, Chunk(code, data) + rest, ofs) == ParseRoom(PutRoom(room, code + ofs, |data|), rest, ofs)
  {
    var b := Chunk(code, data) + rest;
    assert b[0] == code && b[1] == |data| && b[2 + Length(b)..] == rest;
  }

  lemma LiveChunk(room: Room, code: Byte, data: Bytes, rest: Bytes)
    requires Usable(code) && |data| < 256
    ensures ReadsLive(room, Chunk(code, data) + rest) ==
            if Exceeds(room, code + DHCP_VENDOR_OFS, |data|) then data == [] && rest == []
            else ReadsLive(PutRoom(room, code + DHCP_VENDOR_OFS, |data|), rest)
  {
    var b := Chunk(code, data) + rest;
    assert b[0] == code && b[1] == |data| && b[2 + Length(b)..] == rest;
  }

  // ----- a closed form

  /** The bytes of all values from `lo` on. */
  function Volume(values: Values, lo: nat): nat
    requires lo <= DHCP_N_OPTIONS
    decreases |values| - lo
  {
    if lo == |values| then 0 else |BytesOf(values[lo])| + Volume(values, lo + 1)
  }

  /** Vendor options of at most 255 bytes each, none received before, are read from
      live memory exactly when all of them fit into what is left of the arena. */
  lemma {:induction false} ShortVendorOptions(room: Room, values: Values, lo: nat)
    requires room.live && room.used <= room.capacity && DHCP_VENDOR_OFS <= lo <= DHCP_N_OPTIONS && Encodable(values)
    requires forall i :: lo <= i < DHCP_N_OPTIONS ==> room.regions[i].Absent? && |BytesOf(values[i])| <= 255
    ensures ReadsLive(room, Range(values, lo, DHCP_N_OPTIONS, DHCP_VENDOR_OFS))
            <==> room.used + Volume(values, lo) <= room.capacity
    decreases DHCP_N_OPTIONS - lo
  {
    hide ReadsLive, Encodable;
    if lo == DHCP_N_OPTIONS {
      VendorNothing(NoOptions(), room);
    } else {
      var rest := Range(values, lo + 1, DHCP_N_OPTIONS, DHCP_VENDOR_OFS);
      if values[lo].None? {
        assert PutOption(lo - DHCP_VENDOR_OFS, values[lo]) + rest == rest;
        ShortVendorOptions(room, values, lo + 1);
      } else {
        assert Usable(lo - DHCP_VENDOR_OFS) by { CodesUsable(values, lo); }
        assert PutOption(lo - DHCP_VENDOR_OFS, values[lo]) == Chunk(lo - DHCP_VENDOR_OFS, values[lo].value);
        LiveChunk(room, lo - DHCP_VENDOR_OFS, values[lo].value, rest);
        if room.used + |values[lo].value| <= room.capacity {
          ShortVendorOptions(PutRoom(room, lo, |values[lo].value|), values, lo + 1);
        }
      }
    }
  }

  lemma CodesUsable(values: Values, lo: nat)
    requires Encodable(values) && DHCP_VENDOR_OFS <= lo < DHCP_N_OPTIONS && values[lo].Some?
    ensures Usable(lo - DHCP_VENDOR_OFS)
  {
  }

  // ----- a message that cannot be received

  /** The options of a message from an OpenFlow peer with one vendor option. */
  function Sample(msgType: Byte, code: Byte, payload: Bytes): Bytes
    requires |payload| <= 253
  {
    Chunk(DHCP_CODE_DHCP_MSG_TYPE, [msgType])
    + (Chunk(DHCP_CODE_VENDOR_CLASS, OPENFLOW)
       + (Chunk(DHCP_CODE_VENDOR_SPECIFIC, Chunk(code, payload)) + [DHCP_CODE_END]))
  }

  /** Its arena after the standard options. */
  lemma SampleRoom(msgType: Byte, code: Byte, payload: Bytes)
    requires Usable(code) && |payload| <= 53
    ensures var b := Sample(msgType, code, payload);
      var m := Parse(NoOptions(), b, 0);
      var room := ParseRoom(NoRoom(), b, 0);
      && m.values[DHCP_CODE_VENDOR_CLASS] == Some(OPENFLOW)
      && m.values[DHCP_CODE_VENDOR_SPECIFIC] == Some(Chunk(code, payload))
      && room.live && room.used == 11 + |payload| && room.capacity == 64
      && room.regions[code + DHCP_VENDOR_OFS].Absent?
  {
    hide Parse, ParseRoom;
    var wrapped := Chunk(code, payload);
    var c := Chunk(DHCP_CODE_VENDOR_SPECIFIC, wrapped) + [DHCP_CODE_END];
    var d := Chunk(DHCP_CODE_VENDOR_CLASS, OPENFLOW) + c;
    ParseChunk(NoOptions(), DHCP_CODE_DHCP_MSG_TYPE, [msgType], d, 0);
    RoomChunk(NoRoom(), DHCP_CODE_DHCP_MSG_TYPE, [msgType], d, 0);
    var m1, r1 := Put(NoOptions(), DHCP_CODE_DHCP_MSG_TYPE, [msgType]), PutRoom(NoRoom(), DHCP_CODE_DHCP_MSG_TYPE, 1);
    PutFresh(NoOptions(), DHCP_CODE_DHCP_MSG_TYPE, [msgType]);
    FirstPut(DHCP_CODE_DHCP_MSG_TYPE, 1);
    ParseChunk(m1, DHCP_CODE_VENDOR_CLASS, OPENFLOW, c, 0);
    RoomChunk(r1, DHCP_CODE_VENDOR_CLASS, OPENFLOW, c, 0);
    var m2, r2 := Put(m1, DHCP_CODE_VENDOR_CLASS, OPENFLOW), PutRoom(r1, DHCP_CODE_VENDOR_CLASS, 8);
    PutFresh(m1, DHCP_CODE_VENDOR_CLASS, OPENFLOW);
    ParseChunk(m2, DHCP_CODE_VENDOR_SPECIFIC, wrapped, [DHCP_CODE_END], 0);
    RoomChunk(r2, DHCP_CODE_VENDOR_SPECIFIC, wrapped, [DHCP_CODE_END], 0);
    PutFresh(m2, DHCP_CODE_VENDOR_SPECIFIC, wrapped);
    ParseEnd(Put(m2, DHCP_CODE_VENDOR_SPECIFIC, wrapped), PutRoom(r2, DHCP_CODE_VENDOR_SPECIFIC, |wrapped|));
  }

  lemma ParseEnd(m: Options, room: Room)
    ensures Parse(m, [DHCP_CODE_END], 0) == m && ParseRoom(room, [DHCP_CODE_END], 0) == room
  {
  }

  lemma {:induction false} NothingTotal(s: seq<Region>)
    requires forall i :: 0 <= i < |s| ==> s[i].Absent?
    ensures Total(s) == 0
  {
    if s != [] {
      NothingTotal(s[..|s| - 1]);
    }
  }

  /** The first option allocates the arena. */
  lemma FirstPut(code: nat, k: nat)
    requires code < DHCP_N_OPTIONS && code != DHCP_CODE_PAD && code != DHCP_CODE_END && 0 < k <= 32
    ensures PutRoom(NoRoom(), code, k) == Room(true, k, 64, NoRoom().regions[code := Region(0, k)])
  {
    NothingTotal(NoRoom().regions);
    assert Packed(NoRoom().regions) == NoRoom().regions;
  }

  /** The sample is received exactly when its payload is copied within the first arena
      of 64 bytes: a payload of 28 bytes is read after the arena was freed. */
  lemma SampleReceivable(msgType: Byte, code: Byte, payload: Bytes)
    requires Usable(code) && |payload| <= 53
    ensures Receivable(Sample(msgType, code, payload)) <==> |payload| <= 26
  {
    SampleRoom(msgType, code, payload);
    hide Parse, ParseRoom, Sample, ReadsLive;
    var room := ParseRoom(NoRoom(), Sample(msgType, code, payload), 0);
    assert Chunk(code, payload) + [] == Chunk(code, payload);
    LiveChunk(room, code, payload, []);
    VendorNothing(NoOptions(), PutRoom(room, code + DHCP_VENDOR_OFS, |payload|));
  }
}
