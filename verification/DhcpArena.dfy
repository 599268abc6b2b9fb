/** The option arena of `lib/dhcp.c`. */
module DhcpArena {
  // All option bytes of a message live in one buffer.  An option that grows is
  // extended in place when it is the last one and moved to the end otherwise; a full
  // buffer is replaced by a larger, compacted one.

  import opened Prelude
  import opened DhcpCodec
  import opened DhcpRoom

  /** A pointer into a buffer, or null. */
  datatype Ptr = Null | At(buf: array<Byte>, ofs: nat)

  /** `struct dhcp_option`: a length and a pointer to the bytes. */
  datatype Slot = Slot(n: nat, ptr: Ptr)

  // ----- regions of a buffer

  predicate Within(size: nat, s: Slot) { if s.ptr.Null? then s.n == 0 else s.ptr.ofs + s.n <= size }

  function ValueIn(mem: Bytes, s: Slot): Option<Bytes>
    requires Within(|mem|, s)
  {
    if s.ptr.Null? then None else Some(mem[s.ptr.ofs..s.ptr.ofs + s.n])
  }

  predicate Disjoint(s: Slot, t: Slot) {
    s.n == 0 || t.n == 0 || s.ptr.Null? || t.ptr.Null?
    || s.ptr.ofs + s.n <= t.ptr.ofs || t.ptr.ofs + t.n <= s.ptr.ofs
  }

  predicate AllDisjoint(slots: seq<Slot>) {
    forall c, d :: 0 <= c < d < |slots| ==> Disjoint(slots[c], slots[d])
  }

  function Sum(slots: seq<Slot>): nat {
    if slots == [] then 0 else Sum(slots[..|slots| - 1]) + slots[|slots| - 1].n
  }

  /** The options lie in a region of this size, non-empty ones do not overlap, and
      together they fit into it. */
  predicate Laid(size: nat, slots: seq<Slot>) {
    (forall c :: 0 <= c < |slots| ==> Within(size, slots[c])) && AllDisjoint(slots) && Sum(slots) <= size
  }

  ghost function ValuesIn(mem: Bytes, slots: seq<Slot>): (r: seq<Option<Bytes>>)
    requires forall c :: 0 <= c < |slots| ==> Within(|mem|, slots[c])
    ensures |r| == |slots|
  {
    seq(|slots|, c requires 0 <= c < |slots| => ValueIn(mem, slots[c]))
  }

  lemma {:induction false} SumUpdate(slots: seq<Slot>, c: nat, s: Slot)
    requires c < |slots|
    ensures Sum(slots[c := s]) == Sum(slots) - slots[c].n + s.n
    decreases |slots|
  {
    var r := slots[c := s];
    if c < |slots| - 1 {
      SumUpdate(slots[..|slots| - 1], c, s);
      assert r[..|slots| - 1] == slots[..|slots| - 1][c := s];
    } else {
      assert r[..|slots| - 1] == slots[..|slots| - 1];
    }
  }

  lemma {:induction false} SumPrefix(slots: seq<Slot>, k: nat)
    requires k <= |slots|
    ensures Sum(slots[..k]) <= Sum(slots)
    decreases |slots|
  {
    if k < |slots| {
      SumPrefix(slots[..|slots| - 1], k);
      assert slots[..|slots| - 1][..k] == slots[..k];
    } else {
      assert slots[..k] == slots;
    }
  }

  lemma {:induction false} SumSame(s: seq<Slot>, t: seq<Slot>)
    requires |s| == |t| && forall i :: 0 <= i < |s| ==> s[i].n == t[i].n
    ensures Sum(s) == Sum(t)
  {
    if s != [] {
      SumSame(s[..|s| - 1], t[..|t| - 1]);
    }
  }

  lemma {:induction false} SumZero(s: seq<Slot>)
    requires forall i :: 0 <= i < |s| ==> s[i].n == 0
    ensures Sum(s) == 0
  {
    if s != [] {
      SumZero(s[..|s| - 1]);
    }
  }

  /** The slots without their buffer. */
  function RegionOf(s: Slot): Region { if s.ptr.Null? then Absent else Region(s.ptr.ofs, s.n) }

  function RegionsOf(slots: seq<Slot>): (r: seq<Region>)
    ensures |r| == |slots|
  {
    seq(|slots|, c requires 0 <= c < |slots| => RegionOf(slots[c]))
  }

  lemma {:induction false} SumIsTotal(slots: seq<Slot>)
    requires forall c :: 0 <= c < |slots| && slots[c].ptr.Null? ==> slots[c].n == 0
    ensures Sum(slots) == Total(RegionsOf(slots))
  {
    if slots != [] {
      SumIsTotal(slots[..|slots| - 1]);
      assert RegionsOf(slots)[..|slots| - 1] == RegionsOf(slots[..|slots| - 1]);
    }
  }

  /** Bytes added at the end do not change what is already there. */
  lemma ValueExtends(mem: Bytes, more: Bytes, s: Slot)
    requires Within(|mem|, s) && mem <= more
    ensures Within(|more|, s) && ValueIn(more, s) == ValueIn(mem, s)
  {
    if s.ptr.At? {
      assert more[s.ptr.ofs..s.ptr.ofs + s.n] == mem[s.ptr.ofs..s.ptr.ofs + s.n];
    }
  }

  // ----- gathering

  /** The first `code` options have been gathered into `mem`. */
  ghost predicate Gathered(mem: Bytes, opts: seq<Slot>, slots: seq<Slot>, values: Values, code: nat) {
    && |opts| == |slots| == DHCP_N_OPTIONS && code <= DHCP_N_OPTIONS && |mem| == Sum(slots[..code])
    && (forall c :: code <= c < DHCP_N_OPTIONS ==> opts[c] == slots[c])
    && (forall c :: 0 <= c < code ==>
          opts[c].n == slots[c].n && Within(|mem|, opts[c]) && ValueIn(mem, opts[c]) == values[c])
    && (forall c :: 0 <= c < code ==> PackedAt(opts[c], slots, c))
    && AllDisjoint(opts[..code])
  }

  /** The option stands behind all options with smaller codes. */
  ghost predicate PackedAt(s: Slot, slots: seq<Slot>, c: nat)
    requires c < |slots|
  {
    if slots[c].ptr.Null? then s.ptr.Null? else s.ptr.At? && s.ptr.ofs == Sum(slots[..c])
  }

  lemma GatherNone(slots: seq<Slot>, values: Values)
    requires |slots| == DHCP_N_OPTIONS
    ensures Gathered([], slots, slots, values, 0)
  {
  }

  lemma GatherRoom(mem: Bytes, opts: seq<Slot>, slots: seq<Slot>, values: Values, code: nat)
    requires Gathered(mem, opts, slots, values, code) && code < DHCP_N_OPTIONS
    ensures |opts| == |slots| == DHCP_N_OPTIONS
    ensures opts[code] == slots[code] && |mem| + slots[code].n <= Sum(slots)
  {
    SumPrefix(slots, code + 1);
    assert slots[..code + 1][..code] == slots[..code];
  }

  lemma GatherSkip(mem: Bytes, opts: seq<Slot>, slots: seq<Slot>, values: Values, code: nat)
    requires Gathered(mem, opts, slots, values, code) && code < DHCP_N_OPTIONS
    requires |slots| == DHCP_N_OPTIONS && slots[code].ptr.Null? && slots[code].n == 0 && values[code].None?
    ensures Gathered(mem, opts, slots, values, code + 1)
  {
    assert slots[..code + 1][..code] == slots[..code];
    hide Sum;
    forall c, d | 0 <= c < d < code + 1 ensures Disjoint(opts[c], opts[d]) {
      assert d < code ==> Disjoint(opts[..code][c], opts[..code][d]);
    }
  }

  lemma GatherStep(mem: Bytes, opts: seq<Slot>, slots: seq<Slot>, values: Values, code: nat, buf: array<Byte>)
    requires Gathered(mem, opts, slots, values, code) && code < DHCP_N_OPTIONS
    requires |slots| == DHCP_N_OPTIONS && slots[code].ptr.At?
    requires values[code].Some? && |values[code].value| == slots[code].n
    ensures Gathered(mem + values[code].value, opts[code := Slot(slots[code].n, At(buf, |mem|))],
                     slots, values, code + 1)
  {
    assert slots[..code + 1][..code] == slots[..code];
    assert Sum(slots[..code + 1]) == Sum(slots[..code]) + slots[code].n;
    hide Sum;
    var mem' := mem + values[code].value;
    var opts' := opts[code := Slot(slots[code].n, At(buf, |mem|))];
    forall c | 0 <= c < code ensures ValueIn(mem', opts'[c]) == values[c] && PackedAt(opts'[c], slots, c) {
      ValueExtends(mem, mem', opts[c]);
      assert PackedAt(opts[c], slots, c);
    }
    assert mem'[|mem|..|mem| + slots[code].n] == values[code].value;
    forall c, d | 0 <= c < d < code + 1 ensures Disjoint(opts'[c], opts'[d]) {
      assert d < code ==> Disjoint(opts[..code][c], opts[..code][d]);
    }
  }

  lemma GatheredAll(mem: Bytes, opts: seq<Slot>, slots: seq<Slot>, values: Values)
    requires Gathered(mem, opts, slots, values, DHCP_N_OPTIONS)
    ensures |opts| == |slots| == DHCP_N_OPTIONS
    ensures |mem| == Sum(slots) && Laid(|mem|, opts) && ValuesIn(mem, opts) == values
    ensures forall c :: 0 <= c < DHCP_N_OPTIONS ==> opts[c].n == slots[c].n && PackedAt(opts[c], slots, c)
  {
    assert slots[..DHCP_N_OPTIONS] == slots && opts[..DHCP_N_OPTIONS] == opts;
    SumSame(slots, opts);
  }

  lemma PackedRegions(opts: seq<Slot>, slots: seq<Slot>)
    requires |opts| == |slots|
    requires forall c :: 0 <= c < |slots| ==> opts[c].n == slots[c].n && PackedAt(opts[c], slots, c)
    requires forall c :: 0 <= c < |slots| && slots[c].ptr.Null? ==> slots[c].n == 0
    ensures RegionsOf(opts) == Packed(RegionsOf(slots)) && Sum(slots) == Total(RegionsOf(slots))
  {
    hide Sum, Total, Packed, RegionsOf;
    SumIsTotal(slots);
    var r, p := RegionsOf(opts), Packed(RegionsOf(slots));
    forall c | 0 <= c < |slots| ensures r[c] == p[c] {
      PackedRegion(opts, slots, c);
    }
  }

  lemma PackedRegion(opts: seq<Slot>, slots: seq<Slot>, c: nat)
    requires c < |opts| == |slots| && opts[c].n == slots[c].n && PackedAt(opts[c], slots, c)
    requires forall c :: 0 <= c < |slots| && slots[c].ptr.Null? ==> slots[c].n == 0
    ensures RegionsOf(opts)[c] == Packed(RegionsOf(slots))[c]
  {
    hide Sum, Total;
    SumIsTotal(slots[..c]);
    assert RegionsOf(slots)[..c] == RegionsOf(slots[..c]);
  }

  lemma SizeOfSlot(size: nat, slots: seq<Slot>, c: nat)
    requires c < |slots| && Laid(size, slots)
    ensures Size(RegionsOf(slots)[c]) == slots[c].n
  {
  }

  // ----- growing one option

  /** The grown option starts past the old end, or it was the last one. */
  predicate AtEnd(size: nat, s: Slot, ofs: nat) {
    ofs == size || (s.n > 0 && s.ptr.At? && s.ptr.ofs == ofs && ofs + s.n == size)
  }

  lemma GrowDisjoint(size: nat, slots: seq<Slot>, code: nat, n: nat, buf: array<Byte>, ofs: nat)
    requires code < |slots| && AllDisjoint(slots) && AtEnd(size, slots[code], ofs)
    requires forall c :: 0 <= c < |slots| ==> Within(size, slots[c])
    ensures AllDisjoint(slots[code := Slot(n, At(buf, ofs))])
  {
    var slots' := slots[code := Slot(n, At(buf, ofs))];
    forall c, d | 0 <= c < d < |slots| ensures Disjoint(slots'[c], slots'[d]) {
      assert Disjoint(slots[c], slots[d]);
    }
  }

  lemma GrowOthers(mem: Bytes, slots: seq<Slot>, code: nat, s: Slot, mem': Bytes, slots': seq<Slot>)
    requires code < |slots| && mem <= mem' && Within(|mem'|, s) && slots' == slots[code := s]
    requires forall c :: 0 <= c < |slots| ==> Within(|mem|, slots[c])
    ensures forall c :: 0 <= c < |slots'| ==> Within(|mem'|, slots'[c])
    ensures ValuesIn(mem', slots') == ValuesIn(mem, slots)[code := ValueIn(mem', s)]
  {
    forall c | 0 <= c < |slots| && c != code
      ensures Within(|mem'|, slots[c]) && ValueIn(mem', slots[c]) == ValueIn(mem, slots[c])
    {
      ValueExtends(mem, mem', slots[c]);
    }
  }

  /** An option that grows at the end of the arena, either in place because it is the
      last one or by moving there, keeps the layout and every other option. */
  lemma GrowOption(mem: Bytes, slots: seq<Slot>, code: nat, bytes: Bytes, buf: array<Byte>, ofs: nat, mem': Bytes)
    requires |slots| == DHCP_N_OPTIONS && code < |slots| && Laid(|mem|, slots)
    requires AtEnd(|mem|, slots[code], ofs)
    requires mem' == mem + (if ofs == |mem| then BytesOf(ValueIn(mem, slots[code])) else []) + bytes
    ensures Laid(|mem'|, slots[code := Slot(slots[code].n + |bytes|, At(buf, ofs))])
    ensures ValuesIn(mem', slots[code := Slot(slots[code].n + |bytes|, At(buf, ofs))]) ==
            ValuesIn(mem, slots)[code := Some(BytesOf(ValueIn(mem, slots[code])) + bytes)]
  {
    hide AllDisjoint, Sum;
    var s := Slot(slots[code].n + |bytes|, At(buf, ofs));
    SumUpdate(slots, code, s);
    GrowDisjoint(|mem|, slots, code, s.n, buf, ofs);
    assert mem'[ofs..ofs + s.n] == BytesOf(ValueIn(mem, slots[code])) + bytes;
    GrowOthers(mem, slots, code, s, mem', slots[code := s]);
  }

  // ----- the message

  ghost predicate Holds(s: Slot, buf: array?<Byte>, v: Option<Bytes>)
    reads buf
  {
    if s.ptr.Null? then s.n == 0 && v.None?
    else s.ptr.buf == buf && buf != null && s.ptr.ofs + s.n <= buf.Length
         && v == Some(buf[s.ptr.ofs..s.ptr.ofs + s.n])
  }

  predicate PointsTo(s: Slot, buf: array?<Byte>) { s.ptr.At? ==> s.ptr.buf == buf }

  class DhcpMsg {
    var data: array?<Byte>
    var used: nat
    var capacity: nat
    const options: array<Slot>

    /** The used part of the arena. */
    ghost function Mem(): Bytes
      requires data != null ==> used <= data.Length
      reads this, data
    {
      if data == null then [] else data[..used]
    }

    ghost predicate Valid()
      reads this, options
    {
      && options.Length == DHCP_N_OPTIONS
      && capacity == (if data == null then 0 else data.Length) && used <= capacity
      && (forall c :: 0 <= c < DHCP_N_OPTIONS ==> PointsTo(options[c], data))
      && Laid(used, options[..])
    }

    ghost function Abs(): Options
      requires Valid()
      reads this, options, data
    {
      Options(data != null, ValuesIn(Mem(), options[..]))
    }

    /** The lengths and offsets that decide when the arena is replaced. */
    ghost function Layout(): Room
      requires Valid()
      reads this, options
    {
      Room(data != null, used, capacity, RegionsOf(options[..]))
    }

    /** `dhcp_msg_init`. */
    constructor ()
      ensures Valid() && Abs() == NoOptions() && Layout() == NoRoom() && fresh(options)
    {
      data, used, capacity := null, 0, 0;
      options := new Slot[DHCP_N_OPTIONS](i => Slot(0, Null));
      new;
      SumZero(options[..]);
      assert Abs().values == NoOptions().values;
      assert Layout().regions == NoRoom().regions;
    }

    /** `dhcp_msg_copy`: the copy has its own, exactly filled arena. */
    constructor Copy(src: DhcpMsg)
      requires src.Valid()
      ensures Valid() && Abs() == Options(true, src.Abs().values) && fresh(options) && fresh(data)
    {
      hide ValueIn, Sum, AllDisjoint;
      data, used, capacity := new Byte[src.used], 0, src.used;
      options := new Slot[DHCP_N_OPTIONS];
      new;
      forall c | 0 <= c < DHCP_N_OPTIONS { options[c] := src.options[c]; }
      assert options[..] == src.options[..];
      HeldByValid(src);
      assert HeldIn(src.data, src.Abs().values);
      CopyData(src.data, src.Abs().values);
    }

    /** `append_data`: copy bytes to the end of the used part. */
    method Append(bytes: Bytes) returns (ofs: nat)
      requires data != null && used + |bytes| <= data.Length
      modifies data, this`used
      ensures ofs == old(used) && used == old(used) + |bytes|
      ensures data[..used] == old(data[..used]) + bytes
    {
      ofs := used;
      for i := 0 to |bytes|
        invariant used == ofs && ofs + |bytes| <= data.Length
        invariant data[..used] == old(data[..used])
        invariant data[used..used + i] == bytes[..i]
      {
        data[used + i] := bytes[i];
      }
      used := used + |bytes|;
    }

    /** All options still point into `source`, where they hold `values`. */
    ghost predicate HeldIn(source: array?<Byte>, values: Values)
      requires options.Length == DHCP_N_OPTIONS
      reads options, source
    {
      forall c :: 0 <= c < DHCP_N_OPTIONS ==> Holds(options[c], source, values[c])
    }

    /** One step of `copy_data`. */
    method CopyOne(code: nat, source: array?<Byte>, ghost slots: seq<Slot>, ghost values: Values)
      requires options.Length == DHCP_N_OPTIONS && code < DHCP_N_OPTIONS && data != null && data != source
      requires capacity == data.Length && used <= data.Length && Sum(slots) <= data.Length
      requires Gathered(data[..used], options[..], slots, values, code)
      requires |slots| == DHCP_N_OPTIONS && Holds(slots[code], source, values[code])
      modifies this`used, data, options
      ensures used <= data.Length && Gathered(data[..used], options[..], slots, values, code + 1)
      ensures PointsTo(options[code], data)
      ensures forall c :: 0 <= c < DHCP_N_OPTIONS && c != code ==> options[c] == old(options[c])
    {
      hide Gathered, Sum;
      GatherRoom(data[..used], options[..], slots, values, code);
      var opt := options[code];
      if opt.ptr.Null? {
        GatherSkip(data[..used], options[..], slots, values, code);
      } else {
        GatherStep(data[..used], options[..], slots, values, code, data);
        assert used + opt.n <= capacity;
        var ofs := Append(opt.ptr.buf[opt.ptr.ofs..opt.ptr.ofs + opt.n]);
        options[code] := Slot(opt.n, At(data, ofs));
        assert options[..] == old(options[..])[code := Slot(opt.n, At(data, ofs))];
      }
    }

    /** `copy_data`: gather all options, which still point into `source`, at the
        start of the current buffer.  They always fit. */
    method CopyData(source: array?<Byte>, ghost values: Values)
      requires options.Length == DHCP_N_OPTIONS && data != null && data != source
      requires capacity == data.Length && Sum(options[..]) <= data.Length && HeldIn(source, values)
      modifies this`used, data, options
      ensures Valid() && Abs() == Options(true, values)
      ensures Layout() == Room(true, Total(old(RegionsOf(options[..]))), capacity, Packed(old(RegionsOf(options[..]))))
      ensures used == Sum(old(options[..]))
      ensures forall c :: 0 <= c < DHCP_N_OPTIONS ==> options[c].n == old(options[c].n)
    {
      hide Gathered, Sum, AllDisjoint, ValueIn, Within;
      ghost var slots := options[..];
      used := 0;
      GatherNone(slots, values);
      for code := 0 to DHCP_N_OPTIONS
        invariant used <= data.Length && Gathered(data[..used], options[..], slots, values, code)
        invariant forall c :: 0 <= c < code ==> PointsTo(options[c], data)
      {
        assert Holds(slots[code], source, values[code]);
        CopyOne(code, source, slots, values);
      }
      GatheredAll(data[..used], options[..], slots, values);
      PackedRegions(options[..], slots);
    }

    lemma HeldByValid(m: DhcpMsg)
      requires m.Valid()
      ensures m.HeldIn(m.data, m.Abs().values)
    {
      forall c | 0 <= c < DHCP_N_OPTIONS ensures Holds(m.options[c], m.data, m.Abs().values[c]) {
        assert Within(m.used, m.options[..][c]);
        if m.options[c].ptr.At? {
          assert PointsTo(m.options[c], m.data);
          assert m.data[..m.used][m.options[c].ptr.ofs..m.options[c].ptr.ofs + m.options[c].n]
              == m.data[m.options[c].ptr.ofs..m.options[c].ptr.ofs + m.options[c].n];
        }
      }
    }

    /** `prealloc_data`: make room for `n` more bytes, compacting into a larger buffer
        when there is none.  No option changes. */
    method Prealloc(n: nat)
      requires Valid()
      modifies this, options
      ensures Valid() && used + n <= capacity
      ensures Abs().values == old(Abs().values) && (Abs().live <==> old(Abs().live) || n > 0)
      ensures Layout() == Reserved(old(Layout()), n)
      ensures if old(used) + n <= old(capacity) then data == old(data) else fresh(data)
      ensures forall c :: 0 <= c < DHCP_N_OPTIONS ==> options[c].n == old(options[c].n)
    {
      hide ValueIn, AllDisjoint, Sum, Within, Total, Packed;
      var needed := used + n;
      if needed > capacity {
        HeldByValid(this);
        ghost var values := Abs().values;
        var source := data;
        capacity := if needed * 2 > 64 then needed * 2 else 64;
        data := new Byte[capacity];
        if source != null {
          CopyData(source, values);
        } else {
          NullMeansAbsent(options[..], data[..used], source);
          NothingPacked(RegionsOf(options[..]));
        }
      }
    }

    /** The part of `dhcp_msg_put` after the arena has been made large enough. */
    method Grow(code: nat, bytes: Bytes)
      requires Valid() && code < DHCP_N_OPTIONS && data != null
      requires used + |bytes| + options[code].n <= capacity
      modifies this`used, options, data
      ensures Valid() && Layout() == Grown(old(Layout()), code, |bytes|)
      ensures Abs() == Options(true, old(Abs().values[code := Some(BytesOf(Abs().values[code]) + bytes)]))
      ensures old(data[..used]) <= data[..used]
    {
      hide Sum, AllDisjoint;
      ghost var mem, slots := data[..used], options[..];
      var opt := options[code];
      assert PointsTo(opt, data) && Within(used, slots[code]);
      ghost var before := BytesOf(ValueIn(mem, opt));
      var ofs;
      if opt.n > 0 {
        assert data[opt.ptr.ofs..opt.ptr.ofs + opt.n] == before;
        if opt.ptr.ofs != used - opt.n {
          ofs := Append(data[opt.ptr.ofs..opt.ptr.ofs + opt.n]);
        } else {
          ofs := opt.ptr.ofs;
        }
        var _ := Append(bytes);
      } else {
        assert before == [];
        ofs := Append(bytes);
      }
      GrowOption(mem, slots, code, bytes, data, ofs, data[..used]);
      options[code] := Slot(opt.n + |bytes|, At(data, ofs));
      assert options[..] == slots[code := options[code]];
    }

    /** `dhcp_msg_put`. */
    method Put(code: nat, bytes: Bytes)
      requires Valid() && code < DHCP_N_OPTIONS
      modifies this, options, data
      ensures Valid() && Abs() == DhcpCodec.Put(old(Abs()), code, bytes)
      ensures Layout() == PutRoom(old(Layout()), code, |bytes|)
      ensures data == old(data) || fresh(data)
    {
      hide Sum, AllDisjoint, ValueIn, Within, Total, Packed, Grown, RegionsOf;
      SizeOfSlot(used, options[..], code);
      if code == DHCP_CODE_PAD || code == DHCP_CODE_END {
        return;
      }
      if data == null {
        NullMeansAbsent(options[..], Mem(), data);
        assert options[..][code].n == 0;
      }
      Prealloc(|bytes| + options[code].n);
      if data != null {
        Grow(code, bytes);
      }
    }

    /** `parse_options`. */
    method ParseOptions(bytes: Bytes, ofs: nat)
      requires Valid() && (ofs == 0 || ofs == DHCP_VENDOR_OFS)
      modifies this, options, data
      ensures Valid() && Abs() == Parse(old(Abs()), bytes, ofs)
      ensures Layout() == ParseRoom(old(Layout()), bytes, ofs)
      ensures data == old(data) || fresh(data)
    {
      hide Laid, ValueIn, DhcpCodec.Put, PutRoom;
      var b := bytes;
      while b != [] && b[0] != DHCP_CODE_END
        invariant Valid() && Parse(Abs(), b, ofs) == Parse(old(Abs()), bytes, ofs)
        invariant ParseRoom(Layout(), b, ofs) == ParseRoom(old(Layout()), bytes, ofs)
        invariant data == old(data) || fresh(data)
        decreases |b|
      {
        if b[0] == DHCP_CODE_PAD {
          b := b[1..];
        } else if |b| < 2 || |b| < 2 + Length(b) {
          return;
        } else {
          Put(Code(b) + ofs, b[2..2 + Length(b)]);
          b := b[2 + Length(b)..];
        }
      }
    }

    /** `dhcp_msg_put` of bytes that lie in the arena itself, at `ofs`.  When the arena
        has to be replaced they are freed before they are copied: the result says
        whether only live memory was read. */
    method PutFrom(code: nat, buf: array<Byte>, ofs: nat, n: nat) returns (live: bool)
      requires Valid() && DHCP_VENDOR_OFS <= code < DHCP_N_OPTIONS && data == buf && ofs + n <= used
      modifies this, options, data
      ensures Valid() && (data == buf <==> !Exceeds(old(Layout()), code, n)) && (data == old(data) || fresh(data))
      ensures live <==> !Exceeds(old(Layout()), code, n) || n == 0
      ensures live ==> Abs() == DhcpCodec.Put(old(Abs()), code, old(buf[ofs..ofs + n]))
                       && Layout() == PutRoom(old(Layout()), code, n)
      ensures data == buf ==> old(data[..used]) <= data[..used]
    {
      hide Sum, AllDisjoint, ValueIn, Within, Total, Packed, Grown, RegionsOf;
      SizeOfSlot(used, options[..], code);
      Prealloc(n + options[code].n);
      if data != buf && n > 0 {
        return false;
      }
      Grow(code, if n > 0 then buf[ofs..ofs + n] else []);
      live := true;
    }

    /** `parse_options` on the vendor options, which lie in the arena that it fills.
        It stops at the first read of a freed buffer; that happens, and the outcome of
        the C code is undefined, exactly when `ReadsLive` fails. */
    method ParseVendor() returns (live: bool)
      requires Valid()
      modifies this, options, data
      ensures Valid() && (data == old(data) || fresh(data))
      ensures var b := BytesOf(old(Abs()).values[DHCP_CODE_VENDOR_SPECIFIC]);
              && (live <==> ReadsLive(old(Layout()), b))
              && (live ==> Abs() == Parse(old(Abs()), b, DHCP_VENDOR_OFS))
    {
      hide Laid, PutRoom, DhcpCodec.Put, RegionsOf, Exceeds, Parse, ReadsLive;
      var opt := options[DHCP_CODE_VENDOR_SPECIFIC];
      InArena(DHCP_CODE_VENDOR_SPECIFIC);
      if opt.ptr.Null? {
        VendorNothing(Abs(), Layout());
        return true;
      }
      var buf, pos, end := opt.ptr.buf, opt.ptr.ofs, opt.ptr.ofs + opt.n;
      ghost var room, goal, b := Layout(), Abs(), buf[pos..end];
      ghost var bytes := b;
      assert data[..used][pos..end] == b;
      while pos < end
        invariant Valid() && pos <= end && |b| == end - pos && (data == old(data) || fresh(data))
        invariant data == buf ==> end <= used && buf[pos..end] == b
        invariant data == buf ==> (ReadsLive(Layout(), b) <==> ReadsLive(room, bytes))
        invariant data != buf ==> (b == [] <==> ReadsLive(room, bytes))
        invariant Parse(Abs(), b, DHCP_VENDOR_OFS) == Parse(goal, bytes, DHCP_VENDOR_OFS)
        decreases end - pos
      {
        if data != buf {
          return false;
        }
        var next, stop;
        live, stop, next := VendorOne(buf, pos, end);
        if stop {
          return;
        }
        pos, b := next, b[next - pos..];
      }
      VendorNothing(Abs(), Layout());
      live := true;
    }

    /** One turn of the loop, while the bytes from `pos` to `end` are live. */
    method VendorOne(buf: array<Byte>, pos: nat, end: nat) returns (live: bool, stop: bool, next: nat)
      requires Valid() && data == buf && pos < end <= used
      modifies this, options, data
      ensures Valid() && (data == old(data) || fresh(data))
      ensures var b, room := old(buf[pos..end]), old(Layout());
        if stop then
          && (live <==> ReadsLive(room, b))
          && (live ==> Abs() == Parse(old(Abs()), b, DHCP_VENDOR_OFS))
        else
          && pos < next <= end
          && Parse(Abs(), b[next - pos..], DHCP_VENDOR_OFS) == Parse(old(Abs()), b, DHCP_VENDOR_OFS)
          && (data == buf ==> end <= used && buf[next..end] == b[next - pos..]
                              && (ReadsLive(Layout(), b[next - pos..]) <==> ReadsLive(room, b)))
          && (data != buf ==> (next == end <==> ReadsLive(room, b)))
    {
      hide Laid, PutRoom, DhcpCodec.Put, RegionsOf, Exceeds, Parse, ReadsLive;
      ghost var b := buf[pos..end];
      VendorTurn(Abs(), Layout(), b);
      live, stop, next := true, true, pos;
      var code := buf[pos];
      if code == DHCP_CODE_END {
      } else if code == DHCP_CODE_PAD {
        stop, next := false, pos + 1;
      } else if pos + 1 < end {
        var n: nat := buf[pos + 1];
        if pos + 2 + n <= end {
          assert buf[pos + 2..pos + 2 + n] == b[2..2 + n];
          live := PutFrom(code + DHCP_VENDOR_OFS, buf, pos + 2, n);
          stop, next := !live, pos + 2 + n;
        }
      }
    }

    lemma InArena(code: nat)
      requires Valid() && code < DHCP_N_OPTIONS
      ensures PointsTo(options[code], data) && Within(used, options[code])
      ensures Abs().values[code] == ValueIn(Mem(), options[code])
    {
      assert Within(used, options[..][code]);
    }

    /** The option part of `dhcp_parse`, on a new message.  It reads freed memory, and
        then anything may happen, exactly when `Receivable` fails. */
    method ReceiveOptions(bytes: Bytes) returns (live: bool)
      requires Valid() && Abs() == NoOptions() && Layout() == NoRoom()
      modifies this, options, data
      ensures Valid() && (live <==> Receivable(bytes))
      ensures live ==> Abs() == Received(bytes)
    {
      hide Laid, ReadsLive, Parse, ParseRoom, RegionsOf;
      ParseOptions(bytes, 0);
      var opt := options[DHCP_CODE_VENDOR_CLASS];
      ghost var v := Abs().values[DHCP_CODE_VENDOR_CLASS];
      InArena(DHCP_CODE_VENDOR_CLASS);
      assert v == ValueIn(Mem(), opt);
      live := true;
      if opt.ptr.At? {
        assert data[opt.ptr.ofs..opt.ptr.ofs + opt.n] == v.value;
        if IsOpenFlow(Some(data[opt.ptr.ofs..opt.ptr.ofs + opt.n])) {
          live := ParseVendor();
        }
      }
    }
  }

  lemma NullMeansAbsent(slots: seq<Slot>, mem: Bytes, buf: array?<Byte>)
    requires buf == null
    requires forall c :: 0 <= c < |slots| ==> PointsTo(slots[c], buf) && Within(|mem|, slots[c])
    ensures ValuesIn(mem, slots) == seq(|slots|, i => None)
    ensures forall c :: 0 <= c < |slots| ==> slots[c].n == 0
    ensures forall c :: 0 <= c < |slots| ==> RegionsOf(slots)[c].Absent?
  {
  }

  lemma NothingPacked(s: seq<Region>)
    requires forall c :: 0 <= c < |s| ==> s[c].Absent?
    ensures Total(s) == 0 && Packed(s) == s
  {
    NothingTotal(s);
  }
}
