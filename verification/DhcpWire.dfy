/** The wire form of DHCP options (section 2 of RFC 2132). */
module DhcpWire {
  import opened Prelude
  import opened DhcpCodec
  import opened DhcpRoom

  // A field of options is a sequence of items, each a single zero byte or a code, a
  // length and that many bytes, up to a byte 255.  What the emitter writes and what the
  // parser understands are both compared with this, byte by byte.

  datatype Item = Pad | Opt(code: Byte, data: Bytes)

  predicate Fits(item: Item) { item.Opt? ==> 1 <= item.code <= 254 && |item.data| <= 255 }

  predicate AllFit(items: seq<Item>) { forall k :: 0 <= k < |items| ==> Fits(items[k]) }

  function Bytewise(item: Item): Bytes
    requires Fits(item)
  {
    match item
    case Pad => [0]
    case Opt(code, data) => [code, |data|] + data
  }

  function Render(items: seq<Item>): Bytes
    requires AllFit(items)
  {
    if items == [] then [] else Bytewise(items[0]) + Render(items[1..])
  }

  /** Where a field ends: nothing is left, or a byte 255, or an item that is cut short. */
  predicate Ends(b: Bytes) { b == [] || b[0] == 255 || (b[0] != 0 && (|b| == 1 || |b| - 2 < b[1])) }

  /** The value of a code: the data of its items, one after the other. */
  function Content(items: seq<Item>, code: int): Option<Bytes> {
    if items == [] then None
    else
      var rest := Content(items[1..], code);
      if items[0].Pad? || items[0].code != code then rest
      else Some(items[0].data + BytesOf(rest))
  }

  lemma {:induction false} RenderJoins(s: seq<Item>, t: seq<Item>)
    requires AllFit(s) && AllFit(t)
    ensures Render(s + t) == Render(s) + Render(t)
  {
    if s == [] {
      assert s + t == t;
    } else {
      assert (s + t)[1..] == s[1..] + t;
      RenderJoins(s[1..], t);
    }
  }

  // ----- parsing

  lemma RenderMore(item: Item, more: seq<Item>, rest: Bytes)
    requires Fits(item) && AllFit(more)
    ensures AllFit([item] + more) && Render([item] + more) + rest == Bytewise(item) + (Render(more) + rest)
  {
    var items := [item] + more;
    assert items[0] == item && items[1..] == more;
    hide Bytewise, Fits;
    assert Render(items) == Bytewise(item) + Render(more);
  }

  /** Every byte string is a field. */
  lemma {:induction false} EveryStringIsField(b: Bytes) returns (items: seq<Item>, rest: Bytes)
    ensures AllFit(items) && b == Render(items) + rest && Ends(rest)
    decreases |b|
  {
    if Ends(b) {
      items, rest := [], b;
    } else {
      var n: nat := if b[0] == 0 then 1 else Length(b) + 2;
      var item := if b[0] == 0 then Pad else Opt(b[0], b[2..n]);
      assert Fits(item) && b == Bytewise(item) + b[n..];
      hide Bytewise, Render, Ends;
      var more;
      more, rest := EveryStringIsField(b[n..]);
      RenderMore(item, more, rest);
      items := [item] + more;
    }
  }

  lemma ParseItem(m: Options, item: Item, b: Bytes, ofs: nat)
    requires Fits(item) && (ofs == 0 || ofs == 256)
    ensures Parse(m, Bytewise(item) + b, ofs) ==
            Parse(if item.Pad? then m else Put(m, item.code + ofs, item.data), b, ofs)
  {
    var c := Bytewise(item) + b;
    if item.Pad? {
      assert c[1..] == b;
    } else {
      assert c[2..2 + |item.data|] == item.data && c[2 + |item.data|..] == b;
    }
  }

  lemma ParseEnds(m: Options, b: Bytes, ofs: nat)
    requires Ends(b) && (ofs == 0 || ofs == 256)
    ensures Parse(m, b, ofs) == m
  {
  }

  /** A message that has options gets every code's value appended, in both halves. */
  lemma {:induction false} LiveParse(m: Options, items: seq<Item>, rest: Bytes, ofs: nat, i: nat)
    requires m.live && AllFit(items) && Ends(rest) && (ofs == 0 || ofs == 256) && i < 512
    ensures var r := Parse(m, Render(items) + rest, ofs);
      r.live && r.values[i] == Joined(m.values[i], Content(items, i - ofs))
    decreases |items|
  {
    hide Parse, Joined;
    if items == [] {
      assert Render(items) + rest == rest;
      ParseEnds(m, rest, ofs);
      JoinedWithNone(m.values[i]);
    } else {
      var more := Render(items[1..]) + rest;
      assert Render(items) + rest == Bytewise(items[0]) + more;
      ParseItem(m, items[0], more, ofs);
      if items[0].Pad? {
        LiveParse(m, items[1..], rest, ofs, i);
      } else {
        LiveParse(Put(m, items[0].code + ofs, items[0].data), items[1..], rest, ofs, i);
        JoinItem(m, items, ofs, i);
      }
    }
  }

  lemma JoinedWithNone(v: Option<Bytes>)
    ensures Joined(v, None) == v
  {
  }

  lemma JoinItem(m: Options, items: seq<Item>, ofs: nat, i: nat)
    requires m.live && items != [] && items[0].Opt? && Fits(items[0]) && (ofs == 0 || ofs == 256) && i < 512
    ensures var n := Put(m, items[0].code + ofs, items[0].data);
      Joined(n.values[i], Content(items[1..], i - ofs)) == Joined(m.values[i], Content(items, i - ofs))
  {
    var d, later := items[0].data, BytesOf(Content(items[1..], i - ofs));
    assert d + [] == d;
    assert BytesOf(m.values[i]) + d + later == BytesOf(m.values[i]) + (d + later);
  }

  /** The items from the first that holds a byte on: a message without options takes no
      notice of empty ones. */
  function Significant(items: seq<Item>): (r: seq<Item>)
    ensures AllFit(items) ==> AllFit(r)
  {
    if items != [] && (items[0].Pad? || items[0].data == []) then Significant(items[1..]) else items
  }

  /** What any string of options means to `dhcp_parse`: the standard half. */
  lemma {:induction false} ParseMeans(items: seq<Item>, rest: Bytes, i: nat)
    requires AllFit(items) && Ends(rest) && i < 512
    ensures var r := Parse(NoOptions(), Render(items) + rest, 0);
      r.values[i] == Content(Significant(items), i) && (r.live <==> Significant(items) != [])
    decreases |items|
  {
    hide Parse, Content;
    if items == [] {
      assert Render(items) + rest == rest;
      ParseEnds(NoOptions(), rest, 0);
      ContentOfNone(i);
    } else {
      var more := Render(items[1..]) + rest;
      assert Render(items) + rest == Bytewise(items[0]) + more;
      ParseItem(NoOptions(), items[0], more, 0);
      if items[0].Pad? || items[0].data == [] {
        ParseMeans(items[1..], rest, i);
      } else {
        PutFresh(NoOptions(), items[0].code, items[0].data);
        LiveParse(Put(NoOptions(), items[0].code, items[0].data), items[1..], rest, 0, i);
        ContentOfMore(items, i);
      }
    }
  }

  lemma ContentOfNone(code: int)
    ensures Content([], code) == None
  {
  }

  lemma ContentOfMore(items: seq<Item>, code: int)
    requires items != [] && items[0].Opt?
    ensures Content(items, code) ==
            Joined(if items[0].code == code then Some(items[0].data) else None, Content(items[1..], code))
  {
    var rest := Content(items[1..], code);
    if rest.Some? {
      assert [] + rest.value == rest.value;
    } else if items[0].code == code {
      assert items[0].data + [] == items[0].data;
    }
  }

  /** The option is the text "OpenFlow", to its end or to a null character. */
  predicate Speaks(v: Option<Bytes>) {
    && v.Some? && |v.value| >= 8 && v.value[..8] == [79, 112, 101, 110, 70, 108, 111, 119]
    && (|v.value| == 8 || v.value[8] == 0)
  }

  /** The vendor half: option 43 holds items of its own, and they count if option 60
      says that the peer speaks OpenFlow. */
  lemma ReceiveMeans(items: seq<Item>, rest: Bytes, inner: seq<Item>, innerRest: Bytes, i: nat)
    requires AllFit(items) && Ends(rest) && AllFit(inner) && Ends(innerRest) && i < 256
    requires BytesOf(Content(Significant(items), 43)) == Render(inner) + innerRest
    ensures var r, s := Received(Render(items) + rest), Significant(items);
      && r.values[i] == Content(s, i)
      && r.values[256 + i] == if Speaks(Content(s, 60)) then Content(inner, i) else None
  {
    hide Parse, Content, Render;
    var m := Parse(NoOptions(), Render(items) + rest, 0);
    ParseMeans(items, rest, i);
    ParseMeans(items, rest, 43);
    ParseMeans(items, rest, 60);
    ParseMeans(items, rest, 256 + i);
    CodesAreBytes(Significant(items), 256 + i);
    if IsOpenFlow(m.values[60]) {
      if Significant(items) == [] {
        ContentOfNone(60);
      }
      LiveParse(m, inner, innerRest, 256, i);
      LiveParse(m, inner, innerRest, 256, 256 + i);
      CodesAreBytes(inner, i - 256);
      JoinedToNone(Content(inner, i));
    }
  }

  lemma {:induction false} CodesAreBytes(items: seq<Item>, code: int)
    requires code < 0 || code > 255
    ensures Content(items, code).None?
  {
    if items != [] {
      CodesAreBytes(items[1..], code);
    }
  }

  // ----- emitting

  /** How many items a value takes: all but the last hold 248 bytes. */
  function Count(n: nat): nat { if n <= 255 then 1 else 1 + (n - 255 + 247) / 248 }

  /** The items of a value: 248 bytes each, and what is left in the last. */
  function Pieces(code: Byte, data: Bytes): seq<Item> {
    var n := Count(|data|);
    seq(n, k requires 0 <= k < n => Opt(code, data[248 * k..if k + 1 < n then 248 * (k + 1) else |data|]))
  }

  lemma PiecesFit(code: Byte, data: Bytes)
    requires 1 <= code <= 254
    ensures AllFit(Pieces(code, data))
  {
  }

  lemma {:induction false} ChunksArePieces(code: Byte, data: Bytes)
    requires 1 <= code <= 254 && data != []
    ensures AllFit(Pieces(code, data)) && Chunks(code, data) == Render(Pieces(code, data))
    decreases |data|
  {
    PiecesFit(code, data);
    var p := Pieces(code, data);
    if |data| <= 255 {
      assert data[248 * 0..|data|] == data;
      assert p == [Opt(code, data)];
      assert Render(p) == Bytewise(p[0]) + Render(p[1..]);
    } else {
      var later := data[248..];
      ChunksArePieces(code, later);
      assert Count(|data|) == 1 + Count(|later|);
      var q := Pieces(code, later);
      forall k | 0 <= k < |q| ensures q[k] == p[1..][k] {
        assert later[248 * k..if k + 1 < |q| then 248 * (k + 1) else |later|]
            == data[248 * (k + 1)..if k + 1 < |q| then 248 * (k + 2) else |data|];
      }
      assert p[1..] == q;
      assert p[0] == Opt(code, data[..248]);
    }
  }

  /** The items of the options in the order of their codes. */
  function Items(values: Values, lo: nat, hi: nat, ofs: nat): seq<Item>
    requires ofs <= lo <= hi <= ofs + 256 && hi <= 512
    decreases |values|, hi - lo
  {
    if lo == hi then []
    else (if values[lo].None? then [] else Pieces(lo - ofs, values[lo].value)) + Items(values, lo + 1, hi, ofs)
  }

  lemma {:induction false} RangeIsItems(values: Values, lo: nat, hi: nat, ofs: nat)
    requires (ofs == 0 || ofs == 256) && ofs <= lo <= hi <= ofs + 256 && Encodable(values)
    ensures AllFit(Items(values, lo, hi, ofs)) && Range(values, lo, hi, ofs) == Render(Items(values, lo, hi, ofs))
    decreases hi - lo
  {
    hide Render, Pieces, PutOption, AllFit;
    if lo < hi {
      RangeIsItems(values, lo + 1, hi, ofs);
      var more := Items(values, lo + 1, hi, ofs);
      if values[lo].Some? {
        var some := Pieces(lo - ofs, values[lo].value);
        OptionIsPieces(lo - ofs, values[lo].value);
        FitsJoin(some, more);
        RenderJoins(some, more);
      } else {
        assert [] + more == more;
        assert PutOption(lo - ofs, values[lo]) == [] by { NoOption(lo - ofs); }
      }
    } else {
      RenderNone();
    }
  }

  lemma NoOption(code: Byte)
    ensures PutOption(code, None) == []
  {
  }

  lemma RenderNone()
    ensures AllFit([]) && Render([]) == []
  {
  }

  lemma FitsJoin(s: seq<Item>, t: seq<Item>)
    requires AllFit(s) && AllFit(t)
    ensures AllFit(s + t)
  {
  }

  lemma OptionIsPieces(code: Byte, data: Bytes)
    requires 1 <= code <= 254
    ensures AllFit(Pieces(code, data)) && PutOption(code, Some(data)) == Render(Pieces(code, data))
  {
    PiecesFit(code, data);
    if data == [] {
      assert Pieces(code, data) == [Opt(code, [])];
      assert Render([Opt(code, [])]) == Bytewise(Opt(code, [])) + Render([Opt(code, [])][1..]);
    } else {
      ChunksArePieces(code, data);
    }
  }

  /** The bytes of a message's options: the type, the standard options in the order of
      their codes, the vendor options wrapped into option 43, and a byte 255. */
  lemma AssembleMeans(msgType: Byte, values: Values)
    requires Encodable(values)
    ensures AllFit(Items(values, 0, 256, 0)) && AllFit(Items(values, 256, 512, 256))
    ensures var standard, vendor := Render(Items(values, 0, 256, 0)), Render(Items(values, 256, 512, 256));
      AllFit(Pieces(43, vendor)) &&
      Assemble(msgType, values) == (if msgType == 0 then [] else [53, 1, msgType]) + standard
                                   + (if vendor == [] then [] else Render(Pieces(43, vendor))) + [255]
  {
    hide Items, Render, Pieces, Range;
    RangeIsItems(values, 0, 256, 0);
    RangeIsItems(values, 256, 512, 256);
    var vendor := Render(Items(values, 256, 512, 256));
    PiecesFit(43, vendor);
    NoChunks(43);
    if vendor != [] {
      ChunksArePieces(43, vendor);
    }
  }
}
