/** Flow keys, wildcards and the matchers of `datapath/flow.c`. */
module FlowKey {
  // The 22 wildcard bits of a key are modelled as ten flags and two 6-bit counts
  // of ignored low address bits.  IPv4 addresses are modelled by their bits, other
  // fields by their values.  A mask word is always a prefix mask and is modelled by
  // the number of low bits it ignores.

  import opened BitWords

  type Bits6 = n: nat | n < 64
  type Mask = n: nat | n <= 32  // ignores the n low bits of an address
  type Address = x: Bits | |x| == 32 witness Zeros(32)

  const ETH_P_IP := 0x0800
  const IPPROTO_ICMP := 1
  const IPPROTO_TCP := 6
  const IPPROTO_UDP := 17

  datatype Flags = Flags(inPort: bool, dlVlan: bool, dlVlanPcp: bool, dlSrc: bool, dlDst: bool,
                         dlType: bool, nwTos: bool, nwProto: bool, tpSrc: bool, tpDst: bool)

  datatype Wild = Wild(flags: Flags, srcBits: Bits6, dstBits: Bits6)

  const NO_FLAGS := Flags(false, false, false, false, false, false, false, false, false, false)
  const ALL_FLAGS := Flags(true, true, true, true, true, true, true, true, true, true)
  const EXACT := Wild(NO_FLAGS, 0, 0)
  const OFPFW_ALL := Wild(ALL_FLAGS, 63, 63)

  /** The part of a key that identifies packets; what is hashed and compared. */
  datatype Fields = Fields(
    nwSrc: Address, nwDst: Address, inPort: nat, dlVlan: nat, dlType: nat, tpSrc: nat, tpDst: nat,
    dlSrc: nat, dlDst: nat, dlVlanPcp: nat, nwTos: nat, nwProto: nat)

  datatype Key = Key(fields: Fields, wild: Wild, srcMask: Mask, dstMask: Mask)

  /** The wire form of a key in a flow-mod message (`struct ofp_match`). */
  datatype Match = Match(wild: Wild, fields: Fields)

  // ----- matching

  function Either(v: Flags, w: Flags): Flags {
    Flags(v.inPort || w.inPort, v.dlVlan || w.dlVlan, v.dlVlanPcp || w.dlVlanPcp, v.dlSrc || w.dlSrc,
          v.dlDst || w.dlDst, v.dlType || w.dlType, v.nwTos || w.nwTos, v.nwProto || w.nwProto,
          v.tpSrc || w.tpSrc, v.tpDst || w.tpDst)
  }

  /** The addresses agree on the bits the mask keeps. */
  predicate SameUnder(x: Address, y: Address, mask: Mask) { x[..32 - mask] == y[..32 - mask] }

  function Common(m: Mask, n: Mask): Mask { if m < n then n else m }

  predicate FieldsMatch(a: Fields, b: Fields, w: Flags, srcMask: Mask, dstMask: Mask) {
    && (w.inPort || a.inPort == b.inPort)
    && (w.dlVlan || a.dlVlan == b.dlVlan)
    && (w.dlVlanPcp || a.dlVlanPcp == b.dlVlanPcp)
    && (w.dlSrc || a.dlSrc == b.dlSrc)
    && (w.dlDst || a.dlDst == b.dlDst)
    && (w.dlType || a.dlType == b.dlType)
    && (w.nwTos || a.nwTos == b.nwTos)
    && (w.nwProto || a.nwProto == b.nwProto)
    && SameUnder(a.nwSrc, b.nwSrc, srcMask)
    && SameUnder(a.nwDst, b.nwDst, dstMask)
    && (w.tpSrc || a.tpSrc == b.tpSrc)
    && (w.tpDst || a.tpDst == b.tpDst)
  }

  predicate Matches1Wild(a: Key, b: Key) {
    FieldsMatch(a.fields, b.fields, b.wild.flags, b.srcMask, b.dstMask)
  }

  predicate Matches2Wild(a: Key, b: Key) {
    FieldsMatch(a.fields, b.fields, Either(a.wild.flags, b.wild.flags),
                Common(a.srcMask, b.srcMask), Common(a.dstMask, b.dstMask))
  }

  predicate MatchesDesc(t: Key, d: Key, strict: bool) {
    (strict ==> d.wild == t.wild) && Matches1Wild(t, d)
  }

  predicate Matches2Desc(t: Key, d: Key, strict: bool) {
    (strict ==> d.wild == t.wild) && Matches2Wild(t, d)
  }

  // ----- building keys

  /** `n` low bits of the address are ignored; 32 or more ignore all of it. */
  function MakeNwMask(n: Bits6): Mask { if n < 32 then n else 32 }

  predicate HasPorts(proto: nat) {
    proto == IPPROTO_TCP || proto == IPPROTO_UDP || proto == IPPROTO_ICMP
  }

  function WildPorts(w: Wild, on: bool): Wild { w.(flags := w.flags.(tpSrc := on, tpDst := on)) }

  function WildNetwork(w: Wild, on: bool): Wild {
    var bits := if on then 63 else 0;
    Wild(w.flags.(nwTos := on, nwProto := on), bits, bits)
  }

  /** `flow_extract_match`: headers that cannot be looked at are zeroed; they are
      wildcarded when their type is unknown, exact when they are known to be absent. */
  function ExtractMatch(m: Match): Key {
    var f := m.fields;
    var w := m.wild;
    var bare := f.(nwTos := 0, nwProto := 0, nwSrc := Zeros(32), nwDst := Zeros(32), tpSrc := 0, tpDst := 0);
    if w.flags.dlType then WithMasks(bare, WildPorts(WildNetwork(w, true), true))
    else if f.dlType == ETH_P_IP then
      var ip := bare.(nwTos := f.nwTos / 4 * 4, nwProto := f.nwProto,
                      nwSrc := f.nwSrc, nwDst := f.nwDst);
      if w.flags.nwProto then WithMasks(ip, WildPorts(w, true))
      else if HasPorts(f.nwProto) then WithMasks(ip.(tpSrc := f.tpSrc, tpDst := f.tpDst), w)
      else WithMasks(ip, WildPorts(w, false))
    else WithMasks(bare, WildPorts(WildNetwork(w, false), false))
  }

  function WithMasks(f: Fields, w: Wild): Key {
    Key(f, w, MakeNwMask(w.srcBits), MakeNwMask(w.dstBits))
  }

  function FillMatch(k: Key): Match { Match(k.wild, k.fields) }

  // ----- properties

  function MaskWord(n: Mask): Address { Ones(32 - n) + Zeros(n) }

  /** The code compares addresses by masking their difference. */
  lemma SameUnderMaskWord(x: Address, y: Address, n: Mask)
    ensures SameUnder(x, y, n) <==> And(Xor(x, y), MaskWord(n)) == Zeros(32)
  {
    var d := And(Xor(x, y), MaskWord(n));
    assert forall i :: 0 <= i < 32 ==> (d[i] <==> i < 32 - n && x[i] != y[i]);
    if d == Zeros(32) {
      forall i | 0 <= i < 32 - n ensures x[i] == y[i] { assert !Zeros(32)[i]; }
    } else {
      var i :| 0 <= i < 32 && d[i] != Zeros(32)[i];
      assert x[..32 - n][i] != y[..32 - n][i];
    }
  }

  /** Masking with the common mask of two keys: the code ands the two mask words. */
  lemma CommonMaskWord(m: Mask, n: Mask)
    ensures MaskWord(Common(m, n)) == And(MaskWord(m), MaskWord(n))
  {
  }

  /** Two addresses compared under a mask word, as the code does. */
  predicate MaskedEqual(x: Address, y: Address, mask: Address) { And(Xor(x, y), mask) == Zeros(32) }

  /** Matching, in the words of the code: the mask of the description, or of both keys. */
  lemma MatchesByMaskWords(a: Key, b: Key)
    ensures Matches1Wild(a, b) <==>
            && FieldsMatch(a.fields, b.fields, b.wild.flags, 32, 32)
            && MaskedEqual(a.fields.nwSrc, b.fields.nwSrc, MaskWord(b.srcMask))
            && MaskedEqual(a.fields.nwDst, b.fields.nwDst, MaskWord(b.dstMask))
    ensures Matches2Wild(a, b) <==>
            && FieldsMatch(a.fields, b.fields, Either(a.wild.flags, b.wild.flags), 32, 32)
            && MaskedEqual(a.fields.nwSrc, b.fields.nwSrc, And(MaskWord(a.srcMask), MaskWord(b.srcMask)))
            && MaskedEqual(a.fields.nwDst, b.fields.nwDst, And(MaskWord(a.dstMask), MaskWord(b.dstMask)))
  {
    CommonMaskWord(a.srcMask, b.srcMask);
    CommonMaskWord(a.dstMask, b.dstMask);
    SameUnderMaskWord(a.fields.nwSrc, b.fields.nwSrc, b.srcMask);
    SameUnderMaskWord(a.fields.nwDst, b.fields.nwDst, b.dstMask);
    SameUnderMaskWord(a.fields.nwSrc, b.fields.nwSrc, Common(a.srcMask, b.srcMask));
    SameUnderMaskWord(a.fields.nwDst, b.fields.nwDst, Common(a.dstMask, b.dstMask));
  }

  /** The first bits of `x`, and all bits of `y` that the mask drops. */
  function Prefixed(x: Address, y: Address, mask: Mask): Address { x[..32 - mask] + y[32 - mask..] }

  /** The fields of `b`, except that those which `v` or `w` ignores are taken from `a`. */
  function Overlaid(a: Fields, b: Fields, v: Flags, w: Flags, srcMask: Mask, dstMask: Mask): Fields {
    b.(inPort := if v.inPort || w.inPort then a.inPort else b.inPort,
       dlVlan := if v.dlVlan || w.dlVlan then a.dlVlan else b.dlVlan,
       dlVlanPcp := if v.dlVlanPcp || w.dlVlanPcp then a.dlVlanPcp else b.dlVlanPcp,
       dlSrc := if v.dlSrc || w.dlSrc then a.dlSrc else b.dlSrc,
       dlDst := if v.dlDst || w.dlDst then a.dlDst else b.dlDst,
       dlType := if v.dlType || w.dlType then a.dlType else b.dlType,
       nwTos := if v.nwTos || w.nwTos then a.nwTos else b.nwTos,
       nwProto := if v.nwProto || w.nwProto then a.nwProto else b.nwProto,
       tpSrc := if v.tpSrc || w.tpSrc then a.tpSrc else b.tpSrc,
       tpDst := if v.tpDst || w.tpDst then a.tpDst else b.tpDst,
       nwSrc := Prefixed(b.nwSrc, a.nwSrc, srcMask), nwDst := Prefixed(b.nwDst, a.nwDst, dstMask))
  }

  lemma PrefixedIsSame(x: Address, y: Address, mask: Mask)
    ensures SameUnder(y, x, mask) <==> y == Prefixed(x, y, mask)
  {
    assert y == y[..32 - mask] + y[32 - mask..];
    if y == Prefixed(x, y, mask) {
      assert Prefixed(x, y, mask)[..32 - mask] == x[..32 - mask];
    }
  }

  /** A key matches another exactly if it is what becomes of that key when every field and
      every address bit that the other, or either of them, ignores is overwritten. */
  lemma MatchesFieldByField(a: Key, b: Key)
    ensures Matches1Wild(a, b) <==>
            a.fields == Overlaid(a.fields, b.fields, NO_FLAGS, b.wild.flags, b.srcMask, b.dstMask)
    ensures Matches2Wild(a, b) <==>
            a.fields == Overlaid(a.fields, b.fields, a.wild.flags, b.wild.flags,
                                 if a.srcMask > b.srcMask then a.srcMask else b.srcMask,
                                 if a.dstMask > b.dstMask then a.dstMask else b.dstMask)
  {
    PrefixedIsSame(b.fields.nwSrc, a.fields.nwSrc, b.srcMask);
    PrefixedIsSame(b.fields.nwDst, a.fields.nwDst, b.dstMask);
    PrefixedIsSame(b.fields.nwSrc, a.fields.nwSrc, Common(a.srcMask, b.srcMask));
    PrefixedIsSame(b.fields.nwDst, a.fields.nwDst, Common(a.dstMask, b.dstMask));
    hide SameUnder, Prefixed;
  }

  /** The masks say what the wildcard counts say. */
  predicate Masked(k: Key) {
    k.srcMask == MakeNwMask(k.wild.srcBits) && k.dstMask == MakeNwMask(k.wild.dstBits)
  }

  /** Normalised keys: those `flow_extract_match` produces. */
  ghost predicate Normal(k: Key) { exists m :: k == ExtractMatch(m) }

  lemma NormalIsMasked(k: Key)
    requires Normal(k)
    ensures Masked(k)
  {
  }

  /** Writing a normalised key to the wire and reading it back changes nothing. */
  lemma ExtractFillIdentity(k: Key)
    requires Normal(k)
    ensures ExtractMatch(FillMatch(k)) == k
  {
    var m :| k == ExtractMatch(m);
    ExtractTwice(m);
  }

  lemma ExtractTwice(m: Match)
    ensures ExtractMatch(FillMatch(ExtractMatch(m))) == ExtractMatch(m)
  {
    var f := m.fields;
    var w := m.wild;
    var bare := f.(nwTos := 0, nwProto := 0, nwSrc := Zeros(32), nwDst := Zeros(32), tpSrc := 0, tpDst := 0);
    if w.flags.dlType {
      var v := WildPorts(WildNetwork(w, true), true);
      assert WildPorts(WildNetwork(v, true), true) == v;
      assert ExtractMatch(m) == WithMasks(bare, v);
    } else if f.dlType != ETH_P_IP {
      var v := WildPorts(WildNetwork(w, false), false);
      assert WildPorts(WildNetwork(v, false), false) == v;
      assert ExtractMatch(m) == WithMasks(bare, v);
    } else {
      assert f.nwTos / 4 * 4 / 4 * 4 == f.nwTos / 4 * 4;
      var ip := f.(nwTos := f.nwTos / 4 * 4, tpSrc := 0, tpDst := 0);
      if w.flags.nwProto {
        assert ExtractMatch(m) == WithMasks(ip, WildPorts(w, true));
      } else if HasPorts(f.nwProto) {
        assert ExtractMatch(m) == WithMasks(ip.(tpSrc := f.tpSrc, tpDst := f.tpDst), w);
      } else {
        assert ExtractMatch(m) == WithMasks(ip, WildPorts(w, false));
      }
    }
  }

  /** With no wildcards, matching is equality of the fields. */
  lemma ExactMatch(a: Key, b: Key)
    requires Masked(b) && b.wild == EXACT
    ensures Matches1Wild(a, b) <==> a.fields == b.fields
    ensures Masked(a) && a.wild == EXACT ==> (Matches2Wild(a, b) <==> a.fields == b.fields)
  {
    assert forall x: Address :: x[..32] == x;
  }

  /** Entries with the same wildcards match by an equivalence relation. */
  lemma SameWildcardsEquivalence(a: Key, b: Key, c: Key)
    requires Masked(a) && Masked(b) && Masked(c) && a.wild == b.wild == c.wild
    ensures Matches2Wild(a, a)
    ensures Matches2Wild(a, b) ==> Matches2Wild(b, a)
    ensures Matches2Wild(a, b) && Matches2Wild(b, c) ==> Matches2Wild(a, c)
  {
  }

  /** The description that matches everything. */
  const ALL_KEY := Key(Fields(Zeros(32), Zeros(32), 0, 0, 0, 0, 0, 0, 0, 0, 0, 0), OFPFW_ALL, 32, 32)

  lemma AllKeyMatches(k: Key)
    ensures Masked(ALL_KEY) && Matches1Wild(k, ALL_KEY) && Matches2Wild(ALL_KEY, k)
  {
  }
}
