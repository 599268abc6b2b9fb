/** What matching means for packets. */
module FlowOverlap {
  import opened BitWords
  import opened FlowKey
  import opened Flow
  import opened FlowChain
  import opened FlowProtection
  import H = HashTable

  /** The key of a packet. */
  function PacketKey(f: Fields): Key { Key(f, EXACT, 0, 0) }

  // ----- overlap

  /** Each field of a packet that two keys both match: from the key that looks at it. */
  function Common2(a: Key, b: Key): Fields {
    Fields(if a.srcMask <= b.srcMask then a.fields.nwSrc else b.fields.nwSrc,
           if a.dstMask <= b.dstMask then a.fields.nwDst else b.fields.nwDst,
           if a.wild.flags.inPort then b.fields.inPort else a.fields.inPort,
           if a.wild.flags.dlVlan then b.fields.dlVlan else a.fields.dlVlan,
           if a.wild.flags.dlType then b.fields.dlType else a.fields.dlType,
           if a.wild.flags.tpSrc then b.fields.tpSrc else a.fields.tpSrc,
           if a.wild.flags.tpDst then b.fields.tpDst else a.fields.tpDst,
           if a.wild.flags.dlSrc then b.fields.dlSrc else a.fields.dlSrc,
           if a.wild.flags.dlDst then b.fields.dlDst else a.fields.dlDst,
           if a.wild.flags.dlVlanPcp then b.fields.dlVlanPcp else a.fields.dlVlanPcp,
           if a.wild.flags.nwTos then b.fields.nwTos else a.fields.nwTos,
           if a.wild.flags.nwProto then b.fields.nwProto else a.fields.nwProto)
  }

  lemma SameUnderShorter(x: Address, y: Address, m: Mask, n: Mask)
    requires m <= n && SameUnder(x, y, m)
    ensures SameUnder(x, y, n)
  {
    assert x[..32 - n] == x[..32 - m][..32 - n] && y[..32 - n] == y[..32 - m][..32 - n];
  }

  /** Two keys match exactly if some packet is matched by both. */
  lemma MatchMeansOverlap(a: Key, b: Key)
    ensures Matches2Wild(a, b) <==> exists f :: Matches1Wild(PacketKey(f), a) && Matches1Wild(PacketKey(f), b)
  {
    if Matches2Wild(a, b) {
      assert Matches1Wild(PacketKey(Common2(a, b)), a) && Matches1Wild(PacketKey(Common2(a, b)), b);
    }
    if f :| Matches1Wild(PacketKey(f), a) && Matches1Wild(PacketKey(f), b) {
      var src, dst := Common(a.srcMask, b.srcMask), Common(a.dstMask, b.dstMask);
      SameUnderShorter(f.nwSrc, a.fields.nwSrc, a.srcMask, src);
      SameUnderShorter(f.nwSrc, b.fields.nwSrc, b.srcMask, src);
      SameUnderShorter(f.nwDst, a.fields.nwDst, a.dstMask, dst);
      SameUnderShorter(f.nwDst, b.fields.nwDst, b.dstMask, dst);
    }
  }

  /** Some packet is matched by both flows, at the same priority. */
  ghost predicate Ambiguous(f: FlowEntry, key: Key, priority: nat) {
    f.priority == priority && exists p :: Matches1Wild(PacketKey(p), f.key) && Matches1Wild(PacketKey(p), key)
  }

  /** The overlap check finds a conflict exactly if a working flow is ambiguous with the new
      one. */
  lemma ConflictMeansAmbiguous(hs: Hashes, c: Chain, key: Key, priority: nat)
    requires Ok(hs, c) && Masked(key)
    ensures HasConflict(hs, c, key, priority) <==> exists f :: InWorking(c, f) && Ambiguous(f, key, priority)
  {
    H.FastConflict(hs.h0, c.sub0, key, priority, false);
    H.FastConflict(hs.h1, c.sub1, key, priority, false);
    forall f: FlowEntry ensures Matches2Wild(f.key, key) && f.priority == priority <==> Ambiguous(f, key, priority) {
      MatchMeansOverlap(f.key, key);
    }
    hide Ambiguous, Matches2Wild, Ok;
    if f :| InWorking(c, f) && Ambiguous(f, key, priority) {
      assert Matches2Wild(f.key, key);
    }
    if H.ScanConflict(c.sub0, key, priority, false) {
      ScanFinds(c.sub0, key, priority);
    }
    if H.ScanConflict(c.sub1, key, priority, false) {
      ScanFinds(c.sub1, key, priority);
    }
  }

  lemma ScanFinds(t: H.Hash, key: Key, priority: nat)
    ensures H.ScanConflict(t, key, priority, false)
            <==> exists f :: H.Stores(t, f) && Matches2Wild(f.key, key) && f.priority == priority
  {
    if i :| 0 <= i < |t.buckets| && H.ConflictIn(t.buckets[i], key, priority, false) {
      assert H.Stores(t, t.buckets[i].value);
    }
  }

  // ----- what a match in a message describes

  /** Headers that a packet does not have are zero, and so are the two low bits of its type
      of service. */
  predicate Extracted(f: Fields) {
    && f.nwTos % 4 == 0
    && (f.dlType != ETH_P_IP ==> f.nwTos == 0 && f.nwProto == 0 && f.nwSrc == f.nwDst == Zeros(32))
    && (f.dlType != ETH_P_IP || !HasPorts(f.nwProto) ==> f.tpSrc == 0 && f.tpDst == 0)
  }

  predicate SamePrefix(x: Address, y: Address, ignored: nat) { ignored >= 32 || x[..32 - ignored] == y[..32 - ignored] }

  /** The packet is one that the message means: network fields count only if it asks for IP,
      and ports only if it asks for a protocol that has them. */
  predicate Means(m: Match, f: Fields) {
    var g, w := m.fields, m.wild.flags;
    && (w.inPort || f.inPort == g.inPort) && (w.dlVlan || f.dlVlan == g.dlVlan)
    && (w.dlVlanPcp || f.dlVlanPcp == g.dlVlanPcp) && (w.dlSrc || f.dlSrc == g.dlSrc)
    && (w.dlDst || f.dlDst == g.dlDst) && (w.dlType || f.dlType == g.dlType)
    && (!w.dlType && g.dlType == ETH_P_IP ==>
          && (w.nwTos || f.nwTos == g.nwTos / 4 * 4) && (w.nwProto || f.nwProto == g.nwProto)
          && SamePrefix(f.nwSrc, g.nwSrc, m.wild.srcBits) && SamePrefix(f.nwDst, g.nwDst, m.wild.dstBits)
          && (!w.nwProto && HasPorts(g.nwProto) ==>
                (w.tpSrc || f.tpSrc == g.tpSrc) && (w.tpDst || f.tpDst == g.tpDst)))
  }

  /** The key made from a message matches exactly the packets that it means. */
  lemma ExtractMeans(m: Match, f: Fields)
    requires Extracted(f)
    ensures Matches1Wild(PacketKey(f), ExtractMatch(m)) <==> Means(m, f)
  {
    assert f.nwSrc[..0] == [] && f.nwDst[..0] == [] && m.fields.nwSrc[..0] == [] && m.fields.nwDst[..0] == [];
    assert Zeros(32)[..0] == [];
  }
}
