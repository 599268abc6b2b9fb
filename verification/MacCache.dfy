/** What the MAC learning table of `lib/mac-learning.c` is meant to be: a cache of at
    most 1024 records in the order in which they were last learned. */
module MacCache {
  const MAC_MAX := 1024
  const OFPP_FLOOD: int := 0xfffb
  const LIFETIME := 60

  /** An Ethernet address on a VLAN: the low bit of its first octet, which marks
      multicast addresses, and its other bits. */
  datatype Key = Key(group: bool, mac: nat, vlan: nat)

  predicate Multicast(k: Key) { k.group }

  datatype Rec = Rec(key: Key, port: int, expires: int)

  /** Least recently learned first. */
  type Cache = seq<Rec>

  function Find(c: Cache, k: Key): (i: nat)
    ensures i <= |c| && (i < |c| ==> c[i].key == k) && forall j :: 0 <= j < i ==> c[j].key != k
  {
    if c == [] || c[0].key == k then 0 else 1 + Find(c[1..], k)
  }

  predicate Present(c: Cache, k: Key) { Find(c, k) < |c| }

  function Drop(c: Cache, i: nat): Cache
    requires i < |c|
  {
    c[..i] + c[i + 1..]
  }

  /** The record that goes when this key is learned: its own, or none, or, for a new
      key in a full cache, the least recently learned one. */
  function Victim(c: Cache, k: Key): nat {
    if Present(c, k) then Find(c, k) else if |c| < MAC_MAX then |c| else 0
  }

  function Kept(c: Cache, k: Key): Cache { if Victim(c, k) < |c| then Drop(c, Victim(c, k)) else c }

  function Learn(c: Cache, k: Key, port: int, now: int): Cache {
    if Multicast(k) then c else Kept(c, k) + [Rec(k, port, now + LIFETIME)]
  }

  function Lookup(c: Cache, k: Key): int {
    if !Multicast(k) && Present(c, k) then c[Find(c, k)].port else OFPP_FLOOD
  }

  function Expire(c: Cache, now: int): Cache {
    if c != [] && now >= c[0].expires then Expire(c[1..], now) else c
  }

  // ----- runs

  datatype Event = LearnEvent(key: Key, port: int, at: int) | ExpireEvent(at: int) | FlushEvent(at: int)

  function Step(c: Cache, e: Event): Cache {
    match e
    case LearnEvent(k, port, now) => Learn(c, k, port, now)
    case ExpireEvent(now) => Expire(c, now)
    case FlushEvent(_) => []
  }

  /** The cache after the first `n` events. */
  function Run(events: seq<Event>, n: nat): Cache
    requires n <= |events|
  {
    if n == 0 then [] else Step(Run(events, n - 1), events[n - 1])
  }

  /** The clock does not go backwards. */
  predicate Monotone(events: seq<Event>) {
    forall i, j :: 0 <= i < j < |events| ==> events[i].at <= events[j].at
  }

  predicate Unique(c: Cache) { forall i, j :: 0 <= i < j < |c| ==> c[i].key != c[j].key }

  /** The order of learning is the order of expiry. */
  predicate Sorted(c: Cache, now: int) {
    && (forall i, j :: 0 <= i < j < |c| ==> c[i].expires <= c[j].expires)
    && (forall i :: 0 <= i < |c| ==> c[i].expires <= now + LIFETIME && !Multicast(c[i].key))
  }

  predicate Sound(c: Cache, now: int) { |c| <= MAC_MAX && Unique(c) && Sorted(c, now) }

  lemma KeptSound(c: Cache, k: Key, now: int)
    requires Sound(c, now)
    ensures Sound(Kept(c, k), now) && |Kept(c, k)| < MAC_MAX
    ensures forall i :: 0 <= i < |Kept(c, k)| ==> Kept(c, k)[i].key != k
  {
    var v := Victim(c, k);
    forall i | 0 <= i < |Kept(c, k)| ensures Kept(c, k)[i] == c[if i < v then i else i + 1] {}
  }

  lemma {:induction false} ExpireSuffix(c: Cache, now: int)
    ensures |Expire(c, now)| <= |c| && Expire(c, now) == c[|c| - |Expire(c, now)|..]
    ensures Expire(c, now) != [] ==> now < Expire(c, now)[0].expires
    ensures forall i :: 0 <= i < |c| - |Expire(c, now)| ==> now >= c[i].expires
  {
    if c != [] && now >= c[0].expires {
      ExpireSuffix(c[1..], now);
      forall i | 0 <= i < |c| - |Expire(c, now)| ensures now >= c[i].expires {
        assert i > 0 ==> c[i] == c[1..][i - 1];
      }
    }
  }

  lemma AppendSound(c: Cache, r: Rec, now: int, at: int)
    requires Sound(c, now) && |c| < MAC_MAX && now <= at && r.expires == at + LIFETIME && !Multicast(r.key)
    requires forall i :: 0 <= i < |c| ==> c[i].key != r.key
    ensures Sound(c + [r], at)
  {
  }

  lemma SuffixSound(c: Cache, s: nat, now: int, at: int)
    requires Sound(c, now) && s <= |c| && now <= at
    ensures Sound(c[s..], at)
  {
  }

  lemma StepSound(c: Cache, e: Event, now: int)
    requires Sound(c, now) && now <= e.at
    ensures Sound(Step(c, e), e.at)
  {
    SuffixSound(c, 0, now, e.at);
    assert c[0..] == c && Sound([], e.at);
    hide Sound, Kept, Find, Expire;
    match e
    case LearnEvent(k, port, at) =>
      KeptSound(c, k, now);
      if !Multicast(k) {
        AppendSound(Kept(c, k), Rec(k, port, at + LIFETIME), now, at);
      }
    case ExpireEvent(at) =>
      ExpireSuffix(c, at);
      SuffixSound(c, |c| - |Expire(c, at)|, now, at);
    case FlushEvent(_) =>
  }

  /** In every run keys are unique, at most 1024 are cached, and they are in the order
      of expiry. */
  lemma {:induction false} RunSound(events: seq<Event>, n: nat, now: int)
    requires n <= |events| && Monotone(events) && forall i :: 0 <= i < n ==> events[i].at <= now
    ensures Sound(Run(events, n), now)
    decreases n
  {
    if n > 0 {
      RunSound(events, n - 1, events[n - 1].at);
      StepSound(Run(events, n - 1), events[n - 1], events[n - 1].at);
    }
  }

  /** Expiry, which looks only at the front, removes exactly the expired records. */
  lemma ExpireIsExact(c: Cache, now: int, r: Rec)
    requires forall i, j :: 0 <= i < j < |c| ==> c[i].expires <= c[j].expires
    ensures r in Expire(c, now) <==> r in c && now < r.expires
  {
    ExpireSuffix(c, now);
    var k := |c| - |Expire(c, now)|;
    if r in c && now < r.expires {
      var i :| 0 <= i < |c| && c[i] == r;
      assert i >= k && Expire(c, now)[i - k] == r;
    }
    if r in Expire(c, now) {
      var i :| 0 <= i < |Expire(c, now)| && Expire(c, now)[i] == r;
      assert c[k].expires <= c[k + i].expires;
    }
  }

  // ----- the history of one key

  /** What a key alone remembers: where and until when it was last learned, and which
      other keys were learned since. */
  datatype Memory = Gone | Held(port: int, expires: int, others: set<Key>)

  function Size(s: set<Key>): nat { |s| }

  function Remember(m: Memory, k: Key, e: Event): Memory {
    match e
    case LearnEvent(key, port, now) =>
      if Multicast(key) then m
      else if key == k then Held(port, now + LIFETIME, {})
      else if m.Gone? || Size(m.others + {key}) >= MAC_MAX then Gone
      else m.(others := m.others + {key})
    case ExpireEvent(now) => if m.Held? && now >= m.expires then Gone else m
    case FlushEvent(_) => Gone
  }

  function MemoryOf(events: seq<Event>, n: nat, k: Key): Memory
    requires n <= |events|
  {
    if n == 0 then Gone else Remember(MemoryOf(events, n - 1, k), k, events[n - 1])
  }

  function KeySet(c: Cache): set<Key> { set i | 0 <= i < |c| :: c[i].key }

  lemma {:induction false} KeySetSize(c: Cache)
    requires Unique(c)
    ensures |KeySet(c)| == |c|
  {
    if c != [] {
      var d := c[..|c| - 1];
      KeySetSize(d);
      KeySetAppend(d, c[|c| - 1]);
      assert d + [c[|c| - 1]] == c;
    }
  }

  lemma KeySetAppend(c: Cache, r: Rec)
    ensures KeySet(c + [r]) == KeySet(c) + {r.key}
  {
    forall x | x in KeySet(c) + {r.key} ensures x in KeySet(c + [r]) {
      if x in KeySet(c) {
        var i :| 0 <= i < |c| && c[i].key == x;
        assert (c + [r])[i].key == x;
      } else {
        assert (c + [r])[|c|].key == x;
      }
    }
  }

  lemma KeySetDrop(c: Cache, i: nat)
    requires i < |c| && Unique(c)
    ensures KeySet(Drop(c, i)) == KeySet(c) - {c[i].key}
  {
    var d := Drop(c, i);
    forall x | x in KeySet(d) ensures x in KeySet(c) - {c[i].key} {
      var j :| 0 <= j < |d| && d[j].key == x;
      assert d[j] == c[if j < i then j else j + 1];
    }
    forall x | x in KeySet(c) - {c[i].key} ensures x in KeySet(d) {
      var j :| 0 <= j < |c| && c[j].key == x;
      assert c[j] == d[if j < i then j else j - 1];
    }
  }

  /** The cache holds the key at `i` as its memory says, and behind it stand exactly
      the keys learned since. */
  predicate HeldAt(c: Cache, k: Key, m: Memory, i: nat) {
    && m.Held? && i < |c| && c[i] == Rec(k, m.port, m.expires) && m.others == KeySet(c[i + 1..])
  }

  predicate Agrees(c: Cache, k: Key, m: Memory) {
    if m.Gone? then !Present(c, k) else HeldAt(c, k, m, Find(c, k))
  }

  lemma FindIs(c: Cache, k: Key, i: nat)
    requires Unique(c) && i < |c| && c[i].key == k
    ensures Find(c, k) == i
  {
  }

  lemma DropHeld(c: Cache, k: Key, m: Memory, i: nat, f: nat)
    requires Unique(c) && HeldAt(c, k, m, i) && f < |c| && f != i
    ensures if f < i then HeldAt(Drop(c, f), k, m, i - 1)
            else HeldAt(Drop(c, f), k, m.(others := m.others - {c[f].key}), i)
  {
    if f < i {
      assert Drop(c, f)[i - 1 + 1..] == c[i + 1..];
    } else {
      assert Drop(c, f)[i + 1..] == Drop(c[i + 1..], f - (i + 1));
      KeySetDrop(c[i + 1..], f - (i + 1));
    }
  }

  lemma AppendHeld(c: Cache, k: Key, m: Memory, i: nat, r: Rec)
    requires HeldAt(c, k, m, i)
    ensures HeldAt(c + [r], k, m.(others := m.others + {r.key}), i)
  {
    assert (c + [r])[i + 1..] == c[i + 1..] + [r];
    KeySetAppend(c[i + 1..], r);
  }

  lemma HeldAgrees(c: Cache, k: Key, m: Memory, i: nat)
    requires Unique(c) && HeldAt(c, k, m, i)
    ensures Agrees(c, k, m) && Size(m.others) == |c| - i - 1
  {
    FindIs(c, k, i);
    KeySetSize(c[i + 1..]);
  }

  lemma ReplaceHeld(c: Cache, k: Key, m: Memory, i: nat, v: nat, r: Rec, d: Cache)
    requires Unique(c) && HeldAt(c, k, m, i) && v != i
    requires i < v < |c| ==> c[v].key == r.key
    requires d == (if v < |c| then Drop(c, v) else c) + [r]
    ensures HeldAt(d, k, m.(others := m.others + {r.key}), if v < i then i - 1 else i)
  {
    HeldInside(c, k, m, i);
    hide Unique, HeldAt, Drop;
    if v < |c| {
      DropHeld(c, k, m, i, v);
      if v < i {
        AppendHeld(Drop(c, v), k, m, i - 1, r);
      } else {
        AppendHeld(Drop(c, v), k, m.(others := m.others - {r.key}), i, r);
        assert m.others - {r.key} + {r.key} == m.others + {r.key};
      }
    } else {
      AppendHeld(c, k, m, i, r);
    }
  }

  lemma HeldInside(c: Cache, k: Key, m: Memory, i: nat)
    requires HeldAt(c, k, m, i)
    ensures i < |c| && c[i].key == k && m.Held?
  {
  }

  lemma StepHeld(c: Cache, k: Key, m: Memory, i: nat, e: Event, j: nat)
    requires Unique(c) && HeldAt(c, k, m, i)
    requires e.LearnEvent? && !Multicast(e.key) && e.key != k
    requires i > 0 || Present(c, e.key) || |c| < MAC_MAX
    requires j == if Victim(c, e.key) < i then i - 1 else i
    ensures HeldAt(Step(c, e), k, m.(others := m.others + {e.key}), j)
  {
    HeldInside(c, k, m, i);
    hide HeldAt, Unique;
    ReplaceHeld(c, k, m, i, Victim(c, e.key), Rec(e.key, e.port, e.at + LIFETIME), Step(c, e));
  }

  /** Learning another key while this one stays. */
  lemma LearnOtherKeeps(c: Cache, k: Key, m: Memory, i: nat, e: Event, now: int)
    requires Sound(c, now) && HeldAt(c, k, m, i)
    requires e.LearnEvent? && !Multicast(e.key) && e.key != k && now <= e.at
    requires i > 0 || Present(c, e.key) || |c| < MAC_MAX
    ensures Agrees(Step(c, e), k, Remember(m, k, e))
  {
    HeldInside(c, k, m, i);
    StepSound(c, e, now);
    hide HeldAt, Unique, Sorted, Agrees, KeySet, Step, Victim, Find, Present, Size, Multicast;
    var j: nat := if Victim(c, e.key) < i then i - 1 else i;
    StepHeld(c, k, m, i, e, j);
    HeldAgrees(Step(c, e), k, m.(others := m.others + {e.key}), j);
  }

  lemma AbsentStays(c: Cache, k: Key, e: Event)
    requires e.LearnEvent? && e.key != k && !Present(c, k)
    ensures !Present(Step(c, e), k)
  {
    assert forall i :: 0 <= i < |c| ==> c[i].key != k;
    assert forall i :: 0 <= i < |Kept(c, e.key)| ==> Kept(c, e.key)[i] in c;
  }

  /** The least recently learned key of a full cache gives way to a new one. */
  lemma Evicted(c: Cache, k: Key, m: Memory, e: Event, now: int)
    requires Sound(c, now) && HeldAt(c, k, m, 0) && |c| == MAC_MAX
    requires e.LearnEvent? && !Multicast(e.key) && e.key != k && !Present(c, e.key)
    ensures !Present(Step(c, e), k) && Remember(m, k, e) == Gone
  {
    HeldAgrees(c, k, m, 0);
    assert e.key !in m.others;
    assert Drop(c, 0) == c[1..];
    AbsentStays(c[1..], k, e);
  }

  lemma LearnAgrees(c: Cache, k: Key, m: Memory, e: Event, now: int)
    requires Sound(c, now) && Agrees(c, k, m) && e.LearnEvent? && now <= e.at
    ensures Agrees(Step(c, e), k, Remember(m, k, e))
  {
    if !Multicast(e.key) {
      if e.key == k {
        StepSound(c, e, now);
        var last := |Step(c, e)| - 1;
        assert Step(c, e)[last + 1..] == [];
        hide Kept;
        FindIs(Step(c, e), k, last);
      } else if m.Gone? {
        AbsentStays(c, k, e);
      } else if Find(c, k) == 0 && !Present(c, e.key) && |c| == MAC_MAX {
        Evicted(c, k, m, e, now);
      } else {
        LearnOtherKeeps(c, k, m, Find(c, k), e, now);
      }
    }
  }

  lemma ExpireAgrees(c: Cache, k: Key, m: Memory, at: int, now: int)
    requires Sound(c, now) && HeldAt(c, k, m, Find(c, k)) && now <= at
    ensures if at < m.expires then Agrees(Expire(c, at), k, m) else !Present(Expire(c, at), k)
  {
    ExpireSuffix(c, at);
    var d := Expire(c, at);
    var i, s := Find(c, k), |c| - |d|;
    hide Expire, KeySet, Size;
    if at < m.expires {
      assert d[i - s] == c[i] && d[i - s + 1..] == c[i + 1..];
      HeldAgrees(d, k, m, i - s);
    } else {
      forall j | s <= j < |c| ensures at < c[j].expires { assert d[0] == c[s]; }
      assert i < s;
      assert forall j :: 0 <= j < |d| ==> d[j] == c[s + j];
    }
  }

  lemma StepAgrees(c: Cache, k: Key, m: Memory, e: Event, now: int)
    requires Sound(c, now) && Agrees(c, k, m) && now <= e.at
    ensures Agrees(Step(c, e), k, Remember(m, k, e))
  {
    match e
    case LearnEvent(_, _, _) => LearnAgrees(c, k, m, e, now);
    case ExpireEvent(at) =>
      if m.Held? {
        ExpireAgrees(c, k, m, at, now);
      } else {
        ExpireSuffix(c, at);
        assert forall j :: 0 <= j < |Expire(c, at)| ==> Expire(c, at)[j] in c;
      }
    case FlushEvent(_) =>
  }

  /** An exact least-recently-learned cache: in every run with a non-decreasing clock a
      lookup finds the port that was last learned for the key, unless since then the
      table was flushed, the record expired, or 1024 other keys were learned. */
  lemma {:induction false} LookupIsLastLearned(events: seq<Event>, n: nat, k: Key)
    requires n <= |events| && Monotone(events)
    ensures Agrees(Run(events, n), k, MemoryOf(events, n, k))
    ensures Lookup(Run(events, n), k) ==
            if MemoryOf(events, n, k).Held? then MemoryOf(events, n, k).port else OFPP_FLOOD
    decreases n
  {
    if n > 0 {
      LookupIsLastLearned(events, n - 1, k);
      RunSound(events, n - 1, events[n - 1].at);
      StepAgrees(Run(events, n - 1), k, MemoryOf(events, n - 1, k), events[n - 1], events[n - 1].at);
      RunSound(events, n, events[n - 1].at);
    }
  }
}
