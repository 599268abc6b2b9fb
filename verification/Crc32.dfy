/** The table-driven cyclic redundancy check of `datapath/crc32.c`, which the hash
    tables of the datapath use: it is the remainder of a polynomial division. */
module Crc32 {
  import opened Prelude
  import opened BitWords

  type Word = x: Bits | |x| == 32 witness Zeros(32)
  type Byte = n: nat | n < 256

  // ----- polynomial division

  /** The remainder of `m` divided by x^32 plus the polynomial `p`, by the school
      method: while a bit stands left of the last 32, subtract the divisor there. */
  function Remainder(m: Bits, p: Word): Word
    requires |m| >= 32
    decreases |m|
  {
    if |m| == 32 then m
    else if m[0] then Remainder(Xor(m[1..33], p) + m[33..], p)
    else Remainder(m[1..], p)
  }

  function MessageBits(data: seq<Byte>): Bits {
    if data == [] then [] else MessageBits(data[..|data| - 1]) + BitsOf(data[|data| - 1], 8)
  }

  // ----- the register

  /** One step of the register: shift left, and subtract when a bit falls out. */
  function Step(w: Word, p: Word): Word {
    var shifted: Word := w[1..] + [false];
    if w[0] then Xor(shifted, p) else shifted
  }

  function Steps(w: Word, p: Word, n: nat): Word
    decreases n
  {
    if n == 0 then w else Steps(Step(w, p), p, n - 1)
  }

  /** Feed the bits of a message, one at a time, to the register. */
  function Serial(r: Word, m: Bits, p: Word): Word
    decreases |m|
  {
    if m == [] then r
    else Serial(Step(r[0 := r[0] != m[0]], p), m[1..], p)
  }

  /** An entry of the table: the eight steps that shift out one byte. */
  function Entry(b: Bits, p: Word): Word
    requires |b| == 8
  {
    Steps(b + Zeros(24), p, 8)
  }

  // ----- shifting eight bits at once

  lemma StepXor(x: Word, y: Word, p: Word)
    ensures Step(Xor(x, y), p) == Xor(Step(x, p), Step(y, p))
  {
  }

  /** The steps are linear. */
  lemma {:induction false} StepsXor(x: Word, y: Word, p: Word, n: nat)
    ensures Steps(Xor(x, y), p, n) == Xor(Steps(x, p, n), Steps(y, p, n))
    decreases n
  {
    if n > 0 {
      StepXor(x, y, p);
      StepsXor(Step(x, p), Step(y, p), p, n - 1);
    }
  }

  lemma {:induction false} StepsZeros(z: Bits, p: Word, n: nat)
    requires |z| + n == 32
    ensures Steps(Zeros(n) + z, p, n) == z + Zeros(n)
    decreases n
  {
    if n > 0 {
      var w: Word := Zeros(n) + z;
      assert Step(w, p) == Zeros(n - 1) + (z + [false]);
      StepsZeros(z + [false], p, n - 1);
      assert z + [false] + Zeros(n - 1) == z + Zeros(n);
    } else {
      assert Zeros(n) + z == z == z + Zeros(n);
    }
  }

  /** One round of the table-driven loop makes the eight steps of one byte. */
  lemma TableRound(r: Word, b: Bits, p: Word)
    requires |b| == 8
    ensures Xor(r[8..] + Zeros(8), Entry(Xor(r[..8], b), p)) == Steps(Xor(r, b + Zeros(24)), p, 8)
  {
    var low: Word, high: Word := Zeros(8) + r[8..], Xor(r[..8], b) + Zeros(24);
    assert Xor(low, high) == Xor(r, b + Zeros(24));
    StepsXor(low, high, p, 8);
    StepsZeros(r[8..], p, 8);
  }

  lemma SerialStep(r: Word, m: Bits, p: Word)
    requires 0 < |m| <= 32
    ensures Step(Xor(r, m + Zeros(32 - |m|)), p)
         == Xor(Step(r[0 := r[0] != m[0]], p), m[1..] + Zeros(32 - |m[1..]|))
  {
  }

  lemma {:induction false} StepsAreSerial(r: Word, m: Bits, p: Word)
    requires |m| <= 32
    ensures Steps(Xor(r, m + Zeros(32 - |m|)), p, |m|) == Serial(r, m, p)
    decreases |m|
  {
    hide Step;
    var w: Word := Xor(r, m + Zeros(32 - |m|));
    if m == [] {
      assert w == r;
    } else {
      var next := Step(r[0 := r[0] != m[0]], p);
      StepsAreSerial(next, m[1..], p);
      SerialStep(r, m, p);
    }
  }

  // ----- the register divides

  lemma {:induction false} SerialAppend(r: Word, m: Bits, n: Bits, p: Word)
    ensures Serial(r, m + n, p) == Serial(Serial(r, m, p), n, p)
    decreases |m|
  {
    if m == [] {
      assert m + n == n;
    } else {
      assert (m + n)[1..] == m[1..] + n;
      SerialAppend(Step(r[0 := r[0] != m[0]], p), m[1..], n, p);
    }
  }

  /** The register after a message is the remainder of the message, with the start
      value added to its first bits and 32 zeros appended. */
  lemma {:induction false} SerialDivides(r: Word, m: Bits, p: Word)
    ensures var n := m + Zeros(32);
      Serial(r, m, p) == Remainder(Xor(r, n[..32]) + n[32..], p)
    decreases |m|
  {
    var n := m + Zeros(32);
    var d := Xor(r, n[..32]) + n[32..];
    if m == [] {
      assert d == r;
    } else {
      var next := Step(r[0 := r[0] != m[0]], p);
      SerialDivides(next, m[1..], p);
      DivisionStep(r, m, p);
    }
  }

  lemma XorSwap(x: Word, y: Word, z: Word)
    ensures Xor(Xor(x, y), z) == Xor(Xor(x, z), y)
  {
  }

  lemma DivisionStep(r: Word, m: Bits, p: Word)
    requires m != []
    ensures var n, n' := m + Zeros(32), m[1..] + Zeros(32);
      var next := Step(r[0 := r[0] != m[0]], p);
      Remainder(Xor(r, n[..32]) + n[32..], p) == Remainder(Xor(next, n'[..32]) + n'[32..], p)
  {
    var n, n' := m + Zeros(32), m[1..] + Zeros(32);
    var next := Step(r[0 := r[0] != m[0]], p);
    var d := Xor(r, n[..32]) + n[32..];
    assert n' == n[1..];
    assert d[33..] == n'[32..];
    var shifted: Word := r[1..] + [false];
    assert d[0] == (r[0] != m[0]);
    assert next == if d[0] then Xor(shifted, p) else shifted;
    assert d[1..33] == Xor(shifted, n'[..32]);
    if d[0] {
      XorSwap(shifted, n'[..32], p);
    } else {
      assert d[1..] == d[1..33] + d[33..];
    }
  }

  // ----- the code

  /** `crc32_calculate`, over a table for `p`. */
  function Checksum(data: seq<Byte>, p: Word): Word {
    if data == [] then Zeros(32)
    else
      var result := Checksum(data[..|data| - 1], p);
      Xor(result[8..] + Zeros(8), Entry(Xor(result[..8], BitsOf(data[|data| - 1], 8)), p))
  }

  lemma {:induction false} ChecksumIsSerial(data: seq<Byte>, p: Word)
    ensures Checksum(data, p) == Serial(Zeros(32), MessageBits(data), p)
  {
    if data != [] {
      var init, b := data[..|data| - 1], BitsOf(data[|data| - 1], 8);
      ChecksumIsSerial(init, p);
      TableRound(Checksum(init, p), b, p);
      StepsAreSerial(Checksum(init, p), b, p);
      SerialAppend(Zeros(32), MessageBits(init), b, p);
    }
  }

  /** For every polynomial and every byte string the table-driven check is the
      remainder of the message, followed by 32 zeros, by polynomial division. */
  lemma ChecksumIsRemainder(data: seq<Byte>, p: Word)
    ensures Checksum(data, p) == Remainder(MessageBits(data) + Zeros(32), p)
  {
    var n := MessageBits(data) + Zeros(32);
    ChecksumIsSerial(data, p);
    SerialDivides(Zeros(32), MessageBits(data), p);
    assert Xor(Zeros(32), n[..32]) + n[32..] == n;
  }

  class Crc {
    const table: array<Word>

    ghost predicate Holds(p: Word)
      reads table
    {
      table.Length == 256 && forall i :: 0 <= i < 256 ==> table[i] == Entry(BitsOf(i, 8), p)
    }

    /** `crc32_init`. */
    constructor (p: Word)
      ensures Holds(p) && fresh(table)
    {
      hide Entry;
      table := new Word[256];
      new;
      for i := 0 to 256
        invariant forall k :: 0 <= k < i ==> table[k] == Entry(BitsOf(k, 8), p)
      {
        var reg := Shift(BitsOf(i, 8), p);
        table[i] := reg;
      }
    }

    /** The inner loop of `crc32_init`. */
    static method Shift(b: Bits, p: Word) returns (reg: Word)
      requires |b| == 8
      ensures reg == Entry(b, p)
    {
      reg := b + Zeros(24);
      for j := 0 to 8
        invariant Steps(reg, p, 8 - j) == Entry(b, p)
      {
        var topBit := reg[0];
        reg := reg[1..] + [false];
        if topBit {
          reg := Xor(reg, p);
        }
      }
    }

    /** `crc32_calculate`. */
    method Calculate(data: seq<Byte>, ghost p: Word) returns (result: Word)
      requires Holds(p)
      ensures result == Remainder(MessageBits(data) + Zeros(32), p)
    {
      hide Entry, Remainder, MessageBits;
      result := Zeros(32);
      for i := 0 to |data|
        invariant result == Checksum(data[..i], p)
      {
        var top := Xor(result[..8], BitsOf(data[i], 8));
        BitsOfVal(top);
        ValBound(top);
        assert Pow2(8) == 256;
        result := Xor(result[8..] + Zeros(8), table[Val(top)]);
        assert data[..i + 1][..i] == data[..i];
      }
      assert data[..|data|] == data;
      ChecksumIsRemainder(data, p);
    }
  }
}
