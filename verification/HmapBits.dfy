/** `calc_mask` of `lib/hmap.c` bit by bit, for a 64-bit `size_t`: the cascade of
    shifts and ors computes the mask that module `Hmap` defines on numbers. */
module HmapBits {
  import opened BitWords
  import opened Hmap

  /** `x | (x >> k)`. */
  function OrShifted(x: Bits, k: nat): Bits {
    seq(|x|, i requires 0 <= i < |x| => x[i] || (i >= k && x[i - k]))
  }

  function Smear(x: Bits): Bits {
    OrShifted(OrShifted(OrShifted(OrShifted(OrShifted(OrShifted(x, 1), 2), 4), 8), 16), 32)
  }

  /** `mask | ((mask & 1) << 1)`. */
  function AtLeastThree(x: Bits): Bits
    requires |x| >= 2
  {
    x[|x| - 2 := x[|x| - 2] || x[|x| - 1]]
  }

  function CalcMaskBits(capacity: Bits): Bits
    requires |capacity| == 64
  {
    AtLeastThree(Smear([false] + capacity[..63]))
  }

  // ----- one round doubles the window that a bit looks at

  predicate Near(x: Bits, i: nat, w: nat) { exists j :: 0 <= j <= i < |x| && i - j < w && x[j] }

  function Window(x: Bits, w: nat): Bits { seq(|x|, i requires 0 <= i < |x| => Near(x, i, w)) }

  lemma RoundDoubles(x: Bits, w: nat)
    ensures OrShifted(Window(x, w), w) == Window(x, 2 * w)
  {
    forall i | 0 <= i < |x| ensures OrShifted(Window(x, w), w)[i] == Near(x, i, 2 * w) {
      if Near(x, i, 2 * w) {
        var j :| 0 <= j <= i < |x| && i - j < 2 * w && x[j];
        assert i - j < w ==> Near(x, i, w);
        assert i - j >= w ==> Near(x, i - w, w);
      }
    }
  }

  lemma SmearIsWindow(x: Bits)
    ensures Smear(x) == Window(x, 64)
  {
    assert x == Window(x, 1) by {
      forall i | 0 <= i < |x| ensures x[i] == Near(x, i, 1) {}
    }
    RoundDoubles(x, 1);
    RoundDoubles(x, 2);
    RoundDoubles(x, 4);
    RoundDoubles(x, 8);
    RoundDoubles(x, 16);
    RoundDoubles(x, 32);
  }

  // ----- the value of a smeared word

  lemma {:induction false} ZeroVal(x: Bits)
    ensures Val(x) == 0 <==> forall j :: 0 <= j < |x| ==> !x[j]
  {
    if x != [] {
      ZeroVal(x[..|x| - 1]);
    }
  }

  lemma {:induction false} WindowVal(x: Bits, w: nat)
    requires |x| <= w
    ensures Val(Window(x, w)) == Smeared(Val(x))
  {
    if x != [] {
      var n := |x| - 1;
      WindowVal(x[..n], w);
      forall i | 0 <= i < n ensures Near(x, i, w) == Near(x[..n], i, w) {
        if Near(x, i, w) {
          var j :| 0 <= j <= i < |x| && i - j < w && x[j];
          assert x[..n][j];
        }
        if Near(x[..n], i, w) {
          var j :| 0 <= j <= i < n && i - j < w && x[..n][j];
          assert x[j];
        }
      }
      assert Window(x, w)[..n] == Window(x[..n], w);
      ZeroVal(x);
      assert Near(x, n, w) <==> Val(x) > 0;
    }
  }

  lemma NearGrows(x: Bits, i: nat, k: nat, w: nat)
    requires i <= k < |x| <= w
    ensures Near(x, i, w) ==> Near(x, k, w)
  {
  }

  lemma WindowAtLeastThree(x: Bits, w: nat)
    requires 2 <= |x| <= w
    ensures Val(AtLeastThree(Window(x, w))) ==
            if Val(Window(x, w)) == 1 then 3 else Val(Window(x, w))
  {
    var m, n := Window(x, w), |x|;
    var r := AtLeastThree(m);
    assert r[..n - 1][..n - 2] == m[..n - 1][..n - 2];
    if m[n - 2] {
      assert r == m;
    } else {
      forall i | 0 <= i < n - 2 ensures m[i] ==> m[n - 2] {
        NearGrows(x, i, n - 2, w);
      }
      ZeroVal(m[..n - 1][..n - 2]);
    }
  }

  /** The word computed by shifts and ors is the least admissible mask. */
  lemma CalcMaskComputesMask(capacity: Bits)
    requires |capacity| == 64
    ensures Val(CalcMaskBits(capacity)) == CalcMask(Val(capacity))
  {
    var half := [false] + capacity[..63];
    assert Val(capacity) / 2 == Val(capacity[..63]);
    hide Val, Smear, OrShifted, Window, Smeared, AtLeastThree;
    HalfVal(capacity[..63]);
    SmearIsWindow(half);
    WindowVal(half, 64);
    WindowAtLeastThree(half, 64);
    assert CalcMaskBits(capacity) == AtLeastThree(Window(half, 64));
  }

  lemma {:induction false} HalfVal(x: Bits)
    ensures Val([false] + x) == Val(x)
  {
    if x != [] {
      assert ([false] + x)[..|x|] == [false] + x[..|x| - 1];
      HalfVal(x[..|x| - 1]);
    } else {
      assert [false] + x == [false];
    }
  }

  // ----- masking

  lemma DoubleRemainder(x: nat, n: nat, bit: nat)
    requires n > 0 && bit < 2
    ensures (2 * x + bit) % (2 * n) == 2 * (x % n) + bit
  {
    var q, r := x / n, x % n;
    assert 2 * x + bit == (2 * n) * q + (2 * r + bit);
    RemainderIs(2 * n, q, 2 * r + bit);
  }

  lemma RemainderIs(n: nat, q: nat, r: nat)
    requires r < n
    ensures (n * q + r) % n == r
  {
    var t := n * q + r;
    QuotientUnique(n, q, r, t / n, t % n);
  }

  lemma QuotientUnique(n: nat, q: nat, r: nat, a: nat, s: nat)
    requires r < n && s < n && n * q + r == n * a + s
    ensures q == a && r == s
  {
    if q < a {
      Multiples(n, q, a);
    } else if a < q {
      Multiples(n, a, q);
    }
  }

  lemma {:induction false} Multiples(n: nat, q: nat, a: nat)
    requires q < a
    ensures n * q + n <= n * a
    decreases a
  {
    assert n * a == n * (a - 1) + n;
    if q < a - 1 {
      Multiples(n, q, a - 1);
    }
  }

  /** Masking a hash is taking the remainder modulo the number of buckets. */
  lemma {:induction false} AndMaskIsRemainder(x: Bits, m: Bits)
    requires |x| == |m| && IsMask(Val(m))
    ensures Val(And(x, m)) == Val(x) % (Val(m) + 1)
  {
    if x != [] {
      var n := |x| - 1;
      assert And(x, m)[..n] == And(x[..n], m[..n]);
      if m[n] {
        assert Val(m) / 2 == Val(m[..n]);
        AndMaskIsRemainder(x[..n], m[..n]);
        DoubleRemainder(Val(x[..n]), Val(m[..n]) + 1, if x[n] then 1 else 0);
      } else {
        assert Val(m) % 2 == 0;
        ZeroVal(m);
        ZeroVal(And(x, m));
      }
    }
  }
}
