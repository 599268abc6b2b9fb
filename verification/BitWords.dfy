/** Machine words as sequences of bits, most significant bit first. */
module BitWords {
  import opened Prelude

  type Bits = seq<bool>

  function Val(x: Bits): nat {
    if x == [] then 0 else 2 * Val(x[..|x| - 1]) + if x[|x| - 1] then 1 else 0
  }

  /** The low `width` bits of a number. */
  function BitsOf(n: nat, width: nat): (x: Bits)
    ensures |x| == width
  {
    if width == 0 then [] else BitsOf(n / 2, width - 1) + [n % 2 == 1]
  }

  lemma {:induction false} BitsOfVal(x: Bits)
    ensures BitsOf(Val(x), |x|) == x
  {
    if x != [] {
      BitsOfVal(x[..|x| - 1]);
    }
  }

  lemma {:induction false} ValBound(x: Bits)
    ensures Val(x) < Pow2(|x|)
  {
    if x != [] {
      ValBound(x[..|x| - 1]);
    }
  }

  function Zeros(n: nat): (x: Bits)
    ensures |x| == n
  {
    seq(n, i => false)
  }

  function Xor(x: Bits, y: Bits): (z: Bits)
    requires |x| == |y|
    ensures |z| == |x|
  {
    seq(|x|, i requires 0 <= i < |x| => x[i] != y[i])
  }

  function Ones(n: nat): (x: Bits)
    ensures |x| == n
  {
    seq(n, i => true)
  }

  function And(x: Bits, y: Bits): (z: Bits)
    requires |x| == |y|
    ensures |z| == |x|
  {
    seq(|x|, i requires 0 <= i < |x| => x[i] && y[i])
  }
}
