/** Small definitions that several models share. */
module Prelude {
  datatype Option<T> = None | Some(value: T)

  predicate NoDup<T(==)>(s: seq<T>) { forall i, j :: 0 <= i < j < |s| ==> s[i] != s[j] }

  function Pow2(n: nat): (p: nat)
    ensures p >= 1
  {
    if n == 0 then 1 else 2 * Pow2(n - 1)
  }

  function IndexOf<T(==)>(s: seq<T>, x: T): (i: nat)
    requires x in s
    ensures i < |s| && s[i] == x && forall j :: 0 <= j < i ==> s[j] != x
  {
    if s[0] == x then 0 else 1 + IndexOf(s[1..], x)
  }

  /** The list without the first occurrence of an element. */
  function Without<T(==)>(s: seq<T>, x: T): seq<T>
    requires x in s
  {
    s[..IndexOf(s, x)] + s[IndexOf(s, x) + 1..]
  }

  lemma WithoutKeeps<T>(s: seq<T>, x: T)
    requires x in s && NoDup(s)
    ensures NoDup(Without(s, x)) && |Without(s, x)| == |s| - 1
    ensures forall y :: y in Without(s, x) <==> y in s && y != x
  {
    var i := IndexOf(s, x);
    var r := Without(s, x);
    assert forall j :: 0 <= j < |r| ==> r[j] == s[if j < i then j else j + 1];
    forall y | y in s && y != x ensures y in r {
      var j :| 0 <= j < |s| && s[j] == y;
      assert r[if j < i then j else j - 1] == y;
    }
  }

  /** Different numbers below `n` are at most `n`. */
  lemma {:induction false} DistinctFit(s: seq<int>, n: nat)
    requires forall a :: 0 <= a < |s| ==> 0 <= s[a] < n
    requires forall a, b :: 0 <= a < b < |s| ==> s[a] != s[b]
    ensures |s| <= n
    decreases n
  {
    assert |s| > 0 ==> 0 <= s[0] < n;
    if n > 0 {
      if a :| 0 <= a < |s| && s[a] == n - 1 {
        DistinctFit(s[..a] + s[a + 1..], n - 1);
      } else {
        DistinctFit(s, n - 1);
      }
    }
  }

  /** More numbers than values: two of them are equal. */
  lemma Pigeonhole(s: seq<int>, n: nat) returns (a: nat, b: nat)
    requires |s| > n && forall k :: 0 <= k < |s| ==> 0 <= s[k] < n
    ensures a < b < |s| && s[a] == s[b]
  {
    if forall k, l :: 0 <= k < l < |s| ==> s[k] != s[l] {
      DistinctFit(s, n);
    }
    a, b :| 0 <= a < b < |s| && s[a] == s[b];
  }
}
