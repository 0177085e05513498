/** Finite real vectors: the arithmetic the weight computation is built from.

    A market-cap vector or a weight vector is a `seq<real>` indexed by asset
    position; masks (the boolean Series of hodlx.py) are
    `seq<bool>` of the same length. Exact reals stand in for float64.
 */
module Vectors {

  datatype Option<T> = None | Some(value: T)

  function Min(a: int, b: int): int {
    if a <= b then a else b
  }

  /** Total of a vector (`Series.sum()`), folded from the front. */
  function Sum(s: seq<real>): real {
    if |s| == 0 then 0.0 else s[0] + Sum(s[1..])
  }

  predicate AllPositive(s: seq<real>) {
    forall i :: 0 <= i < |s| ==> s[i] > 0.0
  }

  lemma {:induction false} SumPositive(s: seq<real>)
    requires AllPositive(s)
    ensures Sum(s) >= 0.0
    ensures |s| > 0 ==> Sum(s) > 0.0
  {
    if |s| > 0 {
      SumPositive(s[1..]);
    }
  }

  /** A vector whose entries all lie at or above `b` totals at least `b` per
      entry, and strictly more if entry `j` lies strictly above `b`. */
  lemma {:induction false} SumAtLeast(s: seq<real>, b: real, j: int)
    requires forall i :: 0 <= i < |s| ==> s[i] >= b
    ensures Sum(s) >= b * |s| as real
    ensures 0 <= j < |s| && s[j] > b ==> Sum(s) > b * |s| as real
  {
    if |s| > 0 {
      var n := |s[1..]| as real;
      SumAtLeast(s[1..], b, j - 1);
      assert b * |s| as real == b + b * n;
    }
  }

  /** The mirror of `SumAtLeast`. */
  lemma {:induction false} SumAtMost(s: seq<real>, b: real, j: int)
    requires forall i :: 0 <= i < |s| ==> s[i] <= b
    ensures Sum(s) <= b * |s| as real
    ensures 0 <= j < |s| && s[j] < b ==> Sum(s) < b * |s| as real
  {
    if |s| > 0 {
      var n := |s[1..]| as real;
      SumAtMost(s[1..], b, j - 1);
      assert b * |s| as real == b + b * n;
    }
  }

  /** Entry-wise multiplication by a scalar (`series * c`). Scaling a vector
      scales its total by the same factor. */
  function Scale(s: seq<real>, c: real): (r: seq<real>)
    ensures |r| == |s|
    ensures forall i :: 0 <= i < |s| ==> r[i] == s[i] * c
    ensures Sum(r) == Sum(s) * c
  {
    SumScale(s, c);
    seq(|s|, i requires 0 <= i < |s| => s[i] * c)
  }

  lemma {:induction false} SumScale(s: seq<real>, c: real)
    ensures Sum(seq(|s|, i requires 0 <= i < |s| => s[i] * c)) == Sum(s) * c
  {
    var r := seq(|s|, i requires 0 <= i < |s| => s[i] * c);
    if |s| > 0 {
      var t := seq(|s| - 1, i requires 0 <= i < |s| - 1 => s[1..][i] * c);
      assert forall i :: 0 <= i < |t| ==> r[1..][i] == t[i];
      assert r[1..] == t;
      SumScale(s[1..], c);
      assert Sum(r) == s[0] * c + Sum(s[1..]) * c;
    }
  }

  /** Number of entries exactly equal to `x` (the `weights == bound` mask). */
  function CountAt(s: seq<real>, x: real): (k: nat)
    ensures k <= |s|
  {
    if |s| == 0 then 0 else (if s[0] == x then 1 else 0) + CountAt(s[1..], x)
  }

  /** If every entry equal to `x` in `a` is still equal to `x` in `b`, `b` has
      at least as many such entries; strictly more if `b` gained one. */
  lemma {:induction false} CountAtGrows(a: seq<real>, b: seq<real>, x: real)
    requires |a| == |b|
    requires forall i :: 0 <= i < |a| && a[i] == x ==> b[i] == x
    ensures CountAt(a, x) <= CountAt(b, x)
    ensures (exists j :: 0 <= j < |a| && a[j] != x && b[j] == x) ==> CountAt(a, x) < CountAt(b, x)
  {
    if |a| > 0 {
      CountAtGrows(a[1..], b[1..], x);
      if exists j :: 0 <= j < |a| && a[j] != x && b[j] == x {
        var j :| 0 <= j < |a| && a[j] != x && b[j] == x;
        if j > 0 {
          assert a[1..][j - 1] != x && b[1..][j - 1] == x;
        }
      }
    }
  }

  /** Number of `true` entries of a mask (`mask.sum()`). */
  function CountTrue(m: seq<bool>): (k: nat)
    ensures k <= |m|
  {
    if |m| == 0 then 0 else (if m[0] then 1 else 0) + CountTrue(m[1..])
  }

  /** A mask whose first `k` entries are set has at least `k` set entries. */
  lemma {:induction false} CountTrueOfSetPrefix(m: seq<bool>, k: nat)
    requires k <= |m|
    requires forall i :: 0 <= i < k ==> m[i]
    ensures CountTrue(m) >= k
  {
    if k > 0 {
      CountTrueOfSetPrefix(m[1..], k - 1);
    }
  }
}
