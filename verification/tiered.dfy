/** The tiered 4.5%/20%/50% scheme: `compute_modified_weights` of hodlx.py.

    The (optionally truncated) universe is normalised, split into a large and
    a small bucket by weight, each bucket is rescaled to half of the total, the
    capper runs on each bucket with the bucket's own market caps, and the two
    results are merged back into place and sorted by weight, largest first.
 */
module Tiered {
  import opened Vectors
  import opened Capper
  import opened Sorting

  /** One row of the input Series: an asset symbol and its market cap. */
  datatype Asset = Asset(symbol: string, cap: real)

  const LargeWeightMax: real := 0.2
  const LargeWeightMin: real := 0.05
  const LargeWeightCumMax: real := 0.5
  const SmallWeightMax: real := 0.045
  /** How many leading positions are forced into the large bucket. */
  const ForcedLarge: nat := 5

  predicate CapsPositive(assets: seq<Asset>) {
    forall i :: 0 <= i < |assets| ==> assets[i].cap > 0.0
  }

  function Caps(assets: seq<Asset>): (r: seq<real>)
    ensures |r| == |assets|
    ensures forall i :: 0 <= i < |assets| ==> r[i] == assets[i].cap
    ensures CapsPositive(assets) ==> AllPositive(r)
  {
    seq(|assets|, i requires 0 <= i < |assets| => assets[i].cap)
  }

  function AssetSymbols(assets: seq<Asset>): multiset<string> {
    if |assets| == 0 then multiset{} else multiset{assets[0].symbol} + AssetSymbols(assets[1..])
  }

  /** `market_cap[:n]` when `n` is given and at most the length
      (hodlx.py:88-89), with Python's slice semantics for a negative `n`. */
  function Truncate(assets: seq<Asset>, n: Option<int>): (r: seq<Asset>)
    ensures r <= assets
    ensures n.None? || n.value >= |assets| ==> r == assets
    ensures n.Some? && 0 <= n.value <= |assets| ==> |r| == n.value
    ensures n.Some? && n.value < 0 ==> |r| == if |assets| + n.value < 0 then 0 else |assets| + n.value
  {
    if n.Some? && n.value <= |assets| then
      var stop := if n.value >= 0 then n.value else if |assets| + n.value < 0 then 0 else |assets| + n.value;
      assets[..stop]
    else assets
  }

  /** The mask `market_cap_weights > small_weight_max`. */
  function AboveSmall(w: seq<real>): (m: seq<bool>)
    ensures |m| == |w|
    ensures forall i :: 0 <= i < |w| ==> (m[i] <==> w[i] > SmallWeightMax)
  {
    seq(|w|, i requires 0 <= i < |w| => w[i] > SmallWeightMax)
  }

  /** The large bucket (hodlx.py:98-100): the entries above the small cap, and,
      when fewer than five qualify, also the first five positions. */
  function LargeBucket(w: seq<real>): (large: seq<bool>)
    ensures |large| == |w|
    ensures forall i :: 0 <= i < |w| && w[i] > SmallWeightMax ==> large[i]
    ensures CountTrue(AboveSmall(w)) >= ForcedLarge ==>
              forall i :: 0 <= i < |w| ==> (large[i] <==> w[i] > SmallWeightMax)
    ensures CountTrue(AboveSmall(w)) < ForcedLarge ==>
              forall i :: 0 <= i < |w| ==> (large[i] <==> w[i] > SmallWeightMax || i < ForcedLarge)
    ensures CountTrue(large) >= Min(ForcedLarge, |w|)
  {
    var above := AboveSmall(w);
    if CountTrue(above) < ForcedLarge then
      var forced := seq(|w|, i requires 0 <= i < |w| => above[i] || i < ForcedLarge);
      CountTrueOfSetPrefix(forced, Min(ForcedLarge, |w|));
      forced
    else above
  }

  /** The entries of `s` whose mask bit is `keep`, in order (`s[mask]` or
      `s[~mask]`). */
  function Select(s: seq<real>, mask: seq<bool>, keep: bool): (r: seq<real>)
    requires |s| == |mask|
    ensures |r| == if keep then CountTrue(mask) else |mask| - CountTrue(mask)
  {
    if |s| == 0 then []
    else (if mask[0] == keep then [s[0]] else []) + Select(s[1..], mask[1..], keep)
  }

  /** Every selected entry is drawn from `s`, and every entry on the chosen
      side of the mask is selected. */
  lemma {:induction false} SelectMembers(s: seq<real>, mask: seq<bool>, keep: bool)
    requires |s| == |mask|
    ensures forall k :: 0 <= k < |Select(s, mask, keep)| ==> Select(s, mask, keep)[k] in s
    ensures forall i :: 0 <= i < |s| && mask[i] == keep ==> s[i] in Select(s, mask, keep)
  {
    if |s| > 0 {
      SelectMembers(s[1..], mask[1..], keep);
      var r := Select(s, mask, keep);
      var t := Select(s[1..], mask[1..], keep);
      assert r == (if mask[0] == keep then [s[0]] else []) + t;
      assert forall x :: x in s[1..] ==> x in s;
      forall i | 0 <= i < |s| && mask[i] == keep
        ensures s[i] in r
      {
        if i > 0 {
          assert s[i] == s[1..][i - 1];
        }
      }
    }
  }

  lemma {:induction false} SelectPositive(s: seq<real>, mask: seq<bool>, keep: bool)
    requires |s| == |mask| && AllPositive(s)
    ensures AllPositive(Select(s, mask, keep))
  {
    if |s| > 0 {
      SelectPositive(s[1..], mask[1..], keep);
    }
  }

  /** Write `a` into the positions where `mask` is set and `b` into the rest
      (`weights[large] = ...; weights[small] = ...`, hodlx.py:107-113). */
  function Merge(mask: seq<bool>, a: seq<real>, b: seq<real>): (r: seq<real>)
    requires |a| == CountTrue(mask) && |b| == |mask| - CountTrue(mask)
    ensures |r| == |mask|
    ensures forall i :: 0 <= i < |mask| && mask[i] ==> r[i] in a
    ensures forall i :: 0 <= i < |mask| && !mask[i] ==> r[i] in b
    ensures Sum(r) == Sum(a) + Sum(b)
  {
    if |mask| == 0 then []
    else if mask[0] then
      var t := Merge(mask[1..], a[1..], b);
      assert forall x :: x in a[1..] ==> x in a;
      [a[0]] + t
    else
      var t := Merge(mask[1..], a, b[1..]);
      assert forall x :: x in b[1..] ==> x in b;
      [b[0]] + t
  }

  /** A property every entry of `a` has, and one every entry of `b` has,
      hold of the merged entries drawn from each. */
  lemma {:induction false} MergeKeeps(mask: seq<bool>, a: seq<real>, b: seq<real>,
                                      inA: real -> bool, inB: real -> bool)
    requires |a| == CountTrue(mask) && |b| == |mask| - CountTrue(mask)
    requires forall i :: 0 <= i < |a| ==> inA(a[i])
    requires forall i :: 0 <= i < |b| ==> inB(b[i])
    ensures forall i :: 0 <= i < |mask| && mask[i] ==> inA(Merge(mask, a, b)[i])
    ensures forall i :: 0 <= i < |mask| && !mask[i] ==> inB(Merge(mask, a, b)[i])
  {
    if |mask| > 0 {
      var r := Merge(mask, a, b);
      if mask[0] {
        MergeKeeps(mask[1..], a[1..], b, inA, inB);
        assert r[1..] == Merge(mask[1..], a[1..], b);
      } else {
        MergeKeeps(mask[1..], a, b[1..], inA, inB);
        assert r[1..] == Merge(mask[1..], a, b[1..]);
      }
    }
  }

  /** Splitting a vector by a mask and merging the two parts back restores it. */
  lemma {:induction false} MergeSelect(s: seq<real>, mask: seq<bool>)
    requires |s| == |mask|
    ensures Merge(mask, Select(s, mask, true), Select(s, mask, false)) == s
  {
    if |s| > 0 {
      MergeSelect(s[1..], mask[1..]);
      var a := Select(s, mask, true);
      var b := Select(s, mask, false);
      if mask[0] {
        assert a == [s[0]] + Select(s[1..], mask[1..], true);
        assert a[1..] == Select(s[1..], mask[1..], true);
        assert b == Select(s[1..], mask[1..], false);
      } else {
        assert b == [s[0]] + Select(s[1..], mask[1..], false);
        assert b[1..] == Select(s[1..], mask[1..], false);
        assert a == Select(s[1..], mask[1..], true);
      }
    }
  }

  /** Merging two parts and splitting by the same mask gives back the parts. */
  lemma {:induction false} SelectMerge(mask: seq<bool>, a: seq<real>, b: seq<real>)
    requires |a| == CountTrue(mask) && |b| == |mask| - CountTrue(mask)
    ensures Select(Merge(mask, a, b), mask, true) == a
    ensures Select(Merge(mask, a, b), mask, false) == b
  {
    if |mask| > 0 {
      var r := Merge(mask, a, b);
      if mask[0] {
        SelectMerge(mask[1..], a[1..], b);
        assert r[1..] == Merge(mask[1..], a[1..], b);
        assert Select(r, mask, true) == [a[0]] + a[1..];
        assert Select(r, mask, false) == b;
      } else {
        SelectMerge(mask[1..], a, b[1..]);
        assert r[1..] == Merge(mask[1..], a, b[1..]);
        assert Select(r, mask, true) == a;
        assert Select(r, mask, false) == [b[0]] + b[1..];
      }
    }
  }

  /** `w *= target / w.sum()` (hodlx.py:103-104): the bucket totals `target`
      and the ratio between any two of its entries is unchanged. */
  function Rescale(w: seq<real>, target: real): (r: seq<real>)
    requires AllPositive(w)
    ensures |r| == |w|
    ensures |w| > 0 ==> Sum(r) == target
    ensures forall i, j :: 0 <= i < |w| && 0 <= j < |w| ==> r[i] * w[j] == r[j] * w[i]
    ensures target > 0.0 ==> AllPositive(r)
  {
    if |w| == 0 then []
    else
      var c := RescaleFactor(w, target);
      ScaleKeepsRatios(w, c);
      ScalePositive(w, c);
      Scale(w, c)
  }

  /** The factor `target / w.sum()` brings the total of `w` to `target`, and
      is positive when the target is. */
  function RescaleFactor(w: seq<real>, target: real): (c: real)
    requires AllPositive(w) && |w| > 0
    ensures Sum(w) * c == target
    ensures target > 0.0 ==> c > 0.0
  {
    SumPositive(w);
    Quotient(target, Sum(w));
    target / Sum(w)
  }

  /** Scaling positive entries by a positive factor keeps them positive. */
  lemma ScalePositive(w: seq<real>, c: real)
    requires AllPositive(w)
    ensures c > 0.0 ==> AllPositive(Scale(w, c))
  {
    if c > 0.0 {
      forall i | 0 <= i < |w|
        ensures Scale(w, c)[i] > 0.0
      {
        assert Scale(w, c)[i] == w[i] * c;
      }
    }
  }

  lemma ScaleKeepsRatios(w: seq<real>, c: real)
    ensures forall i, j :: 0 <= i < |w| && 0 <= j < |w| ==> Scale(w, c)[i] * w[j] == Scale(w, c)[j] * w[i]
  {
    var r := Scale(w, c);
    forall i, j | 0 <= i < |w| && 0 <= j < |w|
      ensures r[i] * w[j] == r[j] * w[i]
    {
      Commute(w[i], w[j], c);
    }
  }

  lemma Commute(x: real, y: real, c: real)
    ensures x * c * y == y * c * x
  {
  }

  /** The large bucket of a market-cap vector. */
  function Bucket(caps: seq<real>): (large: seq<bool>)
    requires AllPositive(caps)
    ensures |large| == |caps|
  {
    LargeBucket(Proportional(caps))
  }

  /** The large bucket's capper call can keep its half of the total: 0.5
      fits between 5% and 20% per entry. */
  predicate LargeFeasible(caps: seq<real>)
    requires AllPositive(caps)
  {
    var large := CountTrue(Bucket(caps)) as real;
    && LargeWeightCumMax <= LargeWeightMax * large
    && LargeWeightMin * large <= LargeWeightCumMax
  }

  /** The small bucket is non-empty and its capper call can keep its half of
      the total: 0.5 fits under 4.5% per entry. */
  predicate SmallFeasible(caps: seq<real>)
    requires AllPositive(caps)
  {
    var small := (|caps| - CountTrue(Bucket(caps))) as real;
    && small > 0.0
    && LargeWeightCumMax <= SmallWeightMax * small
  }

  /** The large bucket's weights (hodlx.py:103-104, 107-109): its normalised
      weights rescaled to total 0.5, then capped to [5%, 20%]. */
  function LargeWeights(caps: seq<real>): (r: seq<real>)
    requires AllPositive(caps)
    ensures |r| == CountTrue(Bucket(caps))
    ensures forall i :: 0 <= i < |r| ==> LargeWeightMin <= r[i] <= LargeWeightMax
    ensures LargeFeasible(caps) ==> Sum(r) == LargeWeightCumMax
  {
    var w := Proportional(caps);
    var large := Bucket(caps);
    SelectPositive(caps, large, true);
    SelectPositive(w, large, true);
    var start := Rescale(Select(w, large, true), LargeWeightCumMax);
    assert LargeFeasible(caps) ==>
             Sum(start) == LargeWeightCumMax && BoundsFeasible(start, Some(LargeWeightMin), Some(LargeWeightMax)) by {
      if LargeFeasible(caps) {
        FeasibleLarge(caps, start);
      }
    }
    ComputeWeights(Select(caps, large, true), Some(start), Some(LargeWeightMin), Some(LargeWeightMax))
  }

  /** The small bucket's weights (hodlx.py:103-104, 110-112): its normalised
      weights rescaled to total 0.5, then capped at 4.5%. */
  function SmallWeights(caps: seq<real>): (r: seq<real>)
    requires AllPositive(caps)
    ensures |r| == |caps| - CountTrue(Bucket(caps))
    ensures forall i :: 0 <= i < |r| ==> 0.0 < r[i] <= SmallWeightMax
    ensures SmallFeasible(caps) ==> Sum(r) == LargeWeightCumMax
  {
    var w := Proportional(caps);
    var large := Bucket(caps);
    SelectPositive(caps, large, false);
    SelectPositive(w, large, false);
    var start := Rescale(Select(w, large, false), LargeWeightCumMax);
    var r := ComputeWeights(Select(caps, large, false), Some(start), None, Some(SmallWeightMax));
    assert forall i :: 0 <= i < |r| ==> 0.0 < r[i] by {
      forall i | 0 <= i < |r|
        ensures 0.0 < r[i]
      {
        assert Settled(Ceiling, start[i], r[i], SmallWeightMax);
      }
    }
    assert SmallFeasible(caps) ==> Sum(r) == LargeWeightCumMax by {
      if SmallFeasible(caps) {
        FeasibleSmall(caps, start);
      }
    }
    r
  }

  /** Steps 2-5 of `compute_modified_weights` (hodlx.py:90-113), giving each
      asset its weight in input order: large-bucket entries end within
      [5%, 20%], small-bucket entries within (0, 4.5%]. When both capper
      calls are feasible the weights total 1; when every entry is large the
      small half is simply missing and they total 0.5. */
  function BucketWeights(caps: seq<real>): (r: seq<real>)
    requires AllPositive(caps)
    ensures |r| == |caps|
    ensures forall i :: 0 <= i < |caps| && Bucket(caps)[i] ==> LargeWeightMin <= r[i] <= LargeWeightMax
    ensures forall i :: 0 <= i < |caps| && !Bucket(caps)[i] ==> 0.0 < r[i] <= SmallWeightMax
    ensures LargeFeasible(caps) && SmallFeasible(caps) ==> Sum(r) == 1.0
    ensures LargeFeasible(caps) && CountTrue(Bucket(caps)) == |caps| ==> Sum(r) == LargeWeightCumMax
  {
    var large := Bucket(caps);
    var outLarge := LargeWeights(caps);
    var outSmall := SmallWeights(caps);
    assert CountTrue(large) == |caps| ==> Sum(outSmall) == 0.0;
    MergeKeeps(large, outLarge, outSmall,
               x => LargeWeightMin <= x <= LargeWeightMax, x => 0.0 < x <= SmallWeightMax);
    Merge(large, outLarge, outSmall)
  }

  /** A feasible large bucket is non-empty, so its rescaled start totals 0.5
      and meets both bounds' feasibility condition. */
  lemma FeasibleLarge(caps: seq<real>, start: seq<real>)
    requires AllPositive(caps) && LargeFeasible(caps)
    requires |start| == CountTrue(Bucket(caps))
    requires |start| > 0 ==> Sum(start) == LargeWeightCumMax
    ensures Sum(start) == LargeWeightCumMax
    ensures BoundsFeasible(start, Some(LargeWeightMin), Some(LargeWeightMax))
  {
  }

  /** A feasible small bucket's rescaled start totals 0.5 and fits under the
      ceiling. */
  lemma FeasibleSmall(caps: seq<real>, start: seq<real>)
    requires AllPositive(caps) && SmallFeasible(caps)
    requires |start| == |caps| - CountTrue(Bucket(caps))
    requires |start| > 0 ==> Sum(start) == LargeWeightCumMax
    ensures Sum(start) == LargeWeightCumMax
    ensures BoundsFeasible(start, None, Some(SmallWeightMax))
  {
  }

  /** Pair each asset's symbol with its weight. */
  function Label(assets: seq<Asset>, w: seq<real>): (r: seq<Holding>)
    requires |assets| == |w|
    ensures |r| == |assets|
    ensures SymbolBag(r) == AssetSymbols(assets)
    ensures TotalWeight(r) == Sum(w)
    ensures forall i :: 0 <= i < |r| ==> r[i] == Holding(assets[i].symbol, w[i])
  {
    if |assets| == 0 then []
    else [Holding(assets[0].symbol, w[0])] + Label(assets[1..], w[1..])
  }

  /** The universe's holdings in input order, each asset labelled with its
      bucket weight: the Series `weights` of hodlx.py:106-113 before sorting. */
  function Holdings(universe: seq<Asset>): (r: seq<Holding>)
    requires CapsPositive(universe)
    ensures |r| == |universe|
    ensures forall i :: 0 <= i < |r| ==> r[i].symbol == universe[i].symbol
    ensures forall i :: 0 <= i < |r| ==> r[i].weight == BucketWeights(Caps(universe))[i]
    ensures SymbolBag(r) == AssetSymbols(universe)
    ensures forall h :: h in r ==> 0.0 < h.weight <= LargeWeightMax
    ensures var caps := Caps(universe);
            LargeFeasible(caps) && SmallFeasible(caps) ==> TotalWeight(r) == 1.0
    ensures var caps := Caps(universe);
            LargeFeasible(caps) && CountTrue(Bucket(caps)) == |caps| ==> TotalWeight(r) == LargeWeightCumMax
  {
    var w := BucketWeights(Caps(universe));
    LabelWithin(universe, w);
    Label(universe, w)
  }

  /** `compute_modified_weights` before any rounding (hodlx.py:87-115): the
      truncated universe's holdings, weights largest first. */
  function ModifiedWeights(assets: seq<Asset>, n: Option<int>): (r: seq<Holding>)
    requires CapsPositive(Truncate(assets, n))
    ensures Descending(r)
    ensures multiset(r) == multiset(Holdings(Truncate(assets, n)))
    ensures |r| == |Truncate(assets, n)|
    ensures SymbolBag(r) == AssetSymbols(Truncate(assets, n))
  {
    var held := Holdings(Truncate(assets, n));
    SortKeepsSymbols(held);
    SortDescending(held)
  }

  /** Every output weight is positive and at most 20%; the weights total 1
      when both capper calls are feasible, and 0.5 when every asset is large. */
  lemma ModifiedWeightsWithin(assets: seq<Asset>, n: Option<int>)
    requires CapsPositive(Truncate(assets, n))
    ensures forall h :: h in ModifiedWeights(assets, n) ==> 0.0 < h.weight <= LargeWeightMax
    ensures var caps := Caps(Truncate(assets, n));
            LargeFeasible(caps) && SmallFeasible(caps) ==> TotalWeight(ModifiedWeights(assets, n)) == 1.0
    ensures var caps := Caps(Truncate(assets, n));
            LargeFeasible(caps) && CountTrue(Bucket(caps)) == |caps| ==>
              TotalWeight(ModifiedWeights(assets, n)) == LargeWeightCumMax
  {
    var held := Holdings(Truncate(assets, n));
    var r := ModifiedWeights(assets, n);
    SortKeepsWeight(held);
    forall h | h in r
      ensures 0.0 < h.weight <= LargeWeightMax
    {
      assert h in multiset(r);
      assert h in held;
    }
  }

  /** Every labelled weight is positive and at most the large-bucket cap. */
  lemma LabelWithin(assets: seq<Asset>, w: seq<real>)
    requires |assets| == |w|
    requires forall i :: 0 <= i < |w| ==> 0.0 < w[i] <= LargeWeightMax
    ensures forall h :: h in Label(assets, w) ==> 0.0 < h.weight <= LargeWeightMax
  {
  }

  /** A universe of three to five assets puts every asset in the large
      bucket, which is feasible, so the output totals 0.5 rather than 1. */
  lemma SmallUniverseTotalsHalf(assets: seq<Asset>, n: Option<int>)
    requires CapsPositive(Truncate(assets, n))
    requires 3 <= |Truncate(assets, n)| <= ForcedLarge
    ensures TotalWeight(ModifiedWeights(assets, n)) == LargeWeightCumMax
  {
    ModifiedWeightsWithin(assets, n);
    var caps := Caps(Truncate(assets, n));
    assert CountTrue(Bucket(caps)) == |caps|;
    assert LargeFeasible(caps);
  }
}
