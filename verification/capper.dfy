/** The capper: `compute_weights` of hodlx.py.

    Starting from supplied weights or from the proportional allocation of the
    market caps, a ceiling loop clamps entries above `max_weight` and hands the
    excess to the free entries in proportion to their market caps; a floor loop
    then does the mirror image for `min_weight`. Both loops are one
    side-parameterised fixed-point `Pass`, built from one redistribution `Step`.
 */
module Capper {
  import opened Vectors

  /** Which bound a pass enforces: `max_weight` (Ceiling) or `min_weight` (Floor). */
  datatype Side = Ceiling | Floor

  /** The mask `weights > max_weight` (Ceiling) or `weights < min_weight` (Floor). */
  predicate Beyond(side: Side, x: real, bound: real) {
    match side
    case Ceiling => x > bound
    case Floor => x < bound
  }

  /** Neither beyond the bound nor pinned at it: the entries that absorb the
      redistributed amount (`below_max` / `above_min`). */
  predicate Free(side: Side, x: real, bound: real) {
    !Beyond(side, x, bound) && x != bound
  }

  predicate AnyBeyond(side: Side, w: seq<real>, bound: real) {
    exists i :: 0 <= i < |w| && Beyond(side, w[i], bound)
  }

  predicate AnyFree(side: Side, w: seq<real>, bound: real) {
    exists i :: 0 <= i < |w| && Free(side, w[i], bound)
  }

  /** The bound can be met without losing weight: the total is at most
      `max_weight` per entry, or at least `min_weight` per entry. */
  predicate Feasible(side: Side, w: seq<real>, bound: real) {
    match side
    case Ceiling => Sum(w) <= bound * |w| as real
    case Floor => bound * |w| as real <= Sum(w)
  }

  /** Total signed distance of the out-of-bound entries from the bound
      (`sum_above_max`, positive; `sum_below_min`, negative). */
  function Overflow(side: Side, w: seq<real>, bound: real): real {
    if |w| == 0 then 0.0
    else (if Beyond(side, w[0], bound) then w[0] - bound else 0.0) + Overflow(side, w[1..], bound)
  }

  /** Aggregate market cap of the free entries (`market_cap[below_max].sum()`). */
  function FreeCap(side: Side, mc: seq<real>, w: seq<real>, bound: real): real
    requires |mc| == |w|
  {
    if |w| == 0 then 0.0
    else (if Free(side, w[0], bound) then mc[0] else 0.0) + FreeCap(side, mc[1..], w[1..], bound)
  }

  /** One entry after a redistribution paying `share` per unit of market cap
      `c` to free entries. */
  function Adjust(side: Side, c: real, x: real, bound: real, share: real): real {
    if Beyond(side, x, bound) then bound
    else if x == bound then x
    else x + share * c
  }

  /** Clamp the out-of-bound entries and pay every free entry `share` per unit
      of its market cap. */
  function Redistribute(side: Side, mc: seq<real>, w: seq<real>, bound: real, share: real): (r: seq<real>)
    requires |mc| == |w|
    ensures |r| == |w|
    ensures forall i :: 0 <= i < |w| ==> r[i] == Adjust(side, mc[i], w[i], bound, share)
  {
    if |w| == 0 then []
    else [Adjust(side, mc[0], w[0], bound, share)] + Redistribute(side, mc[1..], w[1..], bound, share)
  }

  lemma {:induction false} FreeCapPositive(side: Side, mc: seq<real>, w: seq<real>, bound: real)
    requires |mc| == |w| && AllPositive(mc)
    ensures FreeCap(side, mc, w, bound) >= 0.0
    ensures AnyFree(side, w, bound) ==> FreeCap(side, mc, w, bound) > 0.0
  {
    if |w| > 0 {
      FreeCapPositive(side, mc[1..], w[1..], bound);
      if AnyFree(side, w, bound) && !Free(side, w[0], bound) {
        var j :| 0 <= j < |w| && Free(side, w[j], bound);
        assert Free(side, w[1..][j - 1], bound);
      }
    }
  }

  /** The overflow is zero when nothing is out of bound; otherwise it is
      positive under a ceiling and negative under a floor. */
  lemma {:induction false} OverflowSign(side: Side, w: seq<real>, bound: real)
    ensures !AnyBeyond(side, w, bound) ==> Overflow(side, w, bound) == 0.0
    ensures AnyBeyond(side, w, bound) && side == Ceiling ==> Overflow(side, w, bound) > 0.0
    ensures AnyBeyond(side, w, bound) && side == Floor ==> Overflow(side, w, bound) < 0.0
  {
    if |w| > 0 {
      OverflowSign(side, w[1..], bound);
      if AnyBeyond(side, w, bound) && !Beyond(side, w[0], bound) {
        var j :| 0 <= j < |w| && Beyond(side, w[j], bound);
        assert Beyond(side, w[1..][j - 1], bound);
      }
      if !AnyBeyond(side, w, bound) {
        assert !AnyBeyond(side, w[1..], bound) by {
          forall j | 0 <= j < |w[1..]|
            ensures !Beyond(side, w[1..][j], bound)
          {
            assert w[1..][j] == w[j + 1];
          }
        }
      }
    }
  }

  /** What the free entries receive: `share` per unit of their market cap. */
  function Paid(side: Side, mc: seq<real>, w: seq<real>, bound: real, share: real): real
    requires |mc| == |w|
  {
    if |w| == 0 then 0.0
    else (if Free(side, w[0], bound) then share * mc[0] else 0.0) + Paid(side, mc[1..], w[1..], bound, share)
  }

  lemma {:induction false} PaidIsShareOfFreeCap(side: Side, mc: seq<real>, w: seq<real>, bound: real, share: real)
    requires |mc| == |w|
    ensures Paid(side, mc, w, bound, share) == share * FreeCap(side, mc, w, bound)
  {
    if |w| > 0 {
      PaidIsShareOfFreeCap(side, mc[1..], w[1..], bound, share);
      var fc0 := if Free(side, w[0], bound) then mc[0] else 0.0;
      var fc := FreeCap(side, mc[1..], w[1..], bound);
      assert share * (fc0 + fc) == share * fc0 + share * fc;
    }
  }

  /** Redistribution changes the total by what the free entries receive, less
      the overflow cut off by clamping. */
  lemma {:induction false} RedistributeSum(side: Side, mc: seq<real>, w: seq<real>, bound: real, share: real)
    requires |mc| == |w|
    ensures Sum(Redistribute(side, mc, w, bound, share))
            == Sum(w) - Overflow(side, w, bound) + Paid(side, mc, w, bound, share)
  {
    if |w| > 0 {
      RedistributeSum(side, mc[1..], w[1..], bound, share);
    }
  }

  /** One iteration of the ceiling loop (hodlx.py:59-66) or of the floor loop
      (hodlx.py:75-82). */
  function Step(side: Side, mc: seq<real>, w: seq<real>, bound: real): (r: seq<real>)
    requires |mc| == |w| && AllPositive(mc)
    ensures |r| == |w|
    // clamped entries end exactly at the bound; pinned entries stay there
    ensures forall i :: 0 <= i < |w| && !Free(side, w[i], bound) ==> r[i] == bound
    // free entries move strictly toward the bound: up under a ceiling, down under a floor
    ensures side == Ceiling && AnyBeyond(side, w, bound) ==>
              forall i :: 0 <= i < |w| && w[i] < bound ==> r[i] > w[i]
    ensures side == Floor && AnyBeyond(side, w, bound) ==>
              forall i :: 0 <= i < |w| && w[i] > bound ==> r[i] < w[i]
    // under a floor, the only entries raised are the ones clamped up to the bound
    ensures side == Floor ==> forall i :: 0 <= i < |w| && r[i] > w[i] ==> r[i] == bound
    // the weight removed from out-of-bound entries is exactly what free entries receive
    ensures AnyFree(side, w, bound) ==> Sum(r) == Sum(w)
    // free entries gain (or lose) in proportion to their market caps
    ensures forall i, j :: 0 <= i < |w| && 0 <= j < |w| && Free(side, w[i], bound) && Free(side, w[j], bound) ==>
              (r[i] - w[i]) * mc[j] == (r[j] - w[j]) * mc[i]
  {
    var share := Share(side, mc, w, bound);
    ShareSign(side, mc, w, bound);
    ShareConserves(side, mc, w, bound);
    RedistributeMoves(side, mc, w, bound, share);
    RedistributeProportional(side, mc, w, bound, share);
    Redistribute(side, mc, w, bound, share)
  }

  /** The free entries' changes from `w` to `r` stand in the ratio of their
      market caps: entry `i` gains `mc[i] / mc[j]` times what entry `j` gains. */
  predicate SplitByCap(side: Side, mc: seq<real>, w: seq<real>, r: seq<real>, bound: real)
    requires |mc| == |w| == |r|
  {
    forall i, j :: 0 <= i < |w| && 0 <= j < |w| && Free(side, w[i], bound) && Free(side, w[j], bound) ==>
      (r[i] - w[i]) * mc[j] == (r[j] - w[j]) * mc[i]
  }

  /** Whatever the share, a redistribution splits by market cap. */
  lemma RedistributeProportional(side: Side, mc: seq<real>, w: seq<real>, bound: real, share: real)
    requires |mc| == |w|
    ensures SplitByCap(side, mc, w, Redistribute(side, mc, w, bound, share), bound)
  {
    var r := Redistribute(side, mc, w, bound, share);
    forall i, j | 0 <= i < |w| && 0 <= j < |w| && Free(side, w[i], bound) && Free(side, w[j], bound)
      ensures (r[i] - w[i]) * mc[j] == (r[j] - w[j]) * mc[i]
    {
      Swap(share, mc[i], mc[j], r[i] - w[i], r[j] - w[j]);
    }
    assert SplitByCap(side, mc, w, r, bound);
  }

  lemma Swap(s: real, a: real, b: real, da: real, db: real)
    requires da == s * a && db == s * b
    ensures da * b == db * a
  {
  }

  /** The overflow per unit of free market cap
      (`sum_above_max / market_cap[below_max].sum()`); nothing is paid when no
      entry is free. */
  function Share(side: Side, mc: seq<real>, w: seq<real>, bound: real): (share: real)
    requires |mc| == |w|
    ensures FreeCap(side, mc, w, bound) != 0.0 ==> share * FreeCap(side, mc, w, bound) == Overflow(side, w, bound)
  {
    var freeCap := FreeCap(side, mc, w, bound);
    if freeCap == 0.0 then 0.0 else Overflow(side, w, bound) / freeCap
  }

  /** The share has the sign of the overflow. */
  lemma ShareSign(side: Side, mc: seq<real>, w: seq<real>, bound: real)
    requires |mc| == |w| && AllPositive(mc)
    ensures side == Ceiling && AnyBeyond(side, w, bound) && AnyFree(side, w, bound) ==> Share(side, mc, w, bound) > 0.0
    ensures side == Floor && AnyBeyond(side, w, bound) && AnyFree(side, w, bound) ==> Share(side, mc, w, bound) < 0.0
    ensures side == Floor ==> Share(side, mc, w, bound) <= 0.0
  {
    FreeCapPositive(side, mc, w, bound);
    OverflowSign(side, w, bound);
    var freeCap := FreeCap(side, mc, w, bound);
    if freeCap != 0.0 {
      Quotient(Overflow(side, w, bound), freeCap);
    }
  }

  /** Paying the share to the free entries gives back exactly the overflow, so
      a step with a free entry keeps the total. */
  lemma ShareConserves(side: Side, mc: seq<real>, w: seq<real>, bound: real)
    requires |mc| == |w| && AllPositive(mc)
    ensures AnyFree(side, w, bound) ==> Sum(Redistribute(side, mc, w, bound, Share(side, mc, w, bound))) == Sum(w)
  {
    if AnyFree(side, w, bound) {
      FreeCapPositive(side, mc, w, bound);
      var share := Share(side, mc, w, bound);
      var paid := Paid(side, mc, w, bound, share);
      PaidIsShareOfFreeCap(side, mc, w, bound, share);
      assert paid == Overflow(side, w, bound);
      RedistributeSum(side, mc, w, bound, share);
    }
  }

  lemma Quotient(a: real, b: real)
    requires b > 0.0
    ensures a > 0.0 ==> a / b > 0.0
    ensures a < 0.0 ==> a / b < 0.0
    ensures a <= 0.0 ==> a / b <= 0.0
    ensures a / b * b == a
  {
  }

  /** Clamped and pinned entries end at the bound; free entries move by the
      sign of the share. */
  lemma RedistributeMoves(side: Side, mc: seq<real>, w: seq<real>, bound: real, share: real)
    requires |mc| == |w| && AllPositive(mc)
    ensures var r := Redistribute(side, mc, w, bound, share);
            && (forall i :: 0 <= i < |w| && !Free(side, w[i], bound) ==> r[i] == bound)
            && (share > 0.0 ==> forall i :: 0 <= i < |w| && Free(side, w[i], bound) ==> r[i] > w[i])
            && (share < 0.0 ==> forall i :: 0 <= i < |w| && Free(side, w[i], bound) ==> r[i] < w[i])
            && (share <= 0.0 ==> forall i :: 0 <= i < |w| && Free(side, w[i], bound) ==> r[i] <= w[i])
  {
    var r := Redistribute(side, mc, w, bound, share);
    forall i | 0 <= i < |w| && Free(side, w[i], bound)
      ensures share > 0.0 ==> r[i] > w[i]
      ensures share < 0.0 ==> r[i] < w[i]
      ensures share <= 0.0 ==> r[i] <= w[i]
    {
      assert r[i] == w[i] + share * mc[i];
      assert mc[i] > 0.0;
    }
  }

  /** If the bound is feasible and some entry is out of bound, some entry is
      free, so the redistribution has somewhere to go. */
  lemma FeasibleHasFree(side: Side, w: seq<real>, bound: real)
    requires Feasible(side, w, bound) && AnyBeyond(side, w, bound)
    ensures AnyFree(side, w, bound)
  {
    var j :| 0 <= j < |w| && Beyond(side, w[j], bound);
    if !AnyFree(side, w, bound) {
      match side
      case Ceiling =>
        SumAtLeast(w, bound, j);
        assert false;
      case Floor =>
        SumAtMost(w, bound, j);
        assert false;
    }
  }

  /** Where an entry that started at `x` may end once a pass is done: at the
      bound if it started at or beyond it, otherwise between its start and the
      bound. */
  predicate Settled(side: Side, x: real, y: real, bound: real) {
    match side
    case Ceiling => (bound <= x ==> y == bound) && (x <= bound ==> x <= y <= bound)
    case Floor => (x <= bound ==> y == bound) && (bound <= x ==> bound <= y <= x)
  }

  /** An entry that one step clamps, or moves toward the bound, and that the
      rest of the pass then settles, is settled by the whole pass. */
  lemma SettledAfterStep(side: Side, x: real, y: real, z: real, bound: real)
    requires !Free(side, x, bound) ==> y == bound
    requires side == Ceiling && Free(side, x, bound) ==> y >= x
    requires side == Floor && Free(side, x, bound) ==> y <= x
    requires Settled(side, y, z, bound)
    ensures Settled(side, x, z, bound)
  {
  }

  /** A step taken while some entry is out of bound pins strictly more entries
      at the bound than there were before, so at most `|w|` steps are taken. */
  lemma StepPinsMore(side: Side, mc: seq<real>, w: seq<real>, bound: real)
    requires |mc| == |w| && AllPositive(mc) && AnyBeyond(side, w, bound)
    ensures CountAt(w, bound) < CountAt(Step(side, mc, w, bound), bound)
  {
    var j :| 0 <= j < |w| && Beyond(side, w[j], bound);
    CountAtGrows(w, Step(side, mc, w, bound), bound);
  }

  lemma FeasibleKept(side: Side, w: seq<real>, w': seq<real>, bound: real)
    requires |w'| == |w| && Sum(w') == Sum(w) && Feasible(side, w, bound)
    ensures Feasible(side, w', bound)
  {
  }

  /** The whole ceiling loop (hodlx.py:56-69) or floor loop (hodlx.py:71-84):
      repeat `Step` until no entry is out of bound. Each step pins at least one
      more entry at the bound, so the loop ends after at most `|w|` steps. */
  function Pass(side: Side, mc: seq<real>, w: seq<real>, bound: real): (r: seq<real>)
    requires |mc| == |w| && AllPositive(mc)
    ensures |r| == |w|
    ensures forall i :: 0 <= i < |r| ==> !Beyond(side, r[i], bound)
    ensures forall i :: 0 <= i < |w| ==> Settled(side, w[i], r[i], bound)
    ensures Feasible(side, w, bound) ==> Sum(r) == Sum(w)
    decreases |w| - CountAt(w, bound)
  {
    if !AnyBeyond(side, w, bound) then
      assert forall i :: 0 <= i < |w| ==> Settled(side, w[i], w[i], bound);
      w
    else
      var w' := Step(side, mc, w, bound);
      assert Feasible(side, w, bound) ==> Sum(w') == Sum(w) && Feasible(side, w', bound) by {
        if Feasible(side, w, bound) {
          FeasibleHasFree(side, w, bound);
          FeasibleKept(side, w, w', bound);
        }
      }
      StepPinsMore(side, mc, w, bound);
      var r := Pass(side, mc, w', bound);
      assert forall i :: 0 <= i < |w| ==> Settled(side, w[i], r[i], bound) by {
        forall i | 0 <= i < |w| {
          SettledAfterStep(side, w[i], w'[i], r[i], bound);
        }
      }
      r
  }

  /** A vector with nothing out of bound is a fixed point of the pass. */
  lemma PassFixedPoint(side: Side, mc: seq<real>, w: seq<real>, bound: real)
    requires |mc| == |w| && AllPositive(mc)
    requires forall i :: 0 <= i < |w| ==> !Beyond(side, w[i], bound)
    ensures Pass(side, mc, w, bound) == w
  {
  }

  /** While some entry is out of bound the loop takes one more step. */
  lemma PassSteps(side: Side, mc: seq<real>, w: seq<real>, bound: real, j: int)
    requires |mc| == |w| && AllPositive(mc)
    requires 0 <= j < |w| && Beyond(side, w[j], bound)
    ensures Pass(side, mc, w, bound) == Pass(side, mc, Step(side, mc, w, bound), bound)
  {
  }

  /** The `while not all_weights_below_max` loop as written: step until no
      entry is out of bound, counting the rounds. It computes `Pass`, and the
      number of rounds never exceeds the number of entries not yet pinned. */
  method RunPass(side: Side, mc: seq<real>, w: seq<real>, bound: real) returns (r: seq<real>, rounds: nat)
    requires |mc| == |w| && AllPositive(mc)
    ensures r == Pass(side, mc, w, bound)
    ensures rounds <= |w| - CountAt(w, bound)
  {
    r := w;
    rounds := 0;
    var done := false;
    while !done
      invariant |r| == |w|
      invariant Pass(side, mc, r, bound) == Pass(side, mc, w, bound)
      invariant rounds + |r| - CountAt(r, bound) <= |w| - CountAt(w, bound)
      invariant done ==> !AnyBeyond(side, r, bound)
      decreases |r| - CountAt(r, bound) + (if done then 0 else 1)
    {
      if AnyBeyond(side, r, bound) {
        StepPinsMore(side, mc, r, bound);
        r := Step(side, mc, r, bound);
        rounds := rounds + 1;
      } else {
        done := true;
      }
    }
  }

  /** The proportional allocation `market_cap / market_cap.sum()`
      (hodlx.py:54): every entry is its cap's share of the total. */
  function Proportional(mc: seq<real>): (r: seq<real>)
    requires AllPositive(mc)
    ensures |r| == |mc|
    ensures forall i :: 0 <= i < |mc| ==> r[i] * Sum(mc) == mc[i]
    ensures AllPositive(r)
    ensures |mc| > 0 ==> Sum(r) == 1.0
  {
    SumPositive(mc);
    if |mc| == 0 then [] else Scale(mc, 1.0 / Sum(mc))
  }

  /** The starting weights: the supplied ones, or the proportional allocation
      when none are given (hodlx.py:53-54). */
  function Start(mc: seq<real>, weights: Option<seq<real>>): (r: seq<real>)
    requires AllPositive(mc)
    ensures weights.Some? ==> r == weights.value
    ensures weights.None? ==> |r| == |mc| && forall i :: 0 <= i < |mc| ==> r[i] * Sum(mc) == mc[i]
    ensures weights.None? && |mc| > 0 ==> Sum(r) == 1.0
  {
    if weights.Some? then weights.value else Proportional(mc)
  }

  /** Both bounds can be met without losing weight from the starting total:
      at most `max_weight` and at least `min_weight` per entry on average. */
  predicate BoundsFeasible(w: seq<real>, minWeight: Option<real>, maxWeight: Option<real>) {
    && (maxWeight.Some? ==> Feasible(Ceiling, w, maxWeight.value))
    && (minWeight.Some? ==> Feasible(Floor, w, minWeight.value))
  }

  /** `compute_weights` before its final rounding (hodlx.py:52-85): start from
      the supplied or proportional weights, run the ceiling pass if
      `max_weight` is given, then the floor pass if `min_weight` is given. */
  function ComputeWeights(mc: seq<real>, weights: Option<seq<real>>,
                          minWeight: Option<real>, maxWeight: Option<real>): (r: seq<real>)
    requires AllPositive(mc)
    requires weights.Some? ==> |weights.value| == |mc|
    ensures |r| == |mc|
    // no bound: the starting weights come back unchanged
    ensures minWeight.None? && maxWeight.None? ==> r == Start(mc, weights)
    // the ceiling holds at the end, also after the floor pass, when min <= max
    ensures maxWeight.Some? && (minWeight.None? || minWeight.value <= maxWeight.value) ==>
              forall i :: 0 <= i < |r| ==> r[i] <= maxWeight.value
    ensures minWeight.Some? ==> forall i :: 0 <= i < |r| ==> minWeight.value <= r[i]
    // with only a ceiling, every entry is settled against it
    ensures maxWeight.Some? && minWeight.None? ==>
              forall i :: 0 <= i < |r| ==> Settled(Ceiling, Start(mc, weights)[i], r[i], maxWeight.value)
    // feasible bounds keep the starting total
    ensures BoundsFeasible(Start(mc, weights), minWeight, maxWeight) ==> Sum(r) == Sum(Start(mc, weights))
  {
    var w0 := Start(mc, weights);
    var w1 := MaybePass(Ceiling, mc, w0, maxWeight);
    var r := MaybePass(Floor, mc, w1, minWeight);
    assert BoundsFeasible(w0, minWeight, maxWeight) ==> Sum(r) == Sum(w0) by {
      if BoundsFeasible(w0, minWeight, maxWeight) && minWeight.Some? {
        FeasibleKept(Floor, w0, w1, minWeight.value);
      }
    }
    CeilingSurvivesFloor(w0, w1, r, minWeight, maxWeight);
    r
  }

  /** One optional pass: the loop runs only when its bound is given. */
  function MaybePass(side: Side, mc: seq<real>, w: seq<real>, bound: Option<real>): (r: seq<real>)
    requires |mc| == |w| && AllPositive(mc)
    ensures |r| == |w|
    ensures bound.None? ==> r == w
    ensures bound.Some? ==> forall i :: 0 <= i < |w| ==> Settled(side, w[i], r[i], bound.value)
    ensures bound.Some? && Feasible(side, w, bound.value) ==> Sum(r) == Sum(w)
  {
    if bound.Some? then Pass(side, mc, w, bound.value) else w
  }

  /** A ceiling pass followed by a floor pass whose bound is at most the
      ceiling leaves every entry under the ceiling. */
  lemma CeilingSurvivesFloor(w0: seq<real>, w1: seq<real>, r: seq<real>,
                             minWeight: Option<real>, maxWeight: Option<real>)
    requires |w1| == |w0| && |r| == |w0|
    requires maxWeight.Some? ==> forall i :: 0 <= i < |w0| ==> Settled(Ceiling, w0[i], w1[i], maxWeight.value)
    requires maxWeight.None? ==> w1 == w0
    requires minWeight.Some? ==> forall i :: 0 <= i < |w1| ==> Settled(Floor, w1[i], r[i], minWeight.value)
    requires minWeight.None? ==> r == w1
    ensures maxWeight.Some? && (minWeight.None? || minWeight.value <= maxWeight.value) ==>
              forall i :: 0 <= i < |r| ==> r[i] <= maxWeight.value
    ensures minWeight.Some? ==> forall i :: 0 <= i < |r| ==> minWeight.value <= r[i]
  {
    if maxWeight.Some? && minWeight.Some? && minWeight.value <= maxWeight.value {
      forall i | 0 <= i < |r|
        ensures r[i] <= maxWeight.value
      {
        FloorKeepsCeiling(w1[i], r[i], minWeight.value, maxWeight.value);
      }
    }
  }

  /** The floor pass never lifts an entry above a ceiling that is at least
      the floor. */
  lemma FloorKeepsCeiling(x: real, y: real, lo: real, hi: real)
    requires x <= hi && lo <= hi && Settled(Floor, x, y, lo)
    ensures y <= hi
  {
  }

  /** With no starting weights and no bounds, `compute_weights` is exactly the
      proportional allocation, which totals 1. */
  lemma UnboundedIsProportional(mc: seq<real>)
    requires AllPositive(mc)
    ensures ComputeWeights(mc, None, None, None) == Proportional(mc)
  {
  }

  /** Feeding the result back in as the starting weights, with the same
      bounds, changes nothing: the result is a fixed point of both passes. */
  lemma ComputeWeightsIdempotent(mc: seq<real>, weights: Option<seq<real>>,
                                 minWeight: Option<real>, maxWeight: Option<real>)
    requires AllPositive(mc)
    requires weights.Some? ==> |weights.value| == |mc|
    requires minWeight.Some? && maxWeight.Some? ==> minWeight.value <= maxWeight.value
    ensures var r := ComputeWeights(mc, weights, minWeight, maxWeight);
            ComputeWeights(mc, Some(r), minWeight, maxWeight) == r
  {
    var r := ComputeWeights(mc, weights, minWeight, maxWeight);
    if maxWeight.Some? {
      PassFixedPoint(Ceiling, mc, r, maxWeight.value);
    }
    if minWeight.Some? {
      PassFixedPoint(Floor, mc, r, minWeight.value);
    }
  }
}
