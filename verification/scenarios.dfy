/** Worked scenarios: the capper and the bucket split run on a concrete
    six-asset universe with market caps 500, 300, 100, 60, 25 and 15. */
module Scenarios {
  import opened Vectors
  import opened Capper
  import opened Tiered

  /** The successive tails of a six-element display. */
  lemma Tails6<T>(a: T, b: T, c: T, d: T, e: T, f: T)
    ensures [a, b, c, d, e, f][1..] == [b, c, d, e, f]
    ensures [b, c, d, e, f][1..] == [c, d, e, f]
    ensures [c, d, e, f][1..] == [d, e, f]
    ensures [d, e, f][1..] == [e, f]
    ensures [e, f][1..] == [f]
    ensures [f][1..] == []
  {
  }

  /** Six positive reals form a positive vector. */
  lemma Positive6(a: real, b: real, c: real, d: real, e: real, f: real)
    requires a > 0.0 && b > 0.0 && c > 0.0 && d > 0.0 && e > 0.0 && f > 0.0
    ensures AllPositive([a, b, c, d, e, f])
  {
    var s := [a, b, c, d, e, f];
    forall i | 0 <= i < |s|
      ensures s[i] > 0.0
    {
      if i < 3 {
        assert s[i] == if i == 0 then a else if i == 1 then b else c;
      } else {
        assert s[i] == if i == 3 then d else if i == 4 then e else f;
      }
    }
  }

  /** Six entries at or under the ceiling leave nothing for the loop to do. */
  lemma Under6(a: real, b: real, c: real, d: real, e: real, f: real, bound: real)
    requires a <= bound && b <= bound && c <= bound && d <= bound && e <= bound && f <= bound
    ensures forall i :: 0 <= i < |[a, b, c, d, e, f]| ==> !Beyond(Ceiling, [a, b, c, d, e, f][i], bound)
  {
    var s := [a, b, c, d, e, f];
    forall i | 0 <= i < |s|
      ensures !Beyond(Ceiling, s[i], bound)
    {
      if i < 3 {
        assert s[i] == if i == 0 then a else if i == 1 then b else c;
      } else {
        assert s[i] == if i == 3 then d else if i == 4 then e else f;
      }
    }
  }

  /** One entry's term of `Overflow` under a ceiling. */
  function Over(x: real, bound: real): real {
    if Beyond(Ceiling, x, bound) then x - bound else 0.0
  }

  /** The ceiling overflow of six entries, unrolled. */
  lemma Overflow6(a: real, b: real, c: real, d: real, e: real, f: real, bound: real)
    ensures Overflow(Ceiling, [a, b, c, d, e, f], bound)
            == Over(a, bound) + Over(b, bound) + Over(c, bound) + Over(d, bound) + Over(e, bound) + Over(f, bound)
  {
    Tails6(a, b, c, d, e, f);
    assert Overflow(Ceiling, [f], bound) == Over(f, bound);
    assert Overflow(Ceiling, [e, f], bound) == Over(e, bound) + Over(f, bound);
    assert Overflow(Ceiling, [d, e, f], bound) == Over(d, bound) + Over(e, bound) + Over(f, bound);
    assert Overflow(Ceiling, [c, d, e, f], bound) == Over(c, bound) + Over(d, bound) + Over(e, bound) + Over(f, bound);
    assert Overflow(Ceiling, [b, c, d, e, f], bound) == Over(b, bound) + Over(c, bound) + Over(d, bound) + Over(e, bound) + Over(f, bound);
  }

  /** One entry's term of `FreeCap` under a ceiling. */
  function FreeC(m: real, x: real, bound: real): real {
    if Free(Ceiling, x, bound) then m else 0.0
  }

  /** The free market cap of six entries under a ceiling, unrolled. */
  lemma FreeCap6(ma: real, mb: real, mc: real, md: real, me: real, mf: real,
                 a: real, b: real, c: real, d: real, e: real, f: real, bound: real)
    ensures FreeCap(Ceiling, [ma, mb, mc, md, me, mf], [a, b, c, d, e, f], bound)
            == FreeC(ma, a, bound) + FreeC(mb, b, bound) + FreeC(mc, c, bound) + FreeC(md, d, bound) + FreeC(me, e, bound) + FreeC(mf, f, bound)
  {
    Tails6(a, b, c, d, e, f);
    Tails6(ma, mb, mc, md, me, mf);
    assert FreeCap(Ceiling, [mf], [f], bound) == FreeC(mf, f, bound);
    assert FreeCap(Ceiling, [me, mf], [e, f], bound) == FreeC(me, e, bound) + FreeC(mf, f, bound);
    assert FreeCap(Ceiling, [md, me, mf], [d, e, f], bound) == FreeC(md, d, bound) + FreeC(me, e, bound) + FreeC(mf, f, bound);
    assert FreeCap(Ceiling, [mc, md, me, mf], [c, d, e, f], bound) == FreeC(mc, c, bound) + FreeC(md, d, bound) + FreeC(me, e, bound) + FreeC(mf, f, bound);
    assert FreeCap(Ceiling, [mb, mc, md, me, mf], [b, c, d, e, f], bound) == FreeC(mb, b, bound) + FreeC(mc, c, bound) + FreeC(md, d, bound) + FreeC(me, e, bound) + FreeC(mf, f, bound);
  }

  /** The proportional start is 50%, 30%, 10%, 6%, 2.5% and 1.5%. */
  lemma ExampleProportional()
    ensures Proportional([500.0, 300.0, 100.0, 60.0, 25.0, 15.0]) == [0.5, 0.3, 0.1, 0.06, 0.025, 0.015]
  {
    Tails6(500.0, 300.0, 100.0, 60.0, 25.0, 15.0);
    assert Sum([500.0, 300.0, 100.0, 60.0, 25.0, 15.0]) == 1000.0;
  }

  /** A ceiling redistribution of six entries, unrolled. */
  lemma Redistribute6(ma: real, mb: real, mc: real, md: real, me: real, mf: real,
                      a: real, b: real, c: real, d: real, e: real, f: real, bound: real, share: real)
    ensures Redistribute(Ceiling, [ma, mb, mc, md, me, mf], [a, b, c, d, e, f], bound, share)
            == [Adjust(Ceiling, ma, a, bound, share), Adjust(Ceiling, mb, b, bound, share),
                Adjust(Ceiling, mc, c, bound, share), Adjust(Ceiling, md, d, bound, share),
                Adjust(Ceiling, me, e, bound, share), Adjust(Ceiling, mf, f, bound, share)]
  {
    var r := Redistribute(Ceiling, [ma, mb, mc, md, me, mf], [a, b, c, d, e, f], bound, share);
    assert |r| == 6;
    assert r[0] == Adjust(Ceiling, ma, a, bound, share);
    assert r[1] == Adjust(Ceiling, mb, b, bound, share);
    assert r[2] == Adjust(Ceiling, mc, c, bound, share);
    assert r[3] == Adjust(Ceiling, md, d, bound, share);
    assert r[4] == Adjust(Ceiling, me, e, bound, share);
    assert r[5] == Adjust(Ceiling, mf, f, bound, share);
  }

  /** Under a 35% ceiling the first step clamps the first asset and hands
      its 15% excess to the other five by market cap, lifting the second
      asset over the ceiling. */
  lemma ExampleFirstStep()
    ensures Step(Ceiling, [500.0, 300.0, 100.0, 60.0, 25.0, 15.0], [0.5, 0.3, 0.1, 0.06, 0.025, 0.015], 0.35)
            == [0.35, 0.39, 0.13, 0.078, 0.0325, 0.0195]
  {
    Positive6(500.0, 300.0, 100.0, 60.0, 25.0, 15.0);
    Overflow6(0.5, 0.3, 0.1, 0.06, 0.025, 0.015, 0.35);
    FreeCap6(500.0, 300.0, 100.0, 60.0, 25.0, 15.0, 0.5, 0.3, 0.1, 0.06, 0.025, 0.015, 0.35);
    // 15% over the ceiling, shared among 500 units of free market cap
    assert Share(Ceiling, [500.0, 300.0, 100.0, 60.0, 25.0, 15.0], [0.5, 0.3, 0.1, 0.06, 0.025, 0.015], 0.35) == 0.0003;
    Redistribute6(500.0, 300.0, 100.0, 60.0, 25.0, 15.0, 0.5, 0.3, 0.1, 0.06, 0.025, 0.015, 0.35, 0.0003);
  }

  /** The second step clamps the second asset and hands its 4% excess to
      the last four. */
  lemma ExampleSecondStep()
    ensures Step(Ceiling, [500.0, 300.0, 100.0, 60.0, 25.0, 15.0], [0.35, 0.39, 0.13, 0.078, 0.0325, 0.0195], 0.35)
            == [0.35, 0.35, 0.15, 0.09, 0.0375, 0.0225]
  {
    Positive6(500.0, 300.0, 100.0, 60.0, 25.0, 15.0);
    Overflow6(0.35, 0.39, 0.13, 0.078, 0.0325, 0.0195, 0.35);
    FreeCap6(500.0, 300.0, 100.0, 60.0, 25.0, 15.0, 0.35, 0.39, 0.13, 0.078, 0.0325, 0.0195, 0.35);
    // 4% over the ceiling, shared among 200 units of free market cap
    assert Share(Ceiling, [500.0, 300.0, 100.0, 60.0, 25.0, 15.0], [0.35, 0.39, 0.13, 0.078, 0.0325, 0.0195], 0.35) == 0.0002;
    Redistribute6(500.0, 300.0, 100.0, 60.0, 25.0, 15.0, 0.35, 0.39, 0.13, 0.078, 0.0325, 0.0195, 0.35, 0.0002);
  }

  /** After the second step nothing is over the ceiling. */
  lemma ExampleSecondPass()
    ensures Pass(Ceiling, [500.0, 300.0, 100.0, 60.0, 25.0, 15.0], [0.35, 0.39, 0.13, 0.078, 0.0325, 0.0195], 0.35)
            == [0.35, 0.35, 0.15, 0.09, 0.0375, 0.0225]
  {
    var mc := [500.0, 300.0, 100.0, 60.0, 25.0, 15.0];
    var w1 := [0.35, 0.39, 0.13, 0.078, 0.0325, 0.0195];
    Positive6(500.0, 300.0, 100.0, 60.0, 25.0, 15.0);
    ExampleSecondStep();
    PassSteps(Ceiling, mc, w1, 0.35, 1);
    Under6(0.35, 0.35, 0.15, 0.09, 0.0375, 0.0225, 0.35);
    PassFixedPoint(Ceiling, [500.0, 300.0, 100.0, 60.0, 25.0, 15.0], [0.35, 0.35, 0.15, 0.09, 0.0375, 0.0225], 0.35);
  }

  /** The ceiling pass takes exactly the two steps above. */
  lemma ExampleFirstPass()
    ensures Pass(Ceiling, [500.0, 300.0, 100.0, 60.0, 25.0, 15.0], [0.5, 0.3, 0.1, 0.06, 0.025, 0.015], 0.35)
            == [0.35, 0.35, 0.15, 0.09, 0.0375, 0.0225]
  {
    var mc := [500.0, 300.0, 100.0, 60.0, 25.0, 15.0];
    var w0 := [0.5, 0.3, 0.1, 0.06, 0.025, 0.015];
    Positive6(500.0, 300.0, 100.0, 60.0, 25.0, 15.0);
    ExampleFirstStep();
    PassSteps(Ceiling, mc, w0, 0.35, 0);
    ExampleSecondPass();
  }

  /** `compute_weights(mcap, max_weight=0.35)` on the six assets, before
      rounding: no entry above 35%, total still 1. */
  lemma CeilingExample()
    ensures ComputeWeights([500.0, 300.0, 100.0, 60.0, 25.0, 15.0], None, None, Some(0.35))
            == [0.35, 0.35, 0.15, 0.09, 0.0375, 0.0225]
  {
    Positive6(500.0, 300.0, 100.0, 60.0, 25.0, 15.0);
    ExampleProportional();
    ExampleFirstPass();
  }

  /** Of the proportional weights only the first four exceed 4.5%. */
  lemma ExampleAboveSmall()
    ensures AboveSmall([0.5, 0.3, 0.1, 0.06, 0.025, 0.015]) == [true, true, true, true, false, false]
    ensures CountTrue([true, true, true, true, false, false]) == 4
  {
    var m := AboveSmall([0.5, 0.3, 0.1, 0.06, 0.025, 0.015]);
    assert m[0] && m[1] && m[2] && m[3] && !m[4] && !m[5];
    Tails6(true, true, true, true, false, false);
    assert CountTrue([false]) == 0;
    assert CountTrue([false, false]) == 0;
    assert CountTrue([true, false, false]) == 1;
    assert CountTrue([true, true, false, false]) == 2;
    assert CountTrue([true, true, true, false, false]) == 3;
  }

  /** Only four of the six assets exceed 4.5%, so the first five positions
      form the large bucket. */
  lemma ForcedTopFive()
    ensures Bucket([500.0, 300.0, 100.0, 60.0, 25.0, 15.0]) == [true, true, true, true, true, false]
  {
    Positive6(500.0, 300.0, 100.0, 60.0, 25.0, 15.0);
    ExampleProportional();
    ExampleAboveSmall();
    var large := Bucket([500.0, 300.0, 100.0, 60.0, 25.0, 15.0]);
    assert large[0] && large[1] && large[2] && large[3] && large[4] && !large[5];
  }

  /** Two equal caps form a positive vector. */
  lemma PositivePair()
    ensures AllPositive([1.0, 1.0])
  {
    var mc := [1.0, 1.0];
    forall i | 0 <= i < 2
      ensures mc[i] > 0.0
    {
    }
  }

  /** A 50% floor no pair can meet creates weight: every entry is clamped up,
      nothing is left free to pay for it, and 0.6 becomes 1.0. */
  lemma FloorCreatesWeight()
    ensures Pass(Floor, [1.0, 1.0], [0.3, 0.3], 0.5) == [0.5, 0.5]
    ensures Sum([0.3, 0.3]) == 0.6 && Sum([0.5, 0.5]) == 1.0
  {
    PositivePair();
    PassSteps(Floor, [1.0, 1.0], [0.3, 0.3], 0.5, 0);
    assert Step(Floor, [1.0, 1.0], [0.3, 0.3], 0.5) == [0.5, 0.5];
    PassFixedPoint(Floor, [1.0, 1.0], [0.5, 0.5], 0.5);
  }

  /** A 30% ceiling no pair can meet loses weight: every entry is clamped
      down, nothing is left free to receive the excess, and 1.2 becomes 0.6. */
  lemma CeilingLosesWeight()
    ensures Pass(Ceiling, [1.0, 1.0], [0.6, 0.6], 0.3) == [0.3, 0.3]
    ensures Sum([0.6, 0.6]) == 1.2 && Sum([0.3, 0.3]) == 0.6
  {
    PositivePair();
    PassSteps(Ceiling, [1.0, 1.0], [0.6, 0.6], 0.3, 0);
    assert Step(Ceiling, [1.0, 1.0], [0.6, 0.6], 0.3) == [0.3, 0.3];
    PassFixedPoint(Ceiling, [1.0, 1.0], [0.3, 0.3], 0.3);
  }
}
