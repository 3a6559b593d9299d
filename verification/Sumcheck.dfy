/** The sum-check protocol (spartan/src/sumcheck.rs, spartan/src/crr1csproof.rs).

    A prover claims the value of a weighted sum of hypercube sums; each round the first variable of
    every table is bound to a challenge. This module holds the verifier and the theory that all the
    provers share: what a round does to the claimed value, and why a false claim cannot survive
    unless a challenge hits a point where two different polynomials agree. */
module Sumcheck {
  import opened Field
  import opened Vectors
  import opened Powers
  import opened Multilinear
  import opened UniPoly
  import opened Transcript

  // ---- Hypercube sums ----

  /** Combines the entries that the tables of one instance hold at one point (`comb_func`). */
  type Combiner = seq<F> -> F

  type Instance = seq<Table>

  ghost predicate Uniform(Ts: Instance, n: nat) {
    forall j :: 0 <= j < |Ts| ==> |Ts[j]| == Pow2(n)
  }

  function Column(Ts: Instance, i: nat): (v: seq<F>)
    requires forall j :: 0 <= j < |Ts| ==> i < |Ts[j]|
    ensures |v| == |Ts|
  {
    seq(|Ts|, j requires 0 <= j < |Ts| => Ts[j][i])
  }

  ghost function Los(Ts: Instance): Instance {
    seq(|Ts|, j requires 0 <= j < |Ts| => Lo(Ts[j]))
  }

  ghost function His(Ts: Instance): Instance {
    seq(|Ts|, j requires 0 <= j < |Ts| => Hi(Ts[j]))
  }

  ghost function Lerps(As: Instance, Bs: Instance, t: F): Instance
    requires |As| == |Bs|
    requires forall j :: 0 <= j < |As| ==> |As[j]| == |Bs[j]|
  {
    seq(|As|, j requires 0 <= j < |As| => Lerp(As[j], Bs[j], t))
  }

  /** Fixes the first variable of every table. */
  ghost function Binds(Ts: Instance, n: nat, t: F): (Us: Instance)
    requires Uniform(Ts, n + 1)
    ensures |Us| == |Ts| && Uniform(Us, n)
  {
    seq(|Ts|, j requires 0 <= j < |Ts| => Bind(Ts[j], t))
  }

  /** The sum over the hypercube of the combined entries. */
  ghost function HypercubeSum(g: Combiner, Ts: Instance, n: nat): F
    requires Uniform(Ts, n)
    decreases n
  {
    if n == 0 then g(Column(Ts, 0))
    else Add(HypercubeSum(g, Los(Ts), n - 1), HypercubeSum(g, His(Ts), n - 1))
  }

  /** The first m terms of that sum, in the order of the provers' loops. */
  ghost function PartialSum(g: Combiner, Ts: Instance, m: nat): F
    requires forall j :: 0 <= j < |Ts| ==> m <= |Ts[j]|
  {
    if m == 0 then 0 else Add(PartialSum(g, Ts, m - 1), g(Column(Ts, m - 1)))
  }

  lemma {:induction false} PartialSumSplits(g: Combiner, Ts: Instance, Us: Instance, Vs: Instance, a: nat, b: nat)
    requires |Ts| == |Us| == |Vs|
    requires forall j :: 0 <= j < |Ts| ==> |Ts[j]| >= a + b && |Us[j]| >= a && |Vs[j]| >= b
    requires forall j, i :: 0 <= j < |Ts| && 0 <= i < a ==> Ts[j][i] == Us[j][i]
    requires forall j, i :: 0 <= j < |Ts| && 0 <= i < b ==> Ts[j][a + i] == Vs[j][i]
    ensures PartialSum(g, Ts, a + b) == Add(PartialSum(g, Us, a), PartialSum(g, Vs, b))
    decreases a + b
  {
    if b > 0 {
      PartialSumSplits(g, Ts, Us, Vs, a, b - 1);
      assert Column(Ts, a + b - 1) == Column(Vs, b - 1);
      AddAssociates(PartialSum(g, Us, a), PartialSum(g, Vs, b - 1), g(Column(Vs, b - 1)));
    } else if a > 0 {
      PartialSumSplits(g, Ts, Us, Vs, a - 1, 0);
      assert Column(Ts, a - 1) == Column(Us, a - 1);
      AddZero(PartialSum(g, Us, a - 1));
      AddZero(PartialSum(g, Us, a));
    } else {
      AddZero(0);
    }
  }

  lemma UniformHalves(Ts: Instance, n: nat)
    requires Uniform(Ts, n + 1)
    ensures Uniform(Los(Ts), n) && Uniform(His(Ts), n)
  {
  }

  lemma PartialSumHalves(g: Combiner, Ts: Instance, n: nat)
    requires Uniform(Ts, n + 1) && Uniform(Los(Ts), n) && Uniform(His(Ts), n)
    ensures PartialSum(g, Ts, Pow2(n + 1))
         == Add(PartialSum(g, Los(Ts), Pow2(n)), PartialSum(g, His(Ts), Pow2(n)))
  {
    var h := Pow2(n);
    assert Pow2(n + 1) == h + h;
    PartialSumSplits(g, Ts, Los(Ts), His(Ts), h, h);
  }

  /** The linear loop computes the hypercube sum. */
  lemma {:induction false} PartialSumIsHypercubeSum(g: Combiner, Ts: Instance, n: nat)
    requires Uniform(Ts, n)
    ensures PartialSum(g, Ts, Pow2(n)) == HypercubeSum(g, Ts, n)
    decreases n
  {
    if n == 0 {
      assert PartialSum(g, Ts, 1) == Add(PartialSum(g, Ts, 0), g(Column(Ts, 0)));
      AddZero(g(Column(Ts, 0)));
    } else {
      UniformHalves(Ts, n - 1);
      PartialSumHalves(g, Ts, n - 1);
      PartialSumIsHypercubeSum(g, Los(Ts), n - 1);
      PartialSumIsHypercubeSum(g, His(Ts), n - 1);
    }
  }

  lemma BindEnds(Z: Table)
    requires |Z| % 2 == 0
    ensures Bind(Z, 0) == Lo(Z)
    ensures Bind(Z, 1) == Hi(Z)
  {
    forall i | 0 <= i < |Z| / 2
      ensures Bind(Z, 0)[i] == Lo(Z)[i] && Bind(Z, 1)[i] == Hi(Z)[i]
    {
      InterpEnds(Lo(Z)[i], Hi(Z)[i]);
    }
  }

  /** The sum is the sum with the first variable at 0 plus the sum with it at 1. */
  lemma SumSplits(g: Combiner, Ts: Instance, n: nat)
    requires Uniform(Ts, n + 1)
    ensures HypercubeSum(g, Ts, n + 1)
         == Add(HypercubeSum(g, Binds(Ts, n, 0), n), HypercubeSum(g, Binds(Ts, n, 1), n))
  {
    forall j | 0 <= j < |Ts|
      ensures Bind(Ts[j], 0) == Lo(Ts[j]) && Bind(Ts[j], 1) == Hi(Ts[j])
    {
      BindEnds(Ts[j]);
    }
    assert Los(Ts) == Binds(Ts, n, 0);
    assert His(Ts) == Binds(Ts, n, 1);
  }

  // ---- Round polynomials have low degree ----

  /** If y holds the values at 0..d along the line from a to b, the value at t is on the polynomial
      through them. */
  ghost predicate OnPolynomial(g: Combiner, a: seq<F>, b: seq<F>, d: nat, y: seq<F>, t: F)
    requires (d == 2 || d == 3) && |a| == |b| && |y| == d + 1
  {
    (forall i :: 0 <= i <= d ==> y[i] == g(Lerp(a, b, i))) ==> g(Lerp(a, b, t)) == Through(y, t)
  }

  /** Along every line the combined value is a polynomial of degree d. */
  ghost predicate LowDegree(g: Combiner, k: nat, d: nat)
    requires d == 2 || d == 3
  {
    forall a: seq<F>, b: seq<F>, y: seq<F>, t: F {:trigger OnPolynomial(g, a, b, d, y, t)} ::
      |a| == |b| == k && |y| == d + 1 ==> OnPolynomial(g, a, b, d, y, t)
  }

  /** The sums along the line from As to Bs at 0..d. */
  ghost function Samples(g: Combiner, As: Instance, Bs: Instance, n: nat, d: nat): (y: seq<F>)
    requires d <= 3
    requires |As| == |Bs| && Uniform(As, n) && Uniform(Bs, n)
    ensures |y| == d + 1
    ensures forall i :: 0 <= i <= d ==> y[i] == HypercubeSum(g, Lerps(As, Bs, i), n)
  {
    seq<F>(d + 1, i requires 0 <= i <= d => HypercubeSum(g, Lerps(As, Bs, i), n))
  }

  lemma HalvesOfLerps(As: Instance, Bs: Instance, n: nat, t: F)
    requires |As| == |Bs| && Uniform(As, n + 1) && Uniform(Bs, n + 1)
    ensures Los(Lerps(As, Bs, t)) == Lerps(Los(As), Los(Bs), t)
    ensures His(Lerps(As, Bs, t)) == Lerps(His(As), His(Bs), t)
  {
    forall j | 0 <= j < |As|
      ensures Lo(Lerp(As[j], Bs[j], t)) == Lerp(Lo(As[j]), Lo(Bs[j]), t)
      ensures Hi(Lerp(As[j], Bs[j], t)) == Lerp(Hi(As[j]), Hi(Bs[j]), t)
    {
    }
  }

  lemma SamplesSplit(g: Combiner, As: Instance, Bs: Instance, n: nat, d: nat)
    requires d <= 3
    requires |As| == |Bs| && Uniform(As, n + 1) && Uniform(Bs, n + 1)
    ensures Samples(g, As, Bs, n + 1, d)
         == Combine(1, Samples(g, Los(As), Los(Bs), n, d), 1, Samples(g, His(As), His(Bs), n, d))
  {
    hide Add, Mul, PartialSum;
    forall i: F | 0 <= i <= d
      ensures Samples(g, As, Bs, n + 1, d)[i]
           == Combine(1, Samples(g, Los(As), Los(Bs), n, d), 1, Samples(g, His(As), His(Bs), n, d))[i]
    {
      HalvesOfLerps(As, Bs, n, i);
      MulOne(Samples(g, Los(As), Los(Bs), n, d)[i]);
      MulOne(Samples(g, His(As), His(Bs), n, d)[i]);
    }
  }

  lemma ColumnOfLerps(As: Instance, Bs: Instance, t: F)
    requires |As| == |Bs| && Uniform(As, 0) && Uniform(Bs, 0)
    ensures Column(Lerps(As, Bs, t), 0) == Lerp(Column(As, 0), Column(Bs, 0), t)
  {
  }

  lemma PointThroughSamples(g: Combiner, As: Instance, Bs: Instance, d: nat, t: F)
    requires d == 2 || d == 3
    requires |As| == |Bs| && Uniform(As, 0) && Uniform(Bs, 0)
    requires LowDegree(g, |As|, d)
    ensures HypercubeSum(g, Lerps(As, Bs, t), 0) == Through(Samples(g, As, Bs, 0, d), t)
  {
    var y := Samples(g, As, Bs, 0, d);
    ColumnOfLerps(As, Bs, t);
    forall i: F | 0 <= i <= d
      ensures y[i] == g(Lerp(Column(As, 0), Column(Bs, 0), i))
    {
      ColumnOfLerps(As, Bs, i);
    }
    assert OnPolynomial(g, Column(As, 0), Column(Bs, 0), d, y, t);
  }

  /** The sum along a line is the polynomial through its samples. */
  lemma {:induction false} SumThroughSamples(g: Combiner, As: Instance, Bs: Instance, n: nat, d: nat, t: F)
    requires d == 2 || d == 3
    requires |As| == |Bs| && Uniform(As, n) && Uniform(Bs, n)
    requires LowDegree(g, |As|, d)
    ensures HypercubeSum(g, Lerps(As, Bs, t), n) == Through(Samples(g, As, Bs, n, d), t)
    decreases n
  {
    hide Through;
    if n == 0 {
      PointThroughSamples(g, As, Bs, d, t);
    } else {
      UniformHalves(As, n - 1);
      UniformHalves(Bs, n - 1);
      HalvesOfLerps(As, Bs, n - 1, t);
      SumThroughSamples(g, Los(As), Los(Bs), n - 1, d, t);
      SumThroughSamples(g, His(As), His(Bs), n - 1, d, t);
      SamplesSplit(g, As, Bs, n - 1, d);
      var y, y' := Samples(g, Los(As), Los(Bs), n - 1, d), Samples(g, His(As), His(Bs), n - 1, d);
      ThroughCombine(1, y, 1, y', t);
      MulOne(Through(y, t));
      MulOne(Through(y', t));
    }
  }

  // ---- Batches of instances ----

  ghost predicate UniformBatch(Is: seq<Instance>, n: nat) {
    forall j :: 0 <= j < |Is| ==> Uniform(Is[j], n)
  }

  ghost function BindsEach(Is: seq<Instance>, n: nat, t: F): (Js: seq<Instance>)
    requires UniformBatch(Is, n + 1)
    ensures |Js| == |Is| && UniformBatch(Js, n)
  {
    seq(|Is|, j requires 0 <= j < |Is| => Binds(Is[j], n, t))
  }

  ghost function Sums(g: Combiner, Is: seq<Instance>, n: nat): (s: seq<F>)
    requires UniformBatch(Is, n)
    ensures |s| == |Is|
  {
    seq<F>(|Is|, j requires 0 <= j < |Is| => HypercubeSum(g, Is[j], n))
  }

  /** What a batched sum-check proves: the weighted sum of the hypercube sums of its instances. */
  ghost function Total(g: Combiner, cs: seq<F>, Is: seq<Instance>, n: nat): F
    requires |cs| == |Is| && UniformBatch(Is, n)
  {
    Dot(cs, Sums(g, Is, n))
  }

  lemma TotalSplits(g: Combiner, cs: seq<F>, Is: seq<Instance>, n: nat)
    requires |cs| == |Is| && UniformBatch(Is, n + 1)
    ensures Total(g, cs, Is, n + 1)
         == Add(Total(g, cs, BindsEach(Is, n, 0), n), Total(g, cs, BindsEach(Is, n, 1), n))
  {
    var s, s0, s1 := Sums(g, Is, n + 1), Sums(g, BindsEach(Is, n, 0), n), Sums(g, BindsEach(Is, n, 1), n);
    forall j | 0 <= j < |Is|
      ensures s[j] == Combine(1, s0, 1, s1)[j]
    {
      SumSplits(g, Is[j], n);
      MulOne(s0[j]);
      MulOne(s1[j]);
    }
    assert s == Combine(1, s0, 1, s1);
    DotCombine(1, s0, 1, s1, cs);
    DotCommutes(cs, s);
    DotCommutes(cs, s0);
    DotCommutes(cs, s1);
    MulOne(Dot(s0, cs));
    MulOne(Dot(s1, cs));
  }

  ghost predicate LowDegreeBatch(g: Combiner, Is: seq<Instance>, d: nat)
    requires d == 2 || d == 3
  {
    forall j :: 0 <= j < |Is| ==> LowDegree(g, |Is[j]|, d)
  }

  /** The true round polynomial at 0..d. */
  ghost function RoundSamples(g: Combiner, cs: seq<F>, Is: seq<Instance>, n: nat, d: nat): (y: seq<F>)
    requires d <= 3
    requires |cs| == |Is| && UniformBatch(Is, n + 1)
    ensures |y| == d + 1
    ensures forall i :: 0 <= i <= d ==> y[i] == Total(g, cs, BindsEach(Is, n, i), n)
  {
    seq<F>(d + 1, i requires 0 <= i <= d => Total(g, cs, BindsEach(Is, n, i), n))
  }

  lemma BindsIsLerps(Ts: Instance, n: nat, t: F)
    requires Uniform(Ts, n + 1)
    ensures Uniform(Los(Ts), n) && Uniform(His(Ts), n)
    ensures Binds(Ts, n, t) == Lerps(Los(Ts), His(Ts), t)
  {
  }

  lemma TotalSnoc(g: Combiner, cs: seq<F>, Is: seq<Instance>, n: nat)
    requires |cs| == |Is| > 0 && UniformBatch(Is, n)
    ensures var m := |Is| - 1;
            Total(g, cs, Is, n) == Add(Total(g, cs[..m], Is[..m], n), Mul(cs[m], HypercubeSum(g, Is[m], n)))
  {
    var m := |Is| - 1;
    assert Sums(g, Is, n)[..m] == Sums(g, Is[..m], n);
  }

  lemma RoundSamplesSnoc(g: Combiner, cs: seq<F>, Is: seq<Instance>, n: nat, d: nat)
    requires d <= 3
    requires |cs| == |Is| > 0 && UniformBatch(Is, n + 1)
    ensures var m := |Is| - 1;
            && Uniform(Los(Is[m]), n) && Uniform(His(Is[m]), n)
            && RoundSamples(g, cs, Is, n, d)
            == Combine(1, RoundSamples(g, cs[..m], Is[..m], n, d), cs[m], Samples(g, Los(Is[m]), His(Is[m]), n, d))
  {
    hide Total, HypercubeSum, Lerps;
    var m := |Is| - 1;
    BindsIsLerps(Is[m], n, 0);
    var y, z := RoundSamples(g, cs[..m], Is[..m], n, d), Samples(g, Los(Is[m]), His(Is[m]), n, d);
    forall i: F | 0 <= i <= d
      ensures RoundSamples(g, cs, Is, n, d)[i] == Combine(1, y, cs[m], z)[i]
    {
      TotalSnoc(g, cs, BindsEach(Is, n, i), n);
      assert BindsEach(Is, n, i)[..m] == BindsEach(Is[..m], n, i);
      BindsIsLerps(Is[m], n, i);
      MulOne(y[i]);
    }
  }

  lemma ThroughZeros(d: nat, t: F, y: seq<F>)
    requires d == 2 || d == 3
    requires |y| == d + 1 && forall i :: 0 <= i <= d ==> y[i] == 0
    ensures Through(y, t) == 0
  {
    assert y == Combine(0, y, 0, y) by {
      MulZero(0);
      AddZero(0);
    }
    ThroughCombine(0, y, 0, y, t);
    MulZero(Through(y, t));
    AddZero(0);
  }

  /** The round polynomial of a batch is the polynomial through its samples. */
  lemma {:induction false} TotalThroughSamples(g: Combiner, cs: seq<F>, Is: seq<Instance>, n: nat, d: nat, t: F)
    requires d == 2 || d == 3
    requires |cs| == |Is| && UniformBatch(Is, n + 1)
    requires LowDegreeBatch(g, Is, d)
    ensures Total(g, cs, BindsEach(Is, n, t), n) == Through(RoundSamples(g, cs, Is, n, d), t)
    decreases |Is|
  {
    hide Through;
    if Is == [] {
      ThroughZeros(d, t, RoundSamples(g, cs, Is, n, d));
    } else {
      var m := |Is| - 1;
      TotalSnoc(g, cs, BindsEach(Is, n, t), n);
      assert BindsEach(Is, n, t)[..m] == BindsEach(Is[..m], n, t);
      TotalThroughSamples(g, cs[..m], Is[..m], n, d, t);
      RoundSamplesSnoc(g, cs, Is, n, d);
      BindsIsLerps(Is[m], n, t);
      SumThroughSamples(g, Los(Is[m]), His(Is[m]), n, d, t);
      var y, z := RoundSamples(g, cs[..m], Is[..m], n, d), Samples(g, Los(Is[m]), His(Is[m]), n, d);
      ThroughCombine(1, y, cs[m], z, t);
      MulOne(Through(y, t));
    }
  }

  lemma RoundIsPolynomial(g: Combiner, cs: seq<F>, Is: seq<Instance>, n: nat, d: nat) returns (c: seq<F>)
    requires d == 2 || d == 3
    requires |cs| == |Is| && UniformBatch(Is, n + 1)
    requires LowDegreeBatch(g, Is, d)
    ensures |c| == d + 1
    ensures forall t: F :: Total(g, cs, BindsEach(Is, n, t), n) == Eval(c, t)
  {
    c := FromEvals(RoundSamples(g, cs, Is, n, d));
    forall t: F
      ensures Total(g, cs, BindsEach(Is, n, t), n) == Eval(c, t)
    {
      TotalThroughSamples(g, cs, Is, n, d, t);
    }
  }

  // ---- One round of an honest prover ----

  lemma ShiftedValue(e: F, total: F, y0: F, y1: F)
    requires total == Add(y0, y1)
    ensures Sub(e, y0) == Add(y1, Sub(e, total))
  {
    SubAdd(e, y0, y1);
    AddSub(y1, Sub(e, y0));
  }

  /** y holds the true round polynomial at 0, 2 (and 3). */
  ghost predicate Sampled(g: Combiner, cs: seq<F>, Is: seq<Instance>, n: nat, d: nat, y: seq<F>)
    requires |cs| == |Is| && UniformBatch(Is, n + 1)
  {
    && d <= 3
    && |y| == d + 1
    && forall i :: 0 <= i <= d && i != 1 ==> y[i] == Total(g, cs, BindsEach(Is, n, i), n)
  }

  /** The polynomial an honest prover sends, interpolated from the claimed value e and the sums at
      0, 2 (and 3), is the true round polynomial plus the error of the claim times a fixed weight. */
  lemma HonestRound(g: Combiner, cs: seq<F>, Is: seq<Instance>, n: nat, d: nat, e: F, y: seq<F>, t: F)
    requires d == 2 || d == 3
    requires |cs| == |Is| && UniformBatch(Is, n + 1)
    requires LowDegreeBatch(g, Is, d)
    requires Sampled(g, cs, Is, n, d, y) && y[1] == Sub(e, y[0])
    ensures Eval(FromEvals(y), t)
         == Add(Total(g, cs, BindsEach(Is, n, t), n),
                Mul(Sub(e, Total(g, cs, Is, n + 1)), ErrorWeight(d + 1, t)))
  {
    var z, delta := RoundSamples(g, cs, Is, n, d), Sub(e, Total(g, cs, Is, n + 1));
    TotalSplits(g, cs, Is, n);
    ShiftedValue(e, Total(g, cs, Is, n + 1), z[0], z[1]);
    assert y == z[1 := Add(z[1], delta)];
    ThroughShifted(z, delta, t);
    TotalThroughSamples(g, cs, Is, n, d, t);
  }
}
