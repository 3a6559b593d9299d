/** Tables of 2^n field elements and their multilinear extensions.

    A table lists the values of a polynomial on the Boolean hypercube; the first variable is the top
    bit of the index. `Mle` is the reference definition that every faster evaluation is measured
    against. */
module Multilinear {
  import opened Field
  import opened Vectors
  import opened Powers

  type Table = seq<F>

  /** The line through a at 0 and b at 1. */
  function Interp(a: F, b: F, t: F): F {
    Add(a, Mul(t, Sub(b, a)))
  }

  function Lo(Z: Table): Table {
    Z[..|Z| / 2]
  }

  function Hi(Z: Table): Table {
    Z[|Z| / 2..]
  }

  function Lerp(A: Table, B: Table, t: F): Table
    requires |A| == |B|
  {
    seq(|A|, i requires 0 <= i < |A| => Interp(A[i], B[i], t))
  }

  /** Fixes the first variable. */
  function Bind(Z: Table, t: F): Table
    requires |Z| % 2 == 0
  {
    Lerp(Lo(Z), Hi(Z), t)
  }

  /** Fixes the last variable. */
  function BindLast(Z: Table, t: F): Table {
    seq(|Z| / 2, i requires 0 <= i < |Z| / 2 => Interp(Z[2 * i], Z[2 * i + 1], t))
  }

  /** The value at r of the multilinear polynomial with table Z. */
  function Mle(Z: Table, r: seq<F>): F
    requires |Z| == Pow2(|r|)
    decreases |r|
  {
    if r == [] then Z[0]
    else Interp(Mle(Lo(Z), r[1..]), Mle(Hi(Z), r[1..]), r[0])
  }

  /** Fixes the first |r| variables one after the other; n are left. */
  function BindAll(Z: Table, r: seq<F>, n: nat): (T: Table)
    requires |Z| == Pow2(|r| + n)
    ensures |T| == Pow2(n)
    decreases |r|
  {
    if r == [] then Z
    else Bind(BindAll(Z, r[..|r| - 1], n + 1), r[|r| - 1])
  }

  lemma MleStep(Z: Table, r: seq<F>)
    requires r != [] && |Z| == Pow2(|r|)
    ensures |Lo(Z)| == |Hi(Z)| == Pow2(|r| - 1)
    ensures Mle(Z, r) == Interp(Mle(Lo(Z), r[1..]), Mle(Hi(Z), r[1..]), r[0])
  {
    HalfSizes(Z, |r| - 1);
    hide Pow2, Lo, Hi, Interp;
  }

  lemma HalfSizes(Z: Table, n: nat)
    requires |Z| == Pow2(n + 1)
    ensures |Lo(Z)| == |Hi(Z)| == Pow2(n)
  {
  }

  lemma LastValue(Z: Table, r: seq<F>)
    requires |Z| == 1 && r == []
    ensures Mle(Z, r) == Z[0]
  {
  }

  // ---- Binding variables agrees with the multilinear extension ----

  lemma InterpScale(x: F, a: F, b: F, t: F)
    ensures Interp(Mul(x, a), Mul(x, b), t) == Mul(x, Interp(a, b, t))
  {
    DistributesSub(x, b, a);
    MulRotates(t, x, Sub(b, a));
    DistributesAdd(x, a, Mul(t, Sub(b, a)));
  }

  lemma InterpAdd(a: F, b: F, c: F, d: F, t: F)
    ensures Interp(Add(a, b), Add(c, d), t) == Add(Interp(a, c, t), Interp(b, d, t))
  {
    SubExchanges(c, d, a, b);
    DistributesAdd(t, Sub(c, a), Sub(d, b));
    AddExchanges(a, b, Mul(t, Sub(c, a)), Mul(t, Sub(d, b)));
  }

  lemma InterpSub(a: F, b: F, c: F, d: F, t: F)
    ensures Interp(Sub(a, b), Sub(c, d), t) == Sub(Interp(a, c, t), Interp(b, d, t))
  {
    SubSwaps(c, d, a, b);
    DistributesSub(t, Sub(c, a), Sub(d, b));
    SubOfAdds(a, b, Mul(t, Sub(c, a)), Mul(t, Sub(d, b)));
  }

  lemma InterpExchanges(a: F, b: F, c: F, d: F, s: F, t: F)
    ensures Interp(Interp(a, b, t), Interp(c, d, t), s) == Interp(Interp(a, c, s), Interp(b, d, s), t)
  {
    InterpAdd(a, Mul(t, Sub(b, a)), c, Mul(t, Sub(d, c)), s);
    InterpScale(t, Sub(b, a), Sub(d, c), s);
    InterpSub(b, a, d, c, s);
  }

  lemma InterpEnds(a: F, b: F)
    ensures Interp(a, b, 0) == a
    ensures Interp(a, b, 1) == b
  {
    MulZero(Sub(b, a));
    MulOne(Sub(b, a));
    AddZero(a);
    AddSub(a, b);
  }

  lemma {:induction false} MleLerp(A: Table, B: Table, t: F, r: seq<F>)
    requires |A| == |B| == Pow2(|r|)
    ensures Mle(Lerp(A, B, t), r) == Interp(Mle(A, r), Mle(B, r), t)
    decreases |r|
  {
    if r != [] {
      assert Lo(Lerp(A, B, t)) == Lerp(Lo(A), Lo(B), t);
      assert Hi(Lerp(A, B, t)) == Lerp(Hi(A), Hi(B), t);
      MleLerp(Lo(A), Lo(B), t, r[1..]);
      MleLerp(Hi(A), Hi(B), t, r[1..]);
      InterpExchanges(Mle(Lo(A), r[1..]), Mle(Lo(B), r[1..]), Mle(Hi(A), r[1..]), Mle(Hi(B), r[1..]), r[0], t);
    }
  }

  lemma MleBind(Z: Table, t: F, r: seq<F>)
    requires |Z| == Pow2(|r| + 1)
    ensures Mle(Bind(Z, t), r) == Mle(Z, [t] + r)
  {
    assert ([t] + r)[1..] == r;
    MleLerp(Lo(Z), Hi(Z), t, r);
  }

  lemma LastOfHalves(Z: Table, t: F, h: nat)
    requires |Z| == 2 * h && h % 2 == 0
    ensures Lo(BindLast(Z, t)) == BindLast(Lo(Z), t) && Hi(BindLast(Z, t)) == BindLast(Hi(Z), t)
  {
    hide Interp;
    assert |BindLast(Z, t)| == h;
  }

  lemma {:induction false} MleBindLast(Z: Table, t: F, r: seq<F>)
    requires |Z| == Pow2(|r| + 1)
    ensures |BindLast(Z, t)| == Pow2(|r|)
    ensures Mle(BindLast(Z, t), r) == Mle(Z, r + [t])
    decreases |r|
  {
    hide Mle, Lo, Hi, BindLast;
    MleStep(Z, r + [t]);
    if r == [] {
      BindLastPair(Z, t);
      LastValue(Lo(Z), (r + [t])[1..]);
      LastValue(Hi(Z), (r + [t])[1..]);
      LastValue(BindLast(Z, t), r);
    } else {
      LastOfHalves(Z, t, Pow2(|r|));
      assert (r + [t])[1..] == r[1..] + [t];
      MleBindLast(Lo(Z), t, r[1..]);
      MleBindLast(Hi(Z), t, r[1..]);
      BindLastSize(Z, t, Pow2(|r|));
      MleStep(BindLast(Z, t), r);
    }
  }

  lemma BindLastSize(Z: Table, t: F, h: nat)
    requires |Z| == 2 * h
    ensures |BindLast(Z, t)| == h
  {
  }

  lemma BindLastPair(Z: Table, t: F)
    requires |Z| == 2
    ensures BindLast(Z, t) == [Interp(Z[0], Z[1], t)] && Lo(Z) == [Z[0]] && Hi(Z) == [Z[1]]
  {
  }

  /** Binding a prefix of the point in order leaves a table whose extension takes the rest. */
  lemma {:induction false} MleBindAll(Z: Table, a: seq<F>, b: seq<F>)
    requires |Z| == Pow2(|a| + |b|)
    ensures Mle(BindAll(Z, a, |b|), b) == Mle(Z, a + b)
    decreases |a|
  {
    if a == [] {
      assert a + b == b;
    } else {
      var m := |a| - 1;
      var c := [a[m]] + b;
      assert a + b == a[..m] + c && |c| == |b| + 1;
      MleBind(BindAll(Z, a[..m], |c|), a[m], b);
      MleBindAll(Z, a[..m], c);
    }
  }

  /** Binding every variable leaves exactly the value of the polynomial at the point. */
  lemma BindAllIsMle(Z: Table, r: seq<F>)
    requires |Z| == Pow2(|r|)
    ensures BindAll(Z, r, 0) == [Mle(Z, r)]
  {
    MleBindAll(Z, r, []);
    assert r + [] == r;
  }

  // ---- Linearity ----

  lemma InterpCombine(x: F, y: F, a: F, b: F, c: F, d: F, t: F)
    ensures Interp(Add(Mul(x, a), Mul(y, b)), Add(Mul(x, c), Mul(y, d)), t)
         == Add(Mul(x, Interp(a, c, t)), Mul(y, Interp(b, d, t)))
  {
    InterpAdd(Mul(x, a), Mul(y, b), Mul(x, c), Mul(y, d), t);
    InterpScale(x, a, c, t);
    InterpScale(y, b, d, t);
  }

  lemma {:induction false} MleCombine(x: F, A: Table, y: F, B: Table, r: seq<F>)
    requires |A| == |B| == Pow2(|r|)
    ensures Mle(Combine(x, A, y, B), r) == Add(Mul(x, Mle(A, r)), Mul(y, Mle(B, r)))
    decreases |r|
  {
    if r != [] {
      assert Lo(Combine(x, A, y, B)) == Combine(x, Lo(A), y, Lo(B));
      assert Hi(Combine(x, A, y, B)) == Combine(x, Hi(A), y, Hi(B));
      MleCombine(x, Lo(A), y, Lo(B), r[1..]);
      MleCombine(x, Hi(A), y, Hi(B), r[1..]);
      InterpCombine(x, y, Mle(Lo(A), r[1..]), Mle(Lo(B), r[1..]), Mle(Hi(A), r[1..]), Mle(Hi(B), r[1..]), r[0]);
    }
  }

  lemma ScaleIsCombine(c: F, A: Table)
    ensures Scale(c, A) == Combine(c, A, 0, A)
  {
    forall i | 0 <= i < |A|
      ensures Scale(c, A)[i] == Combine(c, A, 0, A)[i]
    {
      MulZero(A[i]);
      AddZero(Mul(c, A[i]));
    }
  }

  lemma MleScale(c: F, A: Table, r: seq<F>)
    requires |A| == Pow2(|r|)
    ensures Mle(Scale(c, A), r) == Mul(c, Mle(A, r))
  {
    ScaleIsCombine(c, A);
    MleCombine(c, A, 0, A, r);
    MulZero(Mle(A, r));
    AddZero(Mul(c, Mle(A, r)));
  }

  /** The extension of a constant table is that constant. */
  lemma {:induction false} MleConstant(Z: Table, c: F, r: seq<F>)
    requires |Z| == Pow2(|r|)
    requires forall i :: 0 <= i < |Z| ==> Z[i] == c
    ensures Mle(Z, r) == c
    decreases |r|
  {
    if r != [] {
      MleConstant(Lo(Z), c, r[1..]);
      MleConstant(Hi(Z), c, r[1..]);
      InterpSame(c, r[0]);
    }
  }

  lemma InterpSame(c: F, t: F)
    ensures Interp(c, c, t) == c
  {
    SubIsZero(c, c);
    MulZero(t);
    AddZero(c);
  }

  // ---- The equality polynomial ----

  /** eq(r, x) for every x of the hypercube, x[0] the top bit of the index. */
  function EqTable(r: seq<F>): (T: Table)
    ensures |T| == Pow2(|r|)
  {
    if r == [] then [1]
    else Scale(Sub(1, r[0]), EqTable(r[1..])) + Scale(r[0], EqTable(r[1..]))
  }

  /** eq(r, x) at any point x, as `EqPolynomial::evaluate` multiplies it out. */
  function EqEval(r: seq<F>, x: seq<F>): F
    requires |r| == |x|
  {
    if r == [] then 1
    else Mul(Add(Mul(r[0], x[0]), Mul(Sub(1, r[0]), Sub(1, x[0]))), EqEval(r[1..], x[1..]))
  }

  lemma InterpScaled(a: F, m: F, t: F)
    ensures Interp(Mul(Sub(1, a), m), Mul(a, m), t) == Mul(Add(Mul(a, t), Mul(Sub(1, a), Sub(1, t))), m)
  {
    var b := Sub(1, a);
    MulCommutes(b, m);
    MulCommutes(a, m);
    InterpScale(m, b, a, t);
    InterpAsCombination(b, a, t);
    MulCommutes(Sub(1, t), b);
    MulCommutes(t, a);
    AddCommutes(Mul(b, Sub(1, t)), Mul(a, t));
    MulCommutes(m, Interp(b, a, t));
  }

  lemma {:induction false} MleEqTable(r: seq<F>, x: seq<F>)
    requires |r| == |x|
    ensures Mle(EqTable(r), x) == EqEval(r, x)
  {
    if r != [] {
      var E := EqTable(r[1..]);
      assert Lo(EqTable(r)) == Scale(Sub(1, r[0]), E);
      assert Hi(EqTable(r)) == Scale(r[0], E);
      MleScale(Sub(1, r[0]), E, x[1..]);
      MleScale(r[0], E, x[1..]);
      MleEqTable(r[1..], x[1..]);
      InterpScaled(r[0], EqEval(r[1..], x[1..]), x[0]);
    }
  }

  lemma EqTermCommutes(a: F, b: F)
    ensures Add(Mul(a, b), Mul(Sub(1, a), Sub(1, b))) == Add(Mul(b, a), Mul(Sub(1, b), Sub(1, a)))
  {
    MulCommutes(a, b);
    MulCommutes(Sub(1, a), Sub(1, b));
  }

  lemma {:induction false} EqEvalCommutes(r: seq<F>, x: seq<F>)
    requires |r| == |x|
    ensures EqEval(r, x) == EqEval(x, r)
  {
    if r != [] {
      EqTermCommutes(r[0], x[0]);
      EqEvalCommutes(r[1..], x[1..]);
    }
  }

  lemma AddThenSwap(a: F, y: F, x: F)
    ensures Add(a, Sub(y, x)) == Add(Sub(a, x), y)
  {
    SubOfAdds(a, 0, y, x);
    SubOfAdds(a, x, y, 0);
    SubZero(a);
    SubZero(y);
    AddZero(x);
  }

  lemma InterpAsCombination(a: F, b: F, t: F)
    ensures Interp(a, b, t) == Add(Mul(Sub(1, t), a), Mul(t, b))
  {
    DistributesSub(t, b, a);
    MulCommutes(Sub(1, t), a);
    DistributesSub(a, 1, t);
    MulOne(a);
    MulCommutes(a, t);
    AddThenSwap(a, Mul(t, b), Mul(t, a));
  }

  /** `DensePolynomial::evaluate`: the value at r is the inner product with the eq table of r. */
  lemma {:induction false} MleIsDot(Z: Table, r: seq<F>)
    requires |Z| == Pow2(|r|)
    ensures Mle(Z, r) == Dot(Z, EqTable(r))
    decreases |r|
  {
    if r == [] {
      assert Z == [Z[0]];
      assert Dot(Z, [1]) == Add(Dot(Z[..0], [1][..0]), Mul(Z[0], 1));
      MulOne(Z[0]);
      AddZero(Z[0]);
    } else {
      var E := EqTable(r[1..]);
      var s, t := Scale(Sub(1, r[0]), E), Scale(r[0], E);
      assert Z == Lo(Z) + Hi(Z);
      DotAppend(Lo(Z), Hi(Z), s, t);
      DotCommutes(Lo(Z), s);
      DotCommutes(Hi(Z), t);
      DotScale(Sub(1, r[0]), E, Lo(Z));
      DotScale(r[0], E, Hi(Z));
      DotCommutes(Lo(Z), E);
      DotCommutes(Hi(Z), E);
      MleIsDot(Lo(Z), r[1..]);
      MleIsDot(Hi(Z), r[1..]);
      InterpAsCombination(Mle(Lo(Z), r[1..]), Mle(Hi(Z), r[1..]), r[0]);
    }
  }
}
