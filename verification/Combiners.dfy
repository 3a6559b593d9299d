/** The combination functions handed to sum-check: the product of two or of three tables, and the
    relaxed R1CS expression. Each is a polynomial of degree two or three along every line. */
module Combiners {
  import opened Field
  import opened Vectors
  import opened Multilinear
  import opened UniPoly
  import opened Sumcheck

  function Product2(v: seq<F>): F {
    if |v| == 2 then Mul(v[0], v[1]) else 0
  }

  function Product3(v: seq<F>): F {
    if |v| == 3 then Mul(Mul(v[0], v[1]), v[2]) else 0
  }

  /** (A*B - u*C - E) * tau, on the column [tau, A, B, C, E]. */
  function RelaxedValue(u: F, tau: F, a: F, b: F, c: F, e: F): F {
    Mul(Sub(Sub(Mul(a, b), Mul(u, c)), e), tau)
  }

  function Relaxed(u: F): Combiner {
    v => if |v| == 5 then RelaxedValue(u, v[0], v[1], v[2], v[3], v[4]) else 0
  }

  // ---- Multiplying a polynomial by a line ----

  ghost function TimesLine(a: F, b: F, c: seq<F>): (p: seq<F>)
    ensures |p| == |c| + 1
  {
    Combine(a, c + [0], Sub(b, a), [0] + c)
  }

  lemma EvalPadded(c: seq<F>, t: F)
    ensures Eval(c + [0], t) == Eval(c, t)
  {
    EvalSnoc(c, 0, t);
    MulZero(Power(t, |c|));
    AddZero(Eval(c, t));
  }

  lemma EvalShifted(c: seq<F>, t: F)
    ensures Eval([0] + c, t) == Mul(t, Eval(c, t))
  {
    assert ([0] + c)[1..] == c;
    AddZero(Mul(t, Eval(c, t)));
  }

  lemma LineTimes(a: F, d: F, t: F, e: F)
    ensures Mix(a, e, d, Mul(t, e)) == Mul(Add(a, Mul(t, d)), e)
  {
    MulRotates(d, t, e);
    MulAssociates(t, d, e);
    MulCommutes(a, e);
    MulCommutes(Mul(t, d), e);
    MulCommutes(Add(a, Mul(t, d)), e);
    DistributesAdd(e, a, Mul(t, d));
  }

  lemma EvalTimesLine(a: F, b: F, c: seq<F>, t: F)
    ensures Eval(TimesLine(a, b, c), t) == Mul(Interp(a, b, t), Eval(c, t))
  {
    EvalCombine(a, c + [0], Sub(b, a), [0] + c, t);
    EvalPadded(c, t);
    EvalShifted(c, t);
    LineTimes(a, Sub(b, a), t, Eval(c, t));
  }

  lemma EvalLine(a: F, b: F, t: F)
    ensures Eval(TimesLine(a, b, [1]), t) == Interp(a, b, t)
  {
    EvalTimesLine(a, b, [1], t);
    EvalOne(1, t);
    MulOne(Interp(a, b, t));
  }

  // ---- Low degree ----

  /** A function that is a polynomial along a line lies on the polynomial through its samples. */
  lemma PolynomialAlongLine(g: Combiner, a: seq<F>, b: seq<F>, d: nat, c: seq<F>)
    requires (d == 2 || d == 3) && |a| == |b| && |c| == d + 1
    requires forall t: F :: g(Lerp(a, b, t)) == Eval(c, t)
    ensures forall y: seq<F>, t: F :: |y| == d + 1 ==> OnPolynomial(g, a, b, d, y, t)
  {
    forall y: seq<F>, t: F | |y| == d + 1
      ensures OnPolynomial(g, a, b, d, y, t)
    {
      if forall i :: 0 <= i <= d ==> y[i] == g(Lerp(a, b, i)) {
        if d == 2 {
          Interpolates3(c, y);
        } else {
          Interpolates4(c, y);
        }
      }
    }
  }

  lemma Product2IsQuadratic()
    ensures LowDegree(Product2, 2, 2)
  {
    forall a: seq<F>, b: seq<F>, y: seq<F>, t: F | |a| == |b| == 2 && |y| == 3
      ensures OnPolynomial(Product2, a, b, 2, y, t)
    {
      var c := TimesLine(a[0], b[0], TimesLine(a[1], b[1], [1]));
      forall s: F
        ensures Product2(Lerp(a, b, s)) == Eval(c, s)
      {
        EvalLine(a[1], b[1], s);
        EvalTimesLine(a[0], b[0], TimesLine(a[1], b[1], [1]), s);
      }
      PolynomialAlongLine(Product2, a, b, 2, c);
    }
  }

  lemma Product3IsCubic()
    ensures LowDegree(Product3, 3, 3)
  {
    forall a: seq<F>, b: seq<F>, y: seq<F>, t: F | |a| == |b| == 3 && |y| == 4
      ensures OnPolynomial(Product3, a, b, 3, y, t)
    {
      var c1 := TimesLine(a[1], b[1], TimesLine(a[2], b[2], [1]));
      var c := TimesLine(a[0], b[0], c1);
      forall s: F
        ensures Product3(Lerp(a, b, s)) == Eval(c, s)
      {
        EvalLine(a[2], b[2], s);
        EvalTimesLine(a[1], b[1], TimesLine(a[2], b[2], [1]), s);
        EvalTimesLine(a[0], b[0], c1, s);
        MulAssociates(Interp(a[0], b[0], s), Interp(a[1], b[1], s), Interp(a[2], b[2], s));
      }
      PolynomialAlongLine(Product3, a, b, 3, c);
    }
  }

  lemma SubAsMix(x: F, u: F, y: F)
    ensures Mix(1, x, Sub(0, u), y) == Sub(x, Mul(u, y))
  {
    MulOne(x);
    MulZero(y);
    MulCommutes(Sub(0, u), y);
    DistributesSub(y, 0, u);
    MulCommutes(y, u);
    AddNegated(x, Mul(u, y));
  }

  /** The polynomial of A*B - u*C - E along a line. */
  ghost function RelaxedInner(u: F, a: seq<F>, b: seq<F>): (c: seq<F>)
    requires |a| == |b| == 5
    ensures |c| == 3
  {
    var ab := TimesLine(a[1], b[1], TimesLine(a[2], b[2], [1]));
    var minusC := Combine(1, ab, Sub(0, u), TimesLine(a[3], b[3], [1]) + [0]);
    Combine(1, minusC, Sub(0, 1), TimesLine(a[4], b[4], [1]) + [0])
  }

  lemma EvalRelaxedInner(u: F, a: seq<F>, b: seq<F>, s: F)
    requires |a| == |b| == 5
    ensures Eval(RelaxedInner(u, a, b), s)
         == Sub(Sub(Mul(Interp(a[1], b[1], s), Interp(a[2], b[2], s)), Mul(u, Interp(a[3], b[3], s))),
                Interp(a[4], b[4], s))
  {
    var ab := TimesLine(a[1], b[1], TimesLine(a[2], b[2], [1]));
    var c, e := TimesLine(a[3], b[3], [1]), TimesLine(a[4], b[4], [1]);
    EvalLine(a[2], b[2], s);
    EvalTimesLine(a[1], b[1], TimesLine(a[2], b[2], [1]), s);
    EvalLine(a[3], b[3], s);
    EvalPadded(c, s);
    EvalCombine(1, ab, Sub(0, u), c + [0], s);
    SubAsMix(Eval(ab, s), u, Eval(c, s));
    EvalLine(a[4], b[4], s);
    EvalPadded(e, s);
    EvalCombine(1, Combine(1, ab, Sub(0, u), c + [0]), Sub(0, 1), e + [0], s);
    MixMinus(Sub(Eval(ab, s), Mul(u, Eval(c, s))), Eval(e, s));
  }

  lemma RelaxedIsCubic(u: F)
    ensures LowDegree(Relaxed(u), 5, 3)
  {
    forall a: seq<F>, b: seq<F>, y: seq<F>, t: F | |a| == |b| == 5 && |y| == 4
      ensures OnPolynomial(Relaxed(u), a, b, 3, y, t)
    {
      var c := TimesLine(a[0], b[0], RelaxedInner(u, a, b));
      forall s: F
        ensures Relaxed(u)(Lerp(a, b, s)) == Eval(c, s)
      {
        EvalRelaxedInner(u, a, b, s);
        EvalTimesLine(a[0], b[0], RelaxedInner(u, a, b), s);
        MulCommutes(Interp(a[0], b[0], s), Eval(RelaxedInner(u, a, b), s));
      }
      PolynomialAlongLine(Relaxed(u), a, b, 3, c);
    }
  }
}
