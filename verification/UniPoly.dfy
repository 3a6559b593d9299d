/** The univariate round polynomials of sum-check (spartan/src/unipoly.rs): interpolation from the
    values at 0, 1, 2 (and 3), evaluation, and the compressed form that drops the linear term. */
module UniPoly {
  import opened Field
  import opened Vectors

  /** The polynomial c[0] + c[1]*t + c[2]*t^2 + ... */
  function Eval(c: seq<F>, t: F): F {
    if c == [] then 0 else Add(c[0], Mul(t, Eval(c[1..], t)))
  }

  function Power(t: F, n: nat): F {
    if n == 0 then 1 else Mul(Power(t, n - 1), t)
  }


  /** Coefficients, constant term first, of the polynomial of degree |y| - 1 with value y[i] at i. */
  function FromEvals(y: seq<F>): (c: seq<F>)
    requires |y| == 3 || |y| == 4
    ensures |c| == |y|
  {
    if |y| == 3 then
      var a := Mul(HALF, Add(Sub(Sub(y[2], y[1]), y[1]), y[0]));
      var b := Sub(Sub(y[1], y[0]), a);
      [y[0], b, a]
    else
      var a := Mul(SIXTH, Sub(Add(Add(Add(Sub(Sub(Sub(y[3], y[2]), y[2]), y[2]), y[1]), y[1]), y[1]), y[0]));
      var b := Mul(HALF, Sub(Add(Add(Add(Add(Sub(Sub(Sub(Sub(Sub(Add(y[0], y[0]), y[1]), y[1]), y[1]), y[1]), y[1]),
                                             y[2]), y[2]), y[2]), y[2]), y[3]));
      var c := Sub(Sub(Sub(y[1], y[0]), a), b);
      [y[0], c, b, a]
  }

  function EvalAtOne(c: seq<F>): F {
    Sum(c)
  }

  /** Drops the linear coefficient. */
  function Compress(c: seq<F>): seq<F>
    requires |c| >= 2
  {
    c[..1] + c[2..]
  }

  /** Restores the linear coefficient from hint = c(0) + c(1). */
  function Decompress(d: seq<F>, hint: F): (c: seq<F>)
    requires d != []
    ensures |c| == |d| + 1
  {
    [d[0], Sub(Sub(Sub(hint, d[0]), d[0]), Sum(d[1..]))] + d[1..]
  }

  /** The loop of `UniPoly::evaluate`, which keeps a running power of t. */
  method Evaluate(c: seq<F>, t: F) returns (v: F)
    requires c != []
    ensures v == Eval(c, t)
  {
    v := c[0];
    var power := t;
    EvalTruncated(c, t, 1);
    for i := 1 to |c|
      invariant power == Power(t, i)
      invariant v == Eval(c[..i], t)
    {
      EvalTruncated(c, t, i);
      v := Add(v, Mul(power, c[i]));
      power := Mul(power, t);
    }
    assert c[..|c|] == c;
  }

  /** The loop of `CompressedUniPoly::decompress`. */
  method DecompressLoop(d: seq<F>, hint: F) returns (c: seq<F>)
    requires d != []
    ensures c == Decompress(d, hint)
  {
    var linear := Sub(Sub(hint, d[0]), d[0]);
    ghost var start := linear;
    assert d[1..1] == [];
    SubZero(start);
    for i := 1 to |d|
      invariant linear == Sub(start, Sum(d[1..i]))
    {
      assert d[1..i + 1][..i - 1] == d[1..i];
      SubAdd(start, Sum(d[1..i]), d[i]);
      linear := Sub(linear, d[i]);
    }
    assert d[1..|d|] == d[1..];
    c := [d[0], linear] + d[1..];
  }

  lemma EvalOne(x: F, t: F)
    ensures Eval([x], t) == x
  {
    assert [x][1..] == [];
    MulZero(t);
    AddZero(x);
  }

  lemma HornerStep(c: F, t: F, e: F, p: F, x: F)
    ensures Add(Add(c, Mul(t, e)), Mul(Mul(p, t), x)) == Add(c, Mul(t, Add(e, Mul(p, x))))
  {
    DistributesAdd(t, e, Mul(p, x));
    AddAssociates(c, Mul(t, e), Mul(t, Mul(p, x)));
    MulCommutes(p, t);
    MulAssociates(t, p, x);
  }

  lemma {:induction false} EvalSnoc(c: seq<F>, x: F, t: F)
    ensures Eval(c + [x], t) == Add(Eval(c, t), Mul(Power(t, |c|), x))
  {
    if c == [] {
      assert c + [x] == [x];
      EvalOne(x, t);
      MulOne(x);
      AddZero(x);
    } else {
      assert (c + [x])[1..] == c[1..] + [x];
      EvalSnoc(c[1..], x, t);
      HornerStep(c[0], t, Eval(c[1..], t), Power(t, |c| - 1), x);
    }
  }

  lemma EvalTruncated(c: seq<F>, t: F, i: nat)
    requires i < |c| || (i == 1 == |c|)
    ensures i == 1 ==> Eval(c[..1], t) == c[0] && Power(t, 1) == t
    ensures i < |c| ==> Eval(c[..i + 1], t) == Add(Eval(c[..i], t), Mul(Power(t, i), c[i]))
  {
    if i == 1 {
      assert c[..1] == [c[0]];
      EvalOne(c[0], t);
      MulOne(t);
    }
    if i < |c| {
      assert c[..i + 1] == c[..i] + [c[i]];
      EvalSnoc(c[..i], c[i], t);
    }
  }

  // ---- Compression ----

  lemma SumFront(x: F, s: seq<F>)
    ensures Sum([x] + s) == Add(x, Sum(s))
  {
    assert [x][..0] == [];
    assert Sum([x]) == Add(Sum([x][..0]), x);
    AddZero(x);
    SumAppend([x], s);
  }

  lemma SolveLinear(h: F, d: F, s: F)
    ensures Add(d, Add(d, Add(Sub(Sub(Sub(h, d), d), s), s))) == h
  {
    SubThenAdd(Sub(Sub(h, d), d), s);
    AddSub(d, Sub(h, d));
    AddSub(d, h);
  }

  lemma UndoLinear(d: F, l: F, s: F)
    ensures Sub(Sub(Sub(Add(d, Add(d, Add(l, s))), d), d), s) == l
  {
    SubOfSum(d, Add(d, Add(l, s)));
    SubOfSum(d, Add(l, s));
    AddThenSub(l, s);
  }

  /** Whatever the prover sent, the decompressed polynomial has g(0) + g(1) = hint: the equality the
      verifier asserts in every round cannot fail. */
  lemma DecompressMeetsHint(d: seq<F>, hint: F)
    requires d != []
    ensures Add(Decompress(d, hint)[0], EvalAtOne(Decompress(d, hint))) == hint
  {
    var c := Decompress(d, hint);
    assert c == [c[0]] + ([c[1]] + d[1..]);
    SumFront(c[0], [c[1]] + d[1..]);
    SumFront(c[1], d[1..]);
    SolveLinear(hint, d[0], Sum(d[1..]));
  }

  /** Compression loses nothing once g(0) + g(1) is known. */
  lemma CompressRoundTrip(c: seq<F>, hint: F)
    requires |c| >= 2
    requires Add(c[0], EvalAtOne(c)) == hint
    ensures Decompress(Compress(c), hint) == c
  {
    assert c == [c[0]] + ([c[1]] + c[2..]);
    SumFront(c[0], [c[1]] + c[2..]);
    SumFront(c[1], c[2..]);
    assert Compress(c)[1..] == c[2..];
    UndoLinear(c[0], c[1], Sum(c[2..]));
  }

  // ---- Interpolation is exact ----

  lemma Eval3(c: seq<F>, t: F)
    requires |c| == 3
    ensures Eval(c, t) == Add(c[0], Mul(t, Add(c[1], Mul(t, c[2]))))
  {
    assert c[1..][1..] == [c[2]];
    EvalOne(c[2], t);
  }

  lemma Eval4(c: seq<F>, t: F)
    requires |c| == 4
    ensures Eval(c, t) == Add(c[0], Mul(t, Add(c[1], Mul(t, Add(c[2], Mul(t, c[3]))))))
  {
    Eval3(c[1..], t);
  }

  lemma SubThrice(x: int, y: int)
    ensures Sub(Sub(Sub(Of(x), Of(y)), Of(y)), Of(y)) == Of(x - 3 * y)
  {
    OfSub(x, y);
    OfSub(x - y, y);
    OfSub(x - 2 * y, y);
  }

  lemma AddThrice(x: int, y: int)
    ensures Add(Add(Add(Of(x), Of(y)), Of(y)), Of(y)) == Of(x + 3 * y)
  {
    OfAdd(x, y);
    OfAdd(x + y, y);
    OfAdd(x + 2 * y, y);
  }

  lemma LeadingNumerator(y0: int, y1: int, y2: int, y3: int)
    ensures Sub(Add(Add(Add(Sub(Sub(Sub(Of(y3), Of(y2)), Of(y2)), Of(y2)), Of(y1)), Of(y1)), Of(y1)), Of(y0))
         == Of(y3 - 3 * y2 + 3 * y1 - y0)
  {
    SubThrice(y3, y2);
    AddThrice(y3 - 3 * y2, y1);
    OfSub(y3 - 3 * y2 + 3 * y1, y0);
  }

  lemma MiddleNumerator(y0: int, y1: int, y2: int, y3: int)
    ensures Sub(Add(Add(Add(Add(Sub(Sub(Sub(Sub(Sub(Add(Of(y0), Of(y0)), Of(y1)), Of(y1)), Of(y1)), Of(y1)), Of(y1)),
                                Of(y2)), Of(y2)), Of(y2)), Of(y2)), Of(y3))
         == Of(2 * y0 - 5 * y1 + 4 * y2 - y3)
  {
    OfAdd(y0, y0);
    SubThrice(2 * y0, y1);
    OfSub(2 * y0 - 3 * y1, y1);
    OfSub(2 * y0 - 4 * y1, y1);
    AddThrice(2 * y0 - 5 * y1, y2);
    OfAdd(2 * y0 - 5 * y1 + 3 * y2, y2);
    OfSub(2 * y0 - 5 * y1 + 4 * y2, y3);
  }

  lemma LinearCoefficient(y0: int, y1: int, a: int, b: int)
    ensures Sub(Sub(Sub(Of(y1), Of(y0)), Of(a)), Of(b)) == Of(y1 - y0 - a - b)
  {
    OfSub(y1, y0);
    OfSub(y1 - y0, a);
    OfSub(y1 - y0 - a, b);
  }

  lemma Coefficients4(y0: int, y1: int, y2: int, y3: int, p: int, q: int)
    requires p == y3 - 3 * y2 + 3 * y1 - y0
    requires q == 2 * y0 - 5 * y1 + 4 * y2 - y3
    ensures FromEvals([Of(y0), Of(y1), Of(y2), Of(y3)])
         == [Of(y0), Of(y1 - y0 - SIXTH * p - HALF * q), Of(HALF * q), Of(SIXTH * p)]
  {
    LeadingNumerator(y0, y1, y2, y3);
    MiddleNumerator(y0, y1, y2, y3);
    OfRepresentative(SIXTH);
    OfRepresentative(HALF);
    OfMul(SIXTH, p);
    OfMul(HALF, q);
    LinearCoefficient(y0, y1, SIXTH * p, HALF * q);
  }

  lemma QuadraticNumerator(y0: int, y1: int, y2: int)
    ensures Add(Sub(Sub(Of(y2), Of(y1)), Of(y1)), Of(y0)) == Of(y2 - 2 * y1 + y0)
  {
    OfSub(y2, y1);
    OfSub(y2 - y1, y1);
    OfAdd(y2 - 2 * y1, y0);
  }

  lemma Coefficients3(y0: int, y1: int, y2: int, q: int)
    requires q == y2 - 2 * y1 + y0
    ensures FromEvals([Of(y0), Of(y1), Of(y2)]) == [Of(y0), Of(y1 - y0 - HALF * q), Of(HALF * q)]
  {
    QuadraticNumerator(y0, y1, y2);
    OfRepresentative(HALF);
    OfMul(HALF, q);
    OfSub(y1, y0);
    OfSub(y1 - y0, HALF * q);
  }

  lemma SixthTimes(x: int)
    ensures Of(SIXTH * (6 * x)) == Of(x)
  {
    hide Of, Mul;
    Inverses();
    OfMul(6 * SIXTH, x);
    OfMul(6, SIXTH);
    OfRepresentative(SIXTH);
    MulOne(Of(x));
    assert SIXTH * (6 * x) == (6 * SIXTH) * x;
  }

  lemma HalfTimes(x: int)
    ensures Of(HALF * (2 * x)) == Of(x)
  {
    hide Of, Mul;
    Inverses();
    OfMul(2 * HALF, x);
    OfMul(2, HALF);
    OfRepresentative(HALF);
    MulOne(Of(x));
    assert HALF * (2 * x) == (2 * HALF) * x;
  }

  lemma QuadraticAt(c0: int, c1: int, c2: int, t: int)
    ensures Add(Of(c0), Mul(Of(t), Add(Of(c1), Mul(Of(t), Of(c2))))) == Of(c0 + t * (c1 + t * c2))
  {
    OfMul(t, c2);
    OfAdd(c1, t * c2);
    OfMul(t, c1 + t * c2);
    OfAdd(c0, t * (c1 + t * c2));
  }

  lemma CubicAt(c0: int, c1: int, c2: int, c3: int, t: int)
    ensures Add(Of(c0), Mul(Of(t), Add(Of(c1), Mul(Of(t), Add(Of(c2), Mul(Of(t), Of(c3)))))))
         == Of(c0 + t * (c1 + t * (c2 + t * c3)))
  {
    QuadraticAt(c1, c2, c3, t);
    OfMul(t, c1 + t * (c2 + t * c3));
    OfAdd(c0, t * (c1 + t * (c2 + t * c3)));
  }

  lemma Representatives4(c: seq<F>)
    requires |c| == 4
    ensures Of(c[0]) == c[0] && Of(c[1]) == c[1] && Of(c[2]) == c[2] && Of(c[3]) == c[3]
  {
    OfRepresentative(c[0]);
    OfRepresentative(c[1]);
    OfRepresentative(c[2]);
    OfRepresentative(c[3]);
  }

  lemma EvalAsInteger4(c: seq<F>, t: F)
    requires |c| == 4
    ensures Eval(c, t) == Of(c[0] + t * (c[1] + t * (c[2] + t * c[3])))
  {
    hide Eval, Of, Add, Mul;
    Eval4(c, t);
    Representatives4(c);
    OfRepresentative(t);
    CubicAt(c[0], c[1], c[2], c[3], t);
  }

  lemma EvalAsInteger3(c: seq<F>, t: F)
    requires |c| == 3
    ensures Eval(c, t) == Of(c[0] + t * (c[1] + t * c[2]))
  {
    hide Eval;
    Eval3(c, t);
    OfRepresentative(c[0]);
    OfRepresentative(c[1]);
    OfRepresentative(c[2]);
    OfRepresentative(t);
    QuadraticAt(c[0], c[1], c[2], t);
  }

  lemma RecoverLinear4(c1: int, c2: int, c3: int, a: int, b: int)
    requires Of(a) == Of(c3) && Of(b) == Of(c2)
    ensures Of(c1 + c2 + c3 - a - b) == Of(c1)
  {
    OfSub(c1 + c2 + c3, a);
    OfSub(c1 + c2 + c3, c3);
    OfSub(c1 + c2 + c3 - a, b);
    OfSub(c1 + c2, c2);
  }

  lemma IntegerSamples4(c: seq<F>, y: seq<F>, c0: int, c1: int, c2: int, c3: int)
    requires |c| == |y| == 4 && c[0] == c0 && c[1] == c1 && c[2] == c2 && c[3] == c3
    requires forall i :: 0 <= i < 4 ==> y[i] == Eval(c, i)
    ensures y == [Of(c0), Of(c0 + c1 + c2 + c3), Of(c0 + 2 * c1 + 4 * c2 + 8 * c3), Of(c0 + 3 * c1 + 9 * c2 + 27 * c3)]
  {
    hide Of, Eval;
    EvalAsInteger4(c, 0);
    EvalAsInteger4(c, 1);
    EvalAsInteger4(c, 2);
    EvalAsInteger4(c, 3);
  }

  /** The four values of a cubic determine its coefficients. */
  lemma Interpolates4(c: seq<F>, y: seq<F>)
    requires |c| == |y| == 4
    requires forall i :: 0 <= i < 4 ==> y[i] == Eval(c, i)
    ensures FromEvals(y) == c
  {
    hide FromEvals, Of, Eval;
    var c0: int, c1: int, c2: int, c3: int := c[0], c[1], c[2], c[3];
    var y1, y2, y3 := c0 + c1 + c2 + c3, c0 + 2 * c1 + 4 * c2 + 8 * c3, c0 + 3 * c1 + 9 * c2 + 27 * c3;
    IntegerSamples4(c, y, c0, c1, c2, c3);
    Coefficients4(c0, y1, y2, y3, 6 * c3, 2 * c2);
    SixthTimes(c3);
    HalfTimes(c2);
    RecoverLinear4(c1, c2, c3, SIXTH * (6 * c3), HALF * (2 * c2));
    Representatives4(c);
  }

  /** The three values of a quadratic determine its coefficients. */
  lemma Interpolates3(c: seq<F>, y: seq<F>)
    requires |c| == |y| == 3
    requires forall i :: 0 <= i < 3 ==> y[i] == Eval(c, i)
    ensures FromEvals(y) == c
  {
    var c0: int, c1: int, c2: int := c[0], c[1], c[2];
    EvalAsInteger3(c, 0);
    EvalAsInteger3(c, 1);
    EvalAsInteger3(c, 2);
    var y1, y2 := c0 + c1 + c2, c0 + 2 * c1 + 4 * c2;
    assert y == [Of(c0), Of(y1), Of(y2)];
    Coefficients3(c0, y1, y2, 2 * c2);
    HalfTimes(c2);
    OfSub(c1 + c2, HALF * (2 * c2));
    OfSub(c1 + c2, c2);
    OfRepresentative(c[0]);
    OfRepresentative(c[1]);
    OfRepresentative(c[2]);
  }

  // ---- Interpolation is linear in the values ----

  /** The value at t of the polynomial through the points (i, y[i]). */
  function Through(y: seq<F>, t: F): F
    requires |y| == 3 || |y| == 4
  {
    Eval(FromEvals(y), t)
  }

  lemma {:induction false} EvalCombine(x: F, c: seq<F>, x': F, c': seq<F>, t: F)
    requires |c| == |c'|
    ensures Eval(Combine(x, c, x', c'), t) == Mix(x, Eval(c, t), x', Eval(c', t))
  {
    if c == [] {
      MulZero(x);
      MulZero(x');
      AddZero(0);
    } else {
      assert Combine(x, c, x', c')[1..] == Combine(x, c[1..], x', c'[1..]);
      EvalCombine(x, c[1..], x', c'[1..], t);
      MixMul(t, x, Eval(c[1..], t), x', Eval(c'[1..], t));
      MixAdd(x, c[0], Mul(t, Eval(c[1..], t)), x', c'[0], Mul(t, Eval(c'[1..], t)));
    }
  }

  lemma FromEvalsCombine(x: F, y: seq<F>, x': F, y': seq<F>)
    requires |y| == |y'| && (|y| == 3 || |y| == 4)
    ensures FromEvals(Combine(x, y, x', y')) == Combine(x, FromEvals(y), x', FromEvals(y'))
  {
    hide Mix;
    MixLinear(x, x');
    var z, c := Combine(x, y, x', y'), Combine(x, FromEvals(y), x', FromEvals(y'));
    assert z[0] == Mix(x, y[0], x', y'[0]) && z[1] == Mix(x, y[1], x', y'[1]) && z[2] == Mix(x, y[2], x', y'[2]);
    if |y| == 4 {
      assert z[3] == Mix(x, y[3], x', y'[3]);
    }
    assert FromEvals(z) == c;
  }

  lemma ThroughCombine(x: F, y: seq<F>, x': F, y': seq<F>, t: F)
    requires |y| == |y'| && (|y| == 3 || |y| == 4)
    ensures Through(Combine(x, y, x', y'), t) == Mix(x, Through(y, t), x', Through(y', t))
  {
    FromEvalsCombine(x, y, x', y');
    EvalCombine(x, FromEvals(y), x', FromEvals(y'), t);
  }

  /** The polynomial of degree n - 1 that is 1 at 1 and 0 at the other points: how an error in the
      value at 1 shows at t. */
  function ErrorWeight(n: nat, t: F): F
    requires n == 3 || n == 4
  {
    Through([0, 1] + Zeros(n - 2), t)
  }

  lemma ThroughShifted(y: seq<F>, delta: F, t: F)
    requires |y| == 3 || |y| == 4
    ensures Through(y[1 := Add(y[1], delta)], t) == Add(Through(y, t), Mul(delta, ErrorWeight(|y|, t)))
  {
    var unit := [0, 1] + Zeros(|y| - 2);
    forall i | 0 <= i < |y|
      ensures y[1 := Add(y[1], delta)][i] == Combine(1, y, delta, unit)[i]
    {
      MulOne(y[i]);
      MulOne(delta);
      MulZero(delta);
      AddZero(y[i]);
    }
    assert y[1 := Add(y[1], delta)] == Combine(1, y, delta, unit);
    ThroughCombine(1, y, delta, unit, t);
    MulOne(Through(y, t));
  }

  // ---- A nonzero polynomial has few roots ----

  /** The quotient of c(t) - c(a) by t - a. */
  ghost function Quotient(c: seq<F>, a: F): (q: seq<F>)
    ensures |q| == if c == [] then 0 else |c| - 1
  {
    if |c| <= 1 then [] else [Eval(c[1..], a)] + Quotient(c[1..], a)
  }

  lemma FactorStep(t: F, a: F, ct: F, ca: F, q: F, c0: F)
    requires Sub(ct, ca) == Mul(Sub(t, a), q)
    ensures Sub(Add(c0, Mul(t, ct)), Add(c0, Mul(a, ca))) == Mul(Sub(t, a), Add(ca, Mul(t, q)))
  {
    DistributesAdd(Sub(t, a), ca, Mul(t, q));
    MulRotates(Sub(t, a), t, q);
    DistributesSub(t, ct, ca);
    MulCommutes(Sub(t, a), ca);
    DistributesSub(ca, t, a);
    MulCommutes(ca, t);
    MulCommutes(ca, a);
    Telescope(c0, Mul(t, ct), Mul(a, ca), Mul(t, ca));
  }

  lemma Telescope(c: F, x: F, y: F, z: F)
    ensures Sub(Add(c, x), Add(c, y)) == Add(Sub(z, y), Sub(x, z))
  {
    SubCancels(c, x, y);
    SubOfAdds(z, y, x, z);
    AddCommutes(y, z);
    SubCancels(z, x, y);
  }

  lemma {:induction false} Factor(c: seq<F>, a: F, t: F)
    ensures Sub(Eval(c, t), Eval(c, a)) == Mul(Sub(t, a), Eval(Quotient(c, a), t))
  {
    if |c| <= 1 {
      if |c| == 1 {
        assert c == [c[0]];
        EvalOne(c[0], t);
        EvalOne(c[0], a);
      }
      SubIsZero(Eval(c, t), Eval(c, a));
      MulZero(Sub(t, a));
    } else {
      Factor(c[1..], a, t);
      var q := Quotient(c[1..], a);
      assert Quotient(c, a)[1..] == q;
      FactorStep(t, a, Eval(c[1..], t), Eval(c[1..], a), Eval(q, t), c[0]);
    }
  }

  ghost function Roots(c: seq<F>): set<F> {
    set t: F | 0 <= t < K.p && Eval(c, t) == 0
  }

  /** A polynomial with n coefficients that is not zero everywhere has fewer than n roots. */
  lemma {:induction false} FewRoots(c: seq<F>, x: F)
    requires Eval(c, x) != 0
    ensures |Roots(c)| < |c|
    decreases |c|
  {
    if Roots(c) != {} {
      var a :| a in Roots(c);
      var q := Quotient(c, a);
      Factor(c, a, x);
      SubZero(Eval(c, x));
      if Eval(q, x) == 0 {
        MulZero(Sub(x, a));
      }
      FewRoots(q, x);
      forall t | t in Roots(c)
        ensures t in Roots(q) + {a}
      {
        Factor(c, a, t);
        SubIsZero(0, 0);
        NoZeroDivisors(Sub(t, a), Eval(q, t));
        SubIsZero(t, a);
      }
      assert Roots(c) <= Roots(q) + {a};
      Within(Roots(c), Roots(q) + {a});
      assert |Roots(q) + {a}| <= |Roots(q)| + 1;
    }
  }

  lemma {:induction false} Within(a: set<F>, b: set<F>)
    requires a <= b
    ensures |a| <= |b|
  {
    if a != {} {
      var x :| x in a;
      Within(a - {x}, b - {x});
    }
  }

  /** Two different polynomials with n coefficients agree at fewer than n points. */
  lemma FewAgreements(c: seq<F>, c': seq<F>, x: F, A: set<F>)
    requires |c| == |c'|
    requires Eval(c, x) != Eval(c', x)
    requires forall t :: t in A ==> Eval(c, t) == Eval(c', t)
    ensures |A| < |c|
  {
    var minusOne := Sub(0, 1);
    var c'' := Combine(1, c, minusOne, c');
    forall t: F
      ensures Eval(c'', t) == Sub(Eval(c, t), Eval(c', t))
    {
      EvalCombine(1, c, minusOne, c', t);
      MixMinus(Eval(c, t), Eval(c', t));
    }
    SubIsZero(Eval(c, x), Eval(c', x));
    FewRoots(c'', x);
    forall t | t in A
      ensures t in Roots(c'')
    {
      SubIsZero(Eval(c, t), Eval(c', t));
    }
    Within(A, Roots(c''));
  }

  lemma MixMinus(a: F, b: F)
    ensures Mix(1, a, Sub(0, 1), b) == Sub(a, b)
  {
    MulOne(a);
    MulOne(b);
    MulZero(b);
    MulCommutes(Sub(0, 1), b);
    DistributesSub(b, 0, 1);
    AddNegated(a, b);
  }

  lemma SumOfCoefficients4(y0: F, y1: F, a: F, b: F)
    ensures Add(Add(Add(Add(0, y0), Sub(Sub(Sub(y1, y0), a), b)), b), a) == y1
  {
    var x := Sub(y1, y0);
    AddZero(y0);
    AddAssociates(y0, Sub(Sub(x, a), b), b);
    SubThenAdd(Sub(x, a), b);
    AddAssociates(y0, Sub(x, a), a);
    SubThenAdd(x, a);
    AddSub(y0, y1);
  }

  lemma SumOfCoefficients3(y0: F, y1: F, a: F)
    ensures Add(Add(Add(0, y0), Sub(Sub(y1, y0), a)), a) == y1
  {
    var x := Sub(y1, y0);
    AddZero(y0);
    AddAssociates(y0, Sub(x, a), a);
    SubThenAdd(x, a);
    AddSub(y0, y1);
  }

  lemma Sum3(c: seq<F>)
    requires |c| == 3
    ensures Sum(c) == Add(Add(Add(0, c[0]), c[1]), c[2])
  {
    assert c[..2][..1] == c[..1] && c[..1][..0] == [];
    assert Sum(c[..1]) == Add(Sum(c[..1][..0]), c[0]);
    assert Sum(c[..2]) == Add(Sum(c[..1]), c[1]);
  }

  /** The interpolated polynomial takes the given values at 0 and 1. */
  lemma FromEvalsEnds(y: seq<F>)
    requires |y| == 3 || |y| == 4
    ensures FromEvals(y)[0] == y[0]
    ensures EvalAtOne(FromEvals(y)) == y[1]
  {
    var c := FromEvals(y);
    if |y| == 3 {
      Sum3(c);
      SumOfCoefficients3(y[0], y[1], c[2]);
    } else {
      Sum3(c[..3]);
      SumOfCoefficients4(y[0], y[1], c[3], c[2]);
    }
  }

  lemma EvalAtZero(c: seq<F>)
    requires c != []
    ensures Eval(c, 0) == c[0]
  {
    MulZero(Eval(c[1..], 0));
    AddZero(c[0]);
  }

  lemma {:induction false} EvalAtOneIsEval(c: seq<F>)
    ensures Eval(c, 1) == EvalAtOne(c)
  {
    if c != [] {
      EvalAtOneIsEval(c[1..]);
      MulOne(Eval(c[1..], 1));
      SumFront(c[0], c[1..]);
      assert c == [c[0]] + c[1..];
    }
  }
}
