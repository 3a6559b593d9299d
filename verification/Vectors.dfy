/** Sums, products and inner products of vectors of field elements. */
module Vectors {
  import opened Field

  function Zeros(n: nat): (z: seq<F>) {
    seq(n, _ => 0)
  }

  function Sum(s: seq<F>): F {
    if s == [] then 0 else Add(Sum(s[..|s| - 1]), s[|s| - 1])
  }

  function Prod(s: seq<F>): F {
    if s == [] then 1 else Mul(Prod(s[..|s| - 1]), s[|s| - 1])
  }

  function Dot(a: seq<F>, b: seq<F>): F
    requires |a| == |b|
  {
    if a == [] then 0
    else
      var n := |a| - 1;
      Add(Dot(a[..n], b[..n]), Mul(a[n], b[n]))
  }

  function Scale(c: F, v: seq<F>): seq<F> {
    seq(|v|, i requires 0 <= i < |v| => Mul(c, v[i]))
  }

  /** x*a + y*b */
  function Mix(x: F, a: F, y: F, b: F): F {
    Add(Mul(x, a), Mul(y, b))
  }

  /** x*a + y*b, entry by entry. */
  function Combine(x: F, a: seq<F>, y: F, b: seq<F>): seq<F>
    requires |a| == |b|
  {
    seq(|a|, i requires 0 <= i < |a| => Mix(x, a[i], y, b[i]))
  }

  /** The entrywise product. */
  function Hadamard(a: seq<F>, b: seq<F>): seq<F>
    requires |a| == |b|
  {
    seq(|a|, i requires 0 <= i < |a| => Mul(a[i], b[i]))
  }

  // ---- Mix is linear ----

  lemma SubExchanges(a: F, b: F, c: F, d: F)
    ensures Sub(Add(a, b), Add(c, d)) == Add(Sub(a, c), Sub(b, d))
  {
    SubOfAdds(a, c, b, d);
  }

  lemma MixAdd(x: F, a: F, b: F, y: F, a': F, b': F)
    ensures Add(Mix(x, a, y, a'), Mix(x, b, y, b')) == Mix(x, Add(a, b), y, Add(a', b'))
  {
    AddExchanges(Mul(x, a), Mul(y, a'), Mul(x, b), Mul(y, b'));
    DistributesAdd(x, a, b);
    DistributesAdd(y, a', b');
  }

  lemma MixSub(x: F, a: F, b: F, y: F, a': F, b': F)
    ensures Sub(Mix(x, a, y, a'), Mix(x, b, y, b')) == Mix(x, Sub(a, b), y, Sub(a', b'))
  {
    SubExchanges(Mul(x, a), Mul(y, a'), Mul(x, b), Mul(y, b'));
    DistributesSub(x, a, b);
    DistributesSub(y, a', b');
  }

  lemma MulRotates(c: F, x: F, a: F)
    ensures Mul(c, Mul(x, a)) == Mul(x, Mul(c, a))
  {
    MulAssociates(c, x, a);
    MulCommutes(c, x);
    MulAssociates(x, c, a);
  }

  lemma MixMul(c: F, x: F, a: F, y: F, b: F)
    ensures Mul(c, Mix(x, a, y, b)) == Mix(x, Mul(c, a), y, Mul(c, b))
  {
    DistributesAdd(c, Mul(x, a), Mul(y, b));
    MulRotates(c, x, a);
    MulRotates(c, y, b);
  }

  /** Lets a chain of additions, subtractions and multiplications by constants be pulled through. */
  lemma MixLinear(x: F, y: F)
    ensures forall a: F, b: F, a': F, b': F {:trigger Add(Mix(x, a, y, a'), Mix(x, b, y, b'))} ::
              Add(Mix(x, a, y, a'), Mix(x, b, y, b')) == Mix(x, Add(a, b), y, Add(a', b'))
    ensures forall a: F, b: F, a': F, b': F {:trigger Sub(Mix(x, a, y, a'), Mix(x, b, y, b'))} ::
              Sub(Mix(x, a, y, a'), Mix(x, b, y, b')) == Mix(x, Sub(a, b), y, Sub(a', b'))
    ensures forall c: F, a: F, a': F {:trigger Mul(c, Mix(x, a, y, a'))} ::
              Mul(c, Mix(x, a, y, a')) == Mix(x, Mul(c, a), y, Mul(c, a'))
  {
    forall a: F, b: F, a': F, b': F
      ensures Add(Mix(x, a, y, a'), Mix(x, b, y, b')) == Mix(x, Add(a, b), y, Add(a', b'))
    {
      MixAdd(x, a, b, y, a', b');
    }
    forall a: F, b: F, a': F, b': F
      ensures Sub(Mix(x, a, y, a'), Mix(x, b, y, b')) == Mix(x, Sub(a, b), y, Sub(a', b'))
    {
      MixSub(x, a, b, y, a', b');
    }
    forall c: F, a: F, a': F
      ensures Mul(c, Mix(x, a, y, a')) == Mix(x, Mul(c, a), y, Mul(c, a'))
    {
      MixMul(c, x, a, y, a');
    }
  }

  // ---- Sums and products ----

  lemma {:induction false} ProdAppend(a: seq<F>, b: seq<F>)
    ensures Prod(a + b) == Mul(Prod(a), Prod(b))
  {
    if b == [] {
      assert a + b == a;
      MulOne(Prod(a));
    } else {
      var n := |b| - 1;
      assert (a + b)[..|a + b| - 1] == a + b[..n];
      ProdAppend(a, b[..n]);
      MulAssociates(Prod(a), Prod(b[..n]), b[n]);
    }
  }

  lemma ProdOne(x: F)
    ensures Prod([x]) == x
  {
    assert [x][..0] == [];
    MulOne(x);
  }

  lemma {:induction false} SumAppend(a: seq<F>, b: seq<F>)
    ensures Sum(a + b) == Add(Sum(a), Sum(b))
  {
    if b == [] {
      assert a + b == a;
      AddZero(Sum(a));
    } else {
      var n := |b| - 1;
      assert (a + b)[..|a + b| - 1] == a + b[..n];
      SumAppend(a, b[..n]);
      AddAssociates(Sum(a), Sum(b[..n]), b[n]);
    }
  }

  lemma MulExchanges(a: F, b: F, c: F, d: F)
    ensures Mul(Mul(a, b), Mul(c, d)) == Mul(Mul(a, c), Mul(b, d))
  {
    MulAssociates(a, b, Mul(c, d));
    MulRotates(b, c, d);
    MulAssociates(a, c, Mul(b, d));
  }

  lemma {:induction false} ProdHadamard(a: seq<F>, b: seq<F>)
    requires |a| == |b|
    ensures Prod(Hadamard(a, b)) == Mul(Prod(a), Prod(b))
  {
    if a == [] {
      MulOne(1);
    } else {
      var n := |a| - 1;
      assert Hadamard(a, b)[..n] == Hadamard(a[..n], b[..n]);
      ProdHadamard(a[..n], b[..n]);
      MulExchanges(Prod(a[..n]), Prod(b[..n]), a[n], b[n]);
    }
  }

  lemma {:induction false} DotAppend(a: seq<F>, b: seq<F>, c: seq<F>, d: seq<F>)
    requires |a| == |c| && |b| == |d|
    ensures Dot(a + b, c + d) == Add(Dot(a, c), Dot(b, d))
  {
    if b == [] {
      assert a + b == a && c + d == c;
      AddZero(Dot(a, c));
    } else {
      var n := |b| - 1;
      assert (a + b)[..|a| + n] == a + b[..n];
      assert (c + d)[..|a| + n] == c + d[..n];
      DotAppend(a, b[..n], c, d[..n]);
      AddAssociates(Dot(a, c), Dot(b[..n], d[..n]), Mul(b[n], d[n]));
    }
  }

  lemma DotOfPrefix(a: seq<F>, b: seq<F>, k: nat)
    requires k < |a| && k < |b|
    ensures Dot(a[..k + 1], b[..k + 1]) == Add(Dot(a[..k], b[..k]), Mul(a[k], b[k]))
  {
    assert a[..k + 1][..k] == a[..k] && b[..k + 1][..k] == b[..k];
  }

  lemma {:induction false} DotCommutes(a: seq<F>, b: seq<F>)
    requires |a| == |b|
    ensures Dot(a, b) == Dot(b, a)
  {
    if a != [] {
      var n := |a| - 1;
      DotCommutes(a[..n], b[..n]);
      MulCommutes(a[n], b[n]);
    }
  }

  lemma DotStep(x: F, y: F, s: F, t: F, a: F, b: F, c: F)
    ensures Add(Add(Mul(x, s), Mul(y, t)), Mul(Add(Mul(x, a), Mul(y, b)), c))
         == Add(Mul(x, Add(s, Mul(a, c))), Mul(y, Add(t, Mul(b, c))))
  {
    MulCommutes(Mix(x, a, y, b), c);
    MixMul(c, x, a, y, b);
    AddExchanges(Mul(x, s), Mul(y, t), Mul(x, Mul(c, a)), Mul(y, Mul(c, b)));
    MulCommutes(c, a);
    MulCommutes(c, b);
    DistributesAdd(x, s, Mul(a, c));
    DistributesAdd(y, t, Mul(b, c));
  }

  /** The inner product is linear in its first argument. */
  lemma {:induction false} DotCombine(x: F, a: seq<F>, y: F, b: seq<F>, c: seq<F>)
    requires |a| == |b| == |c|
    ensures Dot(Combine(x, a, y, b), c) == Add(Mul(x, Dot(a, c)), Mul(y, Dot(b, c)))
  {
    if a == [] {
      MulZero(x);
      MulZero(y);
      AddZero(0);
    } else {
      var n := |a| - 1;
      assert Combine(x, a, y, b)[..n] == Combine(x, a[..n], y, b[..n]);
      DotCombine(x, a[..n], y, b[..n], c[..n]);
      DotStep(x, y, Dot(a[..n], c[..n]), Dot(b[..n], c[..n]), a[n], b[n], c[n]);
    }
  }

  lemma {:induction false} DotScale(x: F, a: seq<F>, c: seq<F>)
    requires |a| == |c|
    ensures Dot(Scale(x, a), c) == Mul(x, Dot(a, c))
  {
    if a == [] {
      MulZero(x);
    } else {
      var n := |a| - 1;
      assert Scale(x, a)[..n] == Scale(x, a[..n]);
      DotScale(x, a[..n], c[..n]);
      MulAssociates(x, a[n], c[n]);
      DistributesAdd(x, Dot(a[..n], c[..n]), Mul(a[n], c[n]));
    }
  }

  lemma {:induction false} DotZeros(n: nat, c: seq<F>)
    requires |c| == n
    ensures Dot(Zeros(n), c) == 0
  {
    if n > 0 {
      assert Zeros(n)[..n - 1] == Zeros(n - 1);
      DotZeros(n - 1, c[..n - 1]);
      MulZero(c[n - 1]);
      AddZero(0);
    }
  }

  lemma UpdateLast(d: F, v: F, x: F, w: F)
    ensures Add(d, Mul(Add(v, x), w)) == Add(Add(d, Mul(v, w)), Mul(x, w))
  {
    MulCommutes(Add(v, x), w);
    DistributesAdd(w, v, x);
    MulCommutes(w, v);
    MulCommutes(w, x);
    AddAssociates(d, Mul(v, w), Mul(x, w));
  }

  lemma UpdateEarlier(d: F, y: F, z: F)
    ensures Add(Add(d, y), z) == Add(Add(d, z), y)
  {
    AddAssociates(d, y, z);
    AddCommutes(y, z);
    AddAssociates(d, z, y);
  }

  /** Adding x to entry k of one vector adds x*w[k] to the inner product. */
  lemma {:induction false} DotUpdate(v: seq<F>, k: nat, x: F, w: seq<F>)
    requires k < |v| == |w|
    ensures Dot(v[k := Add(v[k], x)], w) == Add(Dot(v, w), Mul(x, w[k]))
  {
    var n := |v| - 1;
    var v' := v[k := Add(v[k], x)];
    if k == n {
      assert v'[..n] == v[..n];
      UpdateLast(Dot(v[..n], w[..n]), v[n], x, w[n]);
    } else {
      assert v'[..n] == v[..n][k := Add(v[..n][k], x)];
      DotUpdate(v[..n], k, x, w[..n]);
      UpdateEarlier(Dot(v[..n], w[..n]), Mul(x, w[k]), Mul(v[n], w[n]));
    }
  }

  // ---- Lists of lists ----

  function Flat<T>(ss: seq<seq<T>>): seq<T> {
    if ss == [] then [] else Flat(ss[..|ss| - 1]) + ss[|ss| - 1]
  }

  lemma FlatSnoc<T>(ss: seq<seq<T>>, k: nat)
    requires k < |ss|
    ensures Flat(ss[..k + 1]) == Flat(ss[..k]) + ss[k]
  {
    assert ss[..k + 1][..k] == ss[..k];
  }

  lemma {:induction false} FlatAppend<T>(a: seq<seq<T>>, b: seq<seq<T>>)
    ensures Flat(a + b) == Flat(a) + Flat(b)
  {
    if b == [] {
      assert a + b == a;
    } else {
      var n := |b| - 1;
      assert (a + b)[..|a| + n] == a + b[..n];
      FlatAppend(a, b[..n]);
    }
  }

  lemma {:induction false} FlatLength<T>(ss: seq<seq<T>>, w: nat)
    requires forall i :: 0 <= i < |ss| ==> |ss[i]| == w
    ensures |Flat(ss)| == |ss| * w
  {
    if ss != [] {
      FlatLength(ss[..|ss| - 1], w);
      assert |ss| * w == (|ss| - 1) * w + w;
    }
  }
}
