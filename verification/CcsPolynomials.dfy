/** The polynomials that the folding of constraint systems hands to sum-check
    (`construct_combined_ccs_polynomial` in nova/src/ccs/ccs_fold.rs, `construct_sumcheck_polynomial` in
    nova/src/ccs/lccs_fold.rs), as lists of products of tables, and what they sum to. */
module CcsPolynomials {
  import opened Field
  import opened Vectors
  import opened Powers
  import opened Multilinear
  import opened UniPoly
  import opened DensePolynomial
  import opened Merging
  import opened BitReversal
  import opened Csr
  import opened CcsFolding

  /** A coefficient times the entrywise product of tables. */
  datatype Product = Product(coefficient: F, factors: seq<Table>)

  ghost predicate Sized(p: Product, N: nat) {
    forall k :: 0 <= k < |p.factors| ==> |p.factors[k]| == N
  }

  ghost predicate AllProductsSized(L: seq<Product>, N: nat) {
    forall i :: 0 <= i < |L| ==> Sized(L[i], N)
  }

  ghost function Entries(factors: seq<Table>, x: nat): (v: seq<F>)
    requires forall k :: 0 <= k < |factors| ==> x < |factors[k]|
    ensures |v| == |factors|
  {
    seq<F>(|factors|, k requires 0 <= k < |factors| => factors[k][x])
  }

  ghost function ValueOf(p: Product, x: nat, N: nat): F
    requires Sized(p, N) && x < N
  {
    Mul(p.coefficient, Prod(Entries(p.factors, x)))
  }

  /** The sum of the products at one point. */
  ghost function ListValue(L: seq<Product>, x: nat, N: nat): F
    requires AllProductsSized(L, N) && x < N
  {
    if L == [] then 0
    else
      Add(ListValue(L[..|L| - 1], x, N), ValueOf(L[|L| - 1], x, N))
  }

  lemma ValueOfNone(x: nat, N: nat)
    requires x < N
    ensures AllProductsSized([], N) && ListValue([], x, N) == 0
  {
  }

  lemma ValueOfTwoMore(L: seq<Product>, p: Product, q: Product, x: nat, N: nat)
    requires AllProductsSized(L, N) && Sized(p, N) && Sized(q, N) && x < N
    ensures AllProductsSized(L + [p, q], N)
    ensures ListValue(L + [p, q], x, N) == Add(Add(ListValue(L, x, N), ValueOf(p, x, N)), ValueOf(q, x, N))
  {
    hide ValueOf, Sized;
    assert (L + [p, q])[..|L| + 1] == L + [p] && (L + [p])[..|L|] == L;
  }

  /** The sum over the hypercube, up to point n. */
  ghost function Total(L: seq<Product>, n: nat, N: nat): F
    requires AllProductsSized(L, N) && n <= N
  {
    if n == 0 then 0 else Add(Total(L, n - 1, N), ListValue(L, n - 1, N))
  }

  // ---- The combined polynomial of two instances ----

  /** M z for every matrix, padded to a power of two. */
  ghost function PaddedTables(shape: Shape, z: seq<F>): (Ts: seq<Table>)
    requires shape.Valid() && |z| == shape.numIo + shape.numVars
    ensures |Ts| == |shape.Ms| && forall j :: 0 <= j < |Ts| ==> |Ts[j]| == NextPow2(shape.numConstraints)
  {
    seq<Table>(|shape.Ms|, j requires 0 <= j < |shape.Ms| => PadPow2(MatVec(shape.Ms[j], z)))
  }

  ghost function Pick(Ts: seq<Table>, factors: seq<nat>): (Us: seq<Table>)
    requires forall k :: 0 <= k < |factors| ==> factors[k] < |Ts|
    ensures |Us| == |factors| && forall k :: 0 <= k < |Us| ==> Us[k] == Ts[factors[k]]
  {
    seq<Table>(|factors|, k requires 0 <= k < |factors| => Ts[factors[k]])
  }

  ghost predicate TermsFit(terms: seq<Term>, Ts: seq<Table>) {
    forall t :: 0 <= t < |terms| ==> forall k :: 0 <= k < |terms[t].factors| ==> terms[t].factors[k] < |Ts|
  }

  /** The constraint in row x: the sum over the terms of c times the product of the rows. */
  ghost function RowValue(terms: seq<Term>, Ts: seq<Table>, x: nat): F
    requires TermsFit(terms, Ts) && forall j :: 0 <= j < |Ts| ==> x < |Ts[j]|
  {
    if terms == [] then 0
    else
      var t := terms[|terms| - 1];
      Add(RowValue(terms[..|terms| - 1], Ts, x), Mul(t.c, Prod(Entries(Pick(Ts, t.factors), x))))
  }

  /** `is_satisfied`, the constraints. */
  ghost predicate Satisfied(shape: Shape, z: seq<F>) {
    && shape.Valid() && |z| == shape.numIo + shape.numVars
    && (forall x :: 0 <= x < shape.numConstraints ==>
          x < NextPow2(shape.numConstraints) && RowValue(shape.terms, PaddedTables(shape, z), x) == 0)
  }

  /** The coefficients of terms without factors; this is what a padding row adds up to. */
  ghost function ConstantPart(terms: seq<Term>): F {
    if terms == [] then 0
    else
      var t := terms[|terms| - 1];
      Add(ConstantPart(terms[..|terms| - 1]), if t.factors == [] then t.c else 0)
  }

  lemma {:induction false} ProdWithZero(v: seq<F>, k: nat)
    requires k < |v| && v[k] == 0
    ensures Prod(v) == 0
  {
    var n := |v| - 1;
    if k == n {
      MulZero(Prod(v[..n]));
    } else {
      ProdWithZero(v[..n], k);
      MulZero(v[n]);
    }
  }

  lemma {:induction false} PaddingRow(terms: seq<Term>, Ts: seq<Table>, x: nat)
    requires TermsFit(terms, Ts) && forall j :: 0 <= j < |Ts| ==> x < |Ts[j]| && Ts[j][x] == 0
    ensures RowValue(terms, Ts, x) == ConstantPart(terms)
  {
    if terms != [] {
      var t := terms[|terms| - 1];
      PaddingRow(terms[..|terms| - 1], Ts, x);
      var v := Entries(Pick(Ts, t.factors), x);
      if t.factors == [] {
        MulOne(t.c);
      } else {
        ProdWithZero(v, 0);
        MulZero(t.c);
      }
    }
  }

  /** A padding row adds up to the constant part. */
  lemma PaddedRowValue(shape: Shape, z: seq<F>, x: nat)
    requires Satisfied(shape, z) && shape.numConstraints <= x < NextPow2(shape.numConstraints)
    ensures RowValue(shape.terms, PaddedTables(shape, z), x) == ConstantPart(shape.terms)
  {
    var Ts := PaddedTables(shape, z);
    forall j | 0 <= j < |Ts|
      ensures Ts[j][x] == 0
    {
      assert |MatVec(shape.Ms[j], z)| == shape.numConstraints;
    }
    PaddingRow(shape.terms, Ts, x);
  }

  /** The padded rows hold too when there are none, or when the constant part is zero - and only then. */
  lemma PaddedRowsHold(shape: Shape, z: seq<F>, x: nat)
    requires Satisfied(shape, z) && x < NextPow2(shape.numConstraints)
    ensures RowValue(shape.terms, PaddedTables(shape, z), x) == 0
       <==> x < shape.numConstraints || ConstantPart(shape.terms) == 0
  {
    if x >= shape.numConstraints {
      PaddedRowValue(shape, z, x);
    }
  }

  ghost function ReversedAll(Ts: seq<Table>, s: nat): (Us: seq<Table>)
    requires forall j :: 0 <= j < |Ts| ==> |Ts[j]| == Pow2(s)
    ensures |Us| == |Ts| && forall j :: 0 <= j < |Us| ==> Us[j] == Reversed(Ts[j], s)
  {
    seq<Table>(|Ts|, j requires 0 <= j < |Ts| => Reversed(Ts[j], s))
  }

  /** The products for the first terms: for each, one product per instance. */
  ghost function Combined(terms: seq<Term>, A: seq<Table>, B: seq<Table>, eq: Table, g1: F, g2: F): (L: seq<Product>)
    requires TermsFit(terms, A) && TermsFit(terms, B)
    ensures |L| == 2 * |terms|
  {
    if terms == [] then []
    else
      var t := terms[|terms| - 1];
      Combined(terms[..|terms| - 1], A, B, eq, g1, g2)
      + [Product(Mul(t.c, g1), Pick(A, t.factors) + [eq]), Product(Mul(t.c, g2), Pick(B, t.factors) + [eq])]
  }

  lemma {:induction false} CombinedSized(terms: seq<Term>, A: seq<Table>, B: seq<Table>, eq: Table, g1: F, g2: F, N: nat)
    requires TermsFit(terms, A) && TermsFit(terms, B) && |eq| == N
    requires forall j :: 0 <= j < |A| ==> |A[j]| == N
    requires forall j :: 0 <= j < |B| ==> |B[j]| == N
    ensures AllProductsSized(Combined(terms, A, B, eq, g1, g2), N)
  {
    if terms != [] {
      CombinedSized(terms[..|terms| - 1], A, B, eq, g1, g2, N);
    }
  }

  lemma ProductWithEq(c: F, g: F, Us: seq<Table>, eq: Table, x: nat, N: nat)
    requires |eq| == N && x < N && forall k :: 0 <= k < |Us| ==> |Us[k]| == N
    ensures Sized(Product(Mul(c, g), Us + [eq]), N)
    ensures ValueOf(Product(Mul(c, g), Us + [eq]), x, N) == Mul(Mul(g, Mul(c, Prod(Entries(Us, x)))), eq[x])
  {
    var p := Product(Mul(c, g), Us + [eq]);
    assert Sized(p, N);
    var v := Entries(p.factors, x);
    assert v == Entries(Us, x) + [eq[x]] && v[..|Us|] == Entries(Us, x);
    var q := Prod(Entries(Us, x));
    MulCommutes(c, g);
    MulAssociates(Mul(g, c), q, eq[x]);
    MulAssociates(g, c, q);
  }

  lemma CombinedStep(s1: F, s2: F, p1: F, p2: F, g1: F, g2: F, e: F)
    ensures Add(Add(Mul(Mix(g1, s1, g2, s2), e), Mul(Mul(g1, p1), e)), Mul(Mul(g2, p2), e))
         == Mul(Mix(g1, Add(s1, p1), g2, Add(s2, p2)), e)
  {
    var m := Mix(g1, s1, g2, s2);
    var q1, q2 := Mul(g1, p1), Mul(g2, p2);
    MixAdd(g1, s1, p1, g2, s2, p2);
    AddAssociates(m, q1, q2);
    MulCommutes(m, e);
    MulCommutes(q1, e);
    MulCommutes(q2, e);
    DistributesAdd(e, m, q1);
    DistributesAdd(e, Add(m, q1), q2);
    MulCommutes(e, Add(Add(m, q1), q2));
  }

  /** At every point the combined polynomial is eq times the mixed constraints of the two instances. */
  lemma {:induction false} CombinedValue(terms: seq<Term>, A: seq<Table>, B: seq<Table>, eq: Table, g1: F, g2: F, x: nat, N: nat)
    requires TermsFit(terms, A) && TermsFit(terms, B) && |eq| == N && x < N
    requires forall j :: 0 <= j < |A| ==> |A[j]| == N
    requires forall j :: 0 <= j < |B| ==> |B[j]| == N
    ensures AllProductsSized(Combined(terms, A, B, eq, g1, g2), N)
    ensures ListValue(Combined(terms, A, B, eq, g1, g2), x, N)
         == Mul(Mix(g1, RowValue(terms, A, x), g2, RowValue(terms, B, x)), eq[x])
  {
    hide ValueOf, Sized, ListValue;
    CombinedSized(terms, A, B, eq, g1, g2, N);
    if terms == [] {
      ValueOfNone(x, N);
      MixOfZeros(g1, g2);
      MulZero(eq[x]);
    } else {
      var n := |terms| - 1;
      var t, L := terms[n], Combined(terms[..n], A, B, eq, g1, g2);
      var p, q := Product(Mul(t.c, g1), Pick(A, t.factors) + [eq]), Product(Mul(t.c, g2), Pick(B, t.factors) + [eq]);
      CombinedValue(terms[..n], A, B, eq, g1, g2, x, N);
      ProductWithEq(t.c, g1, Pick(A, t.factors), eq, x, N);
      ProductWithEq(t.c, g2, Pick(B, t.factors), eq, x, N);
      ValueOfTwoMore(L, p, q, x, N);
      CombinedStep(RowValue(terms[..n], A, x), RowValue(terms[..n], B, x), Mul(t.c, Prod(Entries(Pick(A, t.factors), x))),
                   Mul(t.c, Prod(Entries(Pick(B, t.factors), x))), g1, g2, eq[x]);
    }
  }

  lemma EntriesReversed(Ts: seq<Table>, factors: seq<nat>, s: nat, x: nat)
    requires forall j :: 0 <= j < |Ts| ==> |Ts[j]| == Pow2(s)
    requires x < Pow2(s) && forall k :: 0 <= k < |factors| ==> factors[k] < |Ts|
    ensures Entries(Pick(ReversedAll(Ts, s), factors), x) == Entries(Pick(Ts, factors), ReverseBits(x, s))
  {
    hide ReverseBits;
  }

  lemma {:induction false} RowReversed(terms: seq<Term>, Ts: seq<Table>, s: nat, x: nat)
    requires TermsFit(terms, Ts) && x < Pow2(s) && forall j :: 0 <= j < |Ts| ==> |Ts[j]| == Pow2(s)
    ensures RowValue(terms, ReversedAll(Ts, s), x) == RowValue(terms, Ts, ReverseBits(x, s))
  {
    hide ReverseBits, ReversedAll;
    if terms != [] {
      RowReversed(terms[..|terms| - 1], Ts, s, x);
      EntriesReversed(Ts, terms[|terms| - 1].factors, s, x);
    }
  }

  /** The polynomial that folding two instances sums over the hypercube. */
  ghost function CombinedPolynomial(shape: Shape, z1: seq<F>, z2: seq<F>, beta: seq<F>, gamma: F): (L: seq<Product>)
    requires shape.Valid() && |z1| == |z2| == shape.numIo + shape.numVars && Pow2(|beta|) == NextPow2(shape.numConstraints)
    ensures AllProductsSized(L, Pow2(|beta|))
  {
    var s := |beta|;
    var A, B, eq := ReversedAll(PaddedTables(shape, z1), s), ReversedAll(PaddedTables(shape, z2), s), Reversed(EqTable(beta), s);
    CombinedSized(shape.terms, A, B, eq, gamma, Mul(gamma, gamma), Pow2(s));
    Combined(shape.terms, A, B, eq, gamma, Mul(gamma, gamma))
  }

  ghost function CombinedTotal(shape: Shape, z1: seq<F>, z2: seq<F>, beta: seq<F>, gamma: F): F
    requires shape.Valid() && |z1| == |z2| == shape.numIo + shape.numVars && Pow2(|beta|) == NextPow2(shape.numConstraints)
  {
    Total(CombinedPolynomial(shape, z1, z2, beta, gamma), Pow2(|beta|), Pow2(|beta|))
  }

  /** The constraints of both instances in every row, weighted by gamma and its square. */
  ghost function MixedRows(shape: Shape, z1: seq<F>, z2: seq<F>, gamma: F): (R: Table)
    requires shape.Valid() && |z1| == |z2| == shape.numIo + shape.numVars
    ensures |R| == NextPow2(shape.numConstraints)
  {
    var S, T := PaddedTables(shape, z1), PaddedTables(shape, z2);
    seq<F>(NextPow2(shape.numConstraints), y requires 0 <= y < NextPow2(shape.numConstraints) =>
      Mix(gamma, RowValue(shape.terms, S, y), Mul(gamma, gamma), RowValue(shape.terms, T, y)))
  }

  /** The constraints of one instance in every row, padding rows included. */
  ghost function RowValues(shape: Shape, z: seq<F>): (R: Table)
    requires shape.Valid() && |z| == shape.numIo + shape.numVars
    ensures |R| == NextPow2(shape.numConstraints)
  {
    var S := PaddedTables(shape, z);
    seq<F>(NextPow2(shape.numConstraints), y requires 0 <= y < NextPow2(shape.numConstraints) => RowValue(shape.terms, S, y))
  }

  /** The sum is a quadratic in gamma without a constant term; its coefficients are the extensions at beta of the rows of
      the two instances. */
  lemma CombinedIsPolynomial(shape: Shape, z1: seq<F>, z2: seq<F>, beta: seq<F>, gamma: F)
    requires shape.Valid() && |z1| == |z2| == shape.numIo + shape.numVars && Pow2(|beta|) == NextPow2(shape.numConstraints)
    ensures CombinedTotal(shape, z1, z2, beta, gamma)
         == Eval([0, Mle(RowValues(shape, z1), beta), Mle(RowValues(shape, z2), beta)], gamma)
  {
    hide Mle, RowValue, CombinedTotal, PaddedTables, NextPow2, Mul, Add;
    var R, S, g2 := RowValues(shape, z1), RowValues(shape, z2), Mul(gamma, gamma);
    CombinedSum(shape, z1, z2, beta, gamma);
    assert MixedRows(shape, z1, z2, gamma) == Combine(gamma, R, g2, S);
    hide MixedRows, RowValues;
    MleCombine(gamma, R, g2, S, beta);
    QuadraticInGamma(Mle(R, beta), Mle(S, beta), gamma);
  }

  lemma QuadraticInGamma(x: F, y: F, g: F)
    ensures Eval([0, x, y], g) == Mix(g, x, Mul(g, g), y)
  {
    Eval3([0, x, y], g);
    hide Mul, Add, Eval;
    DistributesAdd(g, x, Mul(g, y));
    MulAssociates(g, g, y);
    AddCommutes(0, Add(Mul(g, x), Mul(g, Mul(g, y))));
    AddZero(Add(Mul(g, x), Mul(g, Mul(g, y))));
  }

  lemma {:induction false} TotalIsDot(L: seq<Product>, P: Table, Q: Table, n: nat)
    requires |P| == |Q| && AllProductsSized(L, |P|) && n <= |P|
    requires forall x :: 0 <= x < |P| ==> ListValue(L, x, |P|) == Mul(P[x], Q[x])
    ensures Total(L, n, |P|) == Dot(P[..n], Q[..n])
  {
    hide ListValue, AllProductsSized;
    if n > 0 {
      TotalIsDot(L, P, Q, n - 1);
      DotOfPrefix(P, Q, n - 1);
    }
  }

  lemma MixedRowAt(shape: Shape, z1: seq<F>, z2: seq<F>, beta: seq<F>, gamma: F, x: nat)
    requires shape.Valid() && |z1| == |z2| == shape.numIo + shape.numVars && Pow2(|beta|) == NextPow2(shape.numConstraints) && x < Pow2(|beta|)
    ensures ListValue(CombinedPolynomial(shape, z1, z2, beta, gamma), x, Pow2(|beta|))
         == Mul(Reversed(MixedRows(shape, z1, z2, gamma), |beta|)[x], Reversed(EqTable(beta), |beta|)[x])
  {
    hide ReverseBits, EqTable, PaddedTables, RowValue, ListValue;
    var s, N, g2 := |beta|, Pow2(|beta|), Mul(gamma, gamma);
    var S, T := PaddedTables(shape, z1), PaddedTables(shape, z2);
    var A, B, eq := ReversedAll(S, s), ReversedAll(T, s), Reversed(EqTable(beta), s);
    CombinedValue(shape.terms, A, B, eq, gamma, g2, x, N);
    RowReversed(shape.terms, S, s, x);
    RowReversed(shape.terms, T, s, x);
  }

  /** What the combined polynomial sums to, for any two instances: the extension of the mixed rows at beta. */
  lemma CombinedSum(shape: Shape, z1: seq<F>, z2: seq<F>, beta: seq<F>, gamma: F)
    requires shape.Valid() && |z1| == |z2| == shape.numIo + shape.numVars && Pow2(|beta|) == NextPow2(shape.numConstraints)
    ensures CombinedTotal(shape, z1, z2, beta, gamma) == Mle(MixedRows(shape, z1, z2, gamma), beta)
  {
    hide EqTable, MixedRows, ListValue, Dot, Mle, Reversed, CombinedPolynomial;
    var s, R, E := |beta|, MixedRows(shape, z1, z2, gamma), EqTable(beta);
    var L, P, Q := CombinedPolynomial(shape, z1, z2, beta, gamma), Reversed(R, s), Reversed(E, s);
    forall x | 0 <= x < |P|
      ensures ListValue(L, x, |P|) == Mul(P[x], Q[x])
    {
      MixedRowAt(shape, z1, z2, beta, gamma, x);
    }
    TotalIsDot(L, P, Q, |P|);
    assert P[..|P|] == P && Q[..|P|] == Q;
    DotReversed(R, E, s);
    MleIsDot(R, beta);
  }

  /** The corner of the hypercube with index p. */
  function Corner(p: nat, s: nat): (r: seq<F>)
    requires p < Pow2(s)
    ensures |r| == s
  {
    if s == 0 then []
    else if p < Pow2(s - 1) then [0] + Corner(p, s - 1)
    else [1] + Corner(p - Pow2(s - 1), s - 1)
  }

  /** At a corner the extension is the entry of the table. */
  lemma {:induction false} MleAtCorner(Z: Table, p: nat, s: nat)
    requires |Z| == Pow2(s) && p < Pow2(s)
    ensures Mle(Z, Corner(p, s)) == Z[p]
    decreases s
  {
    var r := Corner(p, s);
    if s == 0 {
      LastValue(Z, r);
    } else {
      hide Mle, Lo, Hi, Interp;
      var h := Pow2(s - 1);
      HalfPower(s);
      HalfEntries(Z, h);
      MleStep(Z, r);
      InterpEnds(Mle(Lo(Z), r[1..]), Mle(Hi(Z), r[1..]));
      hide Pow2;
      if p < h {
        assert r == [0] + Corner(p, s - 1);
        MleAtCorner(Lo(Z), p, s - 1);
      } else {
        assert r == [1] + Corner(p - h, s - 1);
        MleAtCorner(Hi(Z), p - h, s - 1);
      }
    }
  }

  lemma HalfEntries(Z: Table, h: nat)
    requires |Z| == 2 * h
    ensures |Lo(Z)| == |Hi(Z)| == h
    ensures forall i :: 0 <= i < h ==> Lo(Z)[i] == Z[i] && Hi(Z)[i] == Z[h + i]
  {
  }

  /** For two satisfied instances, beta at a padding row and gamma = 1 give twice the constant part. */
  lemma PaddingRowTotal(shape: Shape, z1: seq<F>, z2: seq<F>, p: nat, s: nat)
    requires Satisfied(shape, z1) && Satisfied(shape, z2) && Pow2(s) == NextPow2(shape.numConstraints)
    requires shape.numConstraints <= p < Pow2(s)
    ensures CombinedTotal(shape, z1, z2, Corner(p, s), 1) == Add(ConstantPart(shape.terms), ConstantPart(shape.terms))
  {
    hide Satisfied, Mle, RowValue, PaddedTables, ConstantPart, CombinedTotal;
    SatisfiedShape(shape, z1);
    SatisfiedShape(shape, z2);
    CombinedSum(shape, z1, z2, Corner(p, s), 1);
    MleAtCorner(MixedRows(shape, z1, z2, 1), p, s);
    PaddedRowValue(shape, z1, p);
    PaddedRowValue(shape, z2, p);
    MulOne(1);
    MulOne(ConstantPart(shape.terms));
  }

  lemma DoubleIsZero(c: F)
    ensures Add(c, c) == 0 <==> c == 0
  {
    Representatives(c, 2);
    OfAdd(c, c);
    OfMul(2, c);
    if Add(c, c) == 0 {
      NoZeroDivisors(2, c);
    } else {
      AddZero(0);
    }
  }

  /** For two satisfied instances the combined polynomial sums to zero for every beta and gamma if and only if
      there is no padding row, or the coefficients of the terms without factors cancel. */
  lemma CombinedSumsToZero(shape: Shape, z1: seq<F>, z2: seq<F>, s: nat)
    requires Satisfied(shape, z1) && Satisfied(shape, z2) && Pow2(s) == NextPow2(shape.numConstraints)
    ensures (forall beta: seq<F>, gamma: F :: |beta| == s ==> CombinedTotal(shape, z1, z2, beta, gamma) == 0)
       <==> NextPow2(shape.numConstraints) == shape.numConstraints || ConstantPart(shape.terms) == 0
  {
    hide Satisfied, Mle, RowValue, PaddedTables, ConstantPart, CombinedTotal;
    SatisfiedShape(shape, z1);
    SatisfiedShape(shape, z2);
    var m, C := shape.numConstraints, ConstantPart(shape.terms);
    if NextPow2(m) == m || C == 0 {
      forall beta: seq<F>, gamma: F | |beta| == s
        ensures CombinedTotal(shape, z1, z2, beta, gamma) == 0
      {
        RowsAreZero(shape, z1, z2, gamma);
        CombinedSum(shape, z1, z2, beta, gamma);
        MleConstant(MixedRows(shape, z1, z2, gamma), 0, beta);
      }
    } else {
      NextPow2IsLeast(m);
      PaddingRowTotal(shape, z1, z2, m, s);
      DoubleIsZero(C);
      assert CombinedTotal(shape, z1, z2, Corner(m, s), 1) != 0;
    }
  }

  lemma RowsAreZero(shape: Shape, z1: seq<F>, z2: seq<F>, gamma: F)
    requires Satisfied(shape, z1) && Satisfied(shape, z2)
    requires NextPow2(shape.numConstraints) == shape.numConstraints || ConstantPart(shape.terms) == 0
    ensures shape.Valid() && |z1| == |z2| == shape.numIo + shape.numVars
    ensures forall y :: 0 <= y < NextPow2(shape.numConstraints) ==> MixedRows(shape, z1, z2, gamma)[y] == 0
  {
    hide Satisfied, RowValue, PaddedTables, ConstantPart, NextPow2;
    SatisfiedShape(shape, z1);
    SatisfiedShape(shape, z2);
    forall y | 0 <= y < NextPow2(shape.numConstraints)
      ensures MixedRows(shape, z1, z2, gamma)[y] == 0
    {
      PaddedRowsHold(shape, z1, y);
      PaddedRowsHold(shape, z2, y);
      MixOfZeros(gamma, Mul(gamma, gamma));
    }
  }

  /** Three constraints z[0] - 1 = 0, with the constant written as a term without factors. */
  function ThreeOnes(): Shape {
    var row := [Cell(0, 1)];
    Shape(3, 0, 1, [[row, row, row]], [Term(1, [0]), Term(Sub(0, 1), [])])
  }

  lemma ThreeOnesValue(x: nat)
    requires x < 3
    ensures ThreeOnes().Valid() && NextPow2(3) == 4
    ensures RowValue(ThreeOnes().terms, PaddedTables(ThreeOnes(), [1]), x) == 0
  {
    assert NextPow2(3) == 4;
    var shape := ThreeOnes();
    var row, Ts := shape.Ms[0][x], PaddedTables(shape, [1]);
    assert row[..0] == [] && RowDot(row, [1]) == Add(0, Mul(1, 1));
    MulOne(1);
    AddZero(1);
    assert MatVec(shape.Ms[0], [1])[x] == 1 && Ts[0][x] == 1;
    var v := Entries(Pick(Ts, [0]), x);
    assert v == [1];
    ProdOne(1);
    var terms := shape.terms;
    assert terms[..1] == [Term(1, [0])] && terms[..1][..0] == [];
    assert RowValue(terms[..1], Ts, x) == Add(0, Mul(1, Prod(v)));
    assert Entries(Pick(Ts, []), x) == [];
    MulOne(Sub(0, 1));
    AddNegated(1, 1);
    SubIsZero(1, 1);
  }

  /** The instance z = [1] satisfies them, and yet folding it with itself sums to something else than zero. */
  lemma ConstantTermsFail()
    ensures Satisfied(ThreeOnes(), [1]) && Pow2(2) == NextPow2(ThreeOnes().numConstraints)
    ensures CombinedTotal(ThreeOnes(), [1], [1], [1, 1], 1) != 0
  {
    var shape := ThreeOnes();
    forall x | 0 <= x < 3
      ensures x < NextPow2(3) && RowValue(shape.terms, PaddedTables(shape, [1]), x) == 0
    {
      ThreeOnesValue(x);
    }
    ThreeOnesValue(0);
    hide RowValue, PaddedTables, CombinedTotal, NextPow2;
    assert Pow2(0) == 1 && Pow2(1) == 2 && Pow2(2) == 4;
    LastCorner();
    PaddingRowTotal(shape, [1], [1], 3, 2);
    ThreeOnesConstant();
    DoubleIsZero(Sub(0, 1));
    SubIsZero(0, 1);
  }

  lemma LastCorner()
    ensures 3 < Pow2(2) && Corner(3, 2) == [1, 1]
  {
    assert Pow2(0) == 1 && Pow2(1) == 2 && Pow2(2) == 4;
    assert Corner(1, 1) == [1] + Corner(0, 0);
  }

  lemma ThreeOnesConstant()
    ensures ConstantPart(ThreeOnes().terms) == Sub(0, 1)
  {
    var terms := ThreeOnes().terms;
    assert terms[..1] == [Term(1, [0])] && terms[..1][..0] == [];
    AddZero(0);
    AddZero(Sub(0, 1));
  }

  lemma SatisfiedShape(shape: Shape, z: seq<F>)
    requires Satisfied(shape, z)
    ensures shape.Valid() && |z| == shape.numIo + shape.numVars
  {
  }

  // ---- The polynomial of two linearized instances ----

  /** For each matrix, eq times M z for both instances, weighted by powers of gamma. */
  ghost function Linearized(eq1: Table, eq2: Table, A: seq<Table>, B: seq<Table>, gamma: F, n: nat): (L: seq<Product>)
    requires n <= |A| == |B|
    ensures |L| == 2 * n
  {
    if n == 0 then []
    else
      Linearized(eq1, eq2, A, B, gamma, n - 1)
      + [Product(Power(gamma, n - 1), [eq1, A[n - 1]]), Product(Power(gamma, |A| + n - 1), [eq2, B[n - 1]])]
  }

  /** The verifier's claimed sum. */
  ghost function Claimed(v1: seq<F>, v2: seq<F>, gamma: F, n: nat): F
    requires n <= |v1| == |v2|
  {
    if n == 0 then 0
    else Add(Claimed(v1, v2, gamma, n - 1), Mix(Power(gamma, n - 1), v1[n - 1], Power(gamma, |v1| + n - 1), v2[n - 1]))
  }

  lemma {:induction false} ClaimedUpTo(v1: seq<F>, v2: seq<F>, gamma: F, n: nat)
    requires n <= |v1| == |v2|
    ensures Add(Claimed(v1, v2, gamma, n), Eval(v1, gamma)) == Add(Eval(v1[..n], gamma), Eval(v1 + v2[..n], gamma))
  {
    hide Eval, Add, Mul, Power;
    if n == 0 {
      assert v1 + v2[..0] == v1;
      EvalEmpty(gamma);
      assert v1[..0] == [];
    } else {
      ClaimedUpTo(v1, v2, gamma, n - 1);
      var a, b := Mul(Power(gamma, n - 1), v1[n - 1]), Mul(Power(gamma, |v1| + n - 1), v2[n - 1]);
      assert v1[..n] == v1[..n - 1] + [v1[n - 1]] && v1 + v2[..n] == (v1 + v2[..n - 1]) + [v2[n - 1]];
      EvalSnoc(v1[..n - 1], v1[n - 1], gamma);
      EvalSnoc(v1 + v2[..n - 1], v2[n - 1], gamma);
      Regroup(Claimed(v1, v2, gamma, n - 1), Eval(v1, gamma), Eval(v1[..n - 1], gamma), Eval(v1 + v2[..n - 1], gamma), a, b);
    }
  }

  lemma EvalEmpty(g: F)
    ensures Eval([], g) == 0
  {
  }

  lemma Regroup(c: F, e: F, x: F, y: F, a: F, b: F)
    requires Add(c, e) == Add(x, y)
    ensures Add(Add(c, Add(a, b)), e) == Add(Add(x, a), Add(y, b))
  {
    hide Add;
    AddAssociates(c, Add(a, b), e);
    AddCommutes(Add(a, b), e);
    AddAssociates(c, e, Add(a, b));
    AddExchanges(x, y, a, b);
  }

  /** The claimed sum is the polynomial in gamma whose coefficients are the targets of the first instance followed by those
      of the second. */
  lemma ClaimedIsPolynomial(v1: seq<F>, v2: seq<F>, gamma: F)
    requires |v1| == |v2|
    ensures Claimed(v1, v2, gamma, |v1|) == Eval(v1 + v2, gamma)
  {
    hide Eval, Add, Claimed;
    ClaimedUpTo(v1, v2, gamma, |v1|);
    assert v1[..|v1|] == v1 && v2[..|v2|] == v2;
    var c, e, w := Claimed(v1, v2, gamma, |v1|), Eval(v1, gamma), Eval(v1 + v2, gamma);
    AddThenSub(c, e);
    AddCommutes(e, w);
    AddThenSub(w, e);
  }

  /** The sum of one product over the first n points. */
  ghost function ProductTotal(p: Product, n: nat, N: nat): F
    requires Sized(p, N) && n <= N
  {
    if n == 0 then 0 else Add(ProductTotal(p, n - 1, N), ValueOf(p, n - 1, N))
  }

  lemma {:induction false} TotalOfTwoMore(L: seq<Product>, p: Product, q: Product, n: nat, N: nat)
    requires AllProductsSized(L, N) && Sized(p, N) && Sized(q, N) && n <= N
    ensures AllProductsSized(L + [p, q], N)
    ensures Total(L + [p, q], n, N) == Add(Total(L, n, N), Add(ProductTotal(p, n, N), ProductTotal(q, n, N)))
  {
    hide Sized, ValueOf, ListValue;
    SizedMore(L, p, q, N);
    if n == 0 {
      AddZero(0);
    } else {
      TotalOfTwoMore(L, p, q, n - 1, N);
      ValueOfTwoMore(L, p, q, n - 1, N);
      SixTerms(Total(L, n - 1, N), ProductTotal(p, n - 1, N), ProductTotal(q, n - 1, N),
               ListValue(L, n - 1, N), ValueOf(p, n - 1, N), ValueOf(q, n - 1, N));
    }
  }

  lemma SizedMore(L: seq<Product>, p: Product, q: Product, N: nat)
    requires AllProductsSized(L, N) && Sized(p, N) && Sized(q, N)
    ensures AllProductsSized(L + [p, q], N)
  {
  }

  lemma SixTerms(a: F, b: F, c: F, d: F, e: F, f: F)
    ensures Add(Add(a, Add(b, c)), Add(Add(d, e), f)) == Add(Add(a, d), Add(Add(b, e), Add(c, f)))
  {
    AddAssociates(d, e, f);
    AddExchanges(a, Add(b, c), d, Add(e, f));
    AddExchanges(b, c, e, f);
  }

  lemma PairValue(c: F, A: Table, B: Table, x: nat, N: nat)
    requires |A| == |B| == N && x < N
    ensures Sized(Product(c, [A, B]), N)
    ensures ValueOf(Product(c, [A, B]), x, N) == Mul(c, Mul(A[x], B[x]))
  {
    var v := Entries([A, B], x);
    assert v == [A[x], B[x]] && v[..1] == [A[x]];
    ProdOne(A[x]);
  }

  lemma {:induction false} PairTotal(c: F, A: Table, B: Table, n: nat, N: nat)
    requires |A| == |B| == N && n <= N
    ensures Sized(Product(c, [A, B]), N)
    ensures ProductTotal(Product(c, [A, B]), n, N) == Mul(c, Dot(A[..n], B[..n]))
  {
    hide ValueOf, Sized;
    PairSized(c, A, B, N);
    if n == 0 {
      MulZero(c);
    } else {
      PairTotal(c, A, B, n - 1, N);
      PairValue(c, A, B, n - 1, N);
      DotOfPrefix(A, B, n - 1);
      DistributesAdd(c, Dot(A[..n - 1], B[..n - 1]), Mul(A[n - 1], B[n - 1]));
    }
  }

  lemma PairSized(c: F, A: Table, B: Table, N: nat)
    requires |A| == |B| == N
    ensures Sized(Product(c, [A, B]), N)
  {
  }

  /** eq times a table, both bit-reversed, sums to the table's extension. */
  lemma EqPairTotal(c: F, r: seq<F>, T: Table)
    requires |T| == Pow2(|r|)
    ensures var p := Product(c, [Reversed(EqTable(r), |r|), Reversed(T, |r|)]);
            Sized(p, |T|) && ProductTotal(p, |T|, |T|) == Mul(c, Mle(T, r))
  {
    hide Reversed, EqTable, Mle, Dot, ProductTotal;
    var n := |r|;
    var A, B := Reversed(EqTable(r), n), Reversed(T, n);
    PairTotal(c, A, B, |T|, |T|);
    assert A[..|T|] == A && B[..|T|] == B;
    DotReversed(EqTable(r), T, n);
    MleIsDot(T, r);
    DotCommutes(T, EqTable(r));
  }

  /** The polynomial of two linearized instances sums to the claim that the verifier computes from their
      targets. */
  lemma {:induction false} LinearizedSumsToClaim(r1: seq<F>, r2: seq<F>, S: seq<Table>, T: seq<Table>, v1: seq<F>, v2: seq<F>,
                                                 gamma: F, s: nat, n: nat)
    requires |r1| == |r2| == s && n <= |S| == |T| == |v1| == |v2|
    requires forall j :: 0 <= j < |S| ==> |S[j]| == |T[j]| == Pow2(s)
    requires forall j :: 0 <= j < |S| ==> v1[j] == Mle(S[j], r1) && v2[j] == Mle(T[j], r2)
    ensures var L := Linearized(Reversed(EqTable(r1), s), Reversed(EqTable(r2), s), ReversedAll(S, s), ReversedAll(T, s), gamma, n);
            AllProductsSized(L, Pow2(s)) && Total(L, Pow2(s), Pow2(s)) == Claimed(v1, v2, gamma, n)
    decreases n
  {
    hide Reversed, EqTable, Mle, ProductTotal, Sized, ReversedAll, Total, AllProductsSized, Pow2, Power, Add, Mix;
    var N := Pow2(s);
    if n == 0 {
      EmptyTotal(N, N);
    } else {
      var e1, e2, A, B := Reversed(EqTable(r1), s), Reversed(EqTable(r2), s), ReversedAll(S, s), ReversedAll(T, s);
      LinearizedSumsToClaim(r1, r2, S, T, v1, v2, gamma, s, n - 1);
      LastPair(S, T, v1, v2, r1, r2, s, n - 1);
      AddPair(Linearized(e1, e2, A, B, gamma, n - 1), r1, r2, S[n - 1], T[n - 1], Power(gamma, n - 1), Power(gamma, |S| + n - 1), s);
    }
  }

  /** Adding the two products of one matrix adds its two weighted values. */
  lemma AddPair(L: seq<Product>, r1: seq<F>, r2: seq<F>, X: Table, Y: Table, g: F, h: F, s: nat)
    requires |r1| == |r2| == s && |X| == |Y| == Pow2(s) && AllProductsSized(L, Pow2(s))
    ensures var M := L + [Product(g, [Reversed(EqTable(r1), s), Reversed(X, s)]), Product(h, [Reversed(EqTable(r2), s), Reversed(Y, s)])];
            && AllProductsSized(M, Pow2(s))
            && Total(M, Pow2(s), Pow2(s)) == Add(Total(L, Pow2(s), Pow2(s)), Mix(g, Mle(X, r1), h, Mle(Y, r2)))
  {
    hide Reversed, EqTable, Mle, ProductTotal, Sized, Total, AllProductsSized;
    EqPairTotal(g, r1, X);
    EqPairTotal(h, r2, Y);
    TotalOfTwoMore(L, Product(g, [Reversed(EqTable(r1), s), Reversed(X, s)]), Product(h, [Reversed(EqTable(r2), s), Reversed(Y, s)]),
                   Pow2(s), Pow2(s));
  }

  lemma LastPair(S: seq<Table>, T: seq<Table>, v1: seq<F>, v2: seq<F>, r1: seq<F>, r2: seq<F>, s: nat, j: nat)
    requires j < |S| == |T| == |v1| == |v2| && |r1| == |r2| == s
    requires forall k :: 0 <= k < |S| ==> |S[k]| == |T[k]| == Pow2(s)
    requires forall k :: 0 <= k < |S| ==> v1[k] == Mle(S[k], r1) && v2[k] == Mle(T[k], r2)
    ensures ReversedAll(S, s)[j] == Reversed(S[j], s) && ReversedAll(T, s)[j] == Reversed(T[j], s)
    ensures v1[j] == Mle(S[j], r1) && v2[j] == Mle(T[j], r2)
  {
    hide Reversed, Mle;
  }

  lemma {:induction false} EmptyTotal(n: nat, N: nat)
    requires n <= N
    ensures AllProductsSized([], N) && Total([], n, N) == 0
  {
    if n > 0 {
      EmptyTotal(n - 1, N);
      AddZero(0);
    }
  }

  /** The polynomial built from two linearized instances and their witnesses. */
  ghost function LinearizedPolynomial(shape: Shape, U1: LinearizedInstance, U2: LinearizedInstance, W1: seq<F>, W2: seq<F>,
                                      gamma: F): seq<Product>
    requires Fitting(shape, U1.X, W1, U1.rs) && Fitting(shape, U2.X, W2, U2.rs) && |U1.rs| == |U2.rs|
  {
    var s := |U1.rs|;
    Linearized(Reversed(EqTable(U1.rs), s), Reversed(EqTable(U2.rs), s), ReversedAll(PaddedTables(shape, U1.X + W1), s),
               ReversedAll(PaddedTables(shape, U2.X + W2), s), gamma, |shape.Ms|)
  }

  /** For satisfied linearized instances it sums to the gamma-weighted targets, for every gamma. */
  lemma LinearizedClaimHolds(shape: Shape, U1: LinearizedInstance, U2: LinearizedInstance, W1: seq<F>, W2: seq<F>, gamma: F)
    requires SatisfiedLinearized(shape, U1, W1) && SatisfiedLinearized(shape, U2, W2) && |U1.rs| == |U2.rs|
    ensures var L, N := LinearizedPolynomial(shape, U1, U2, W1, W2, gamma), Pow2(|U1.rs|);
            AllProductsSized(L, N) && Total(L, N, N) == Claimed(U1.vs, U2.vs, gamma, |shape.Ms|)
  {
    hide Mle, PadPow2, MatVec, Reversed, EqTable, NextPow2, Pow2;
    LinearizedSumsToClaim(U1.rs, U2.rs, PaddedTables(shape, U1.X + W1), PaddedTables(shape, U2.X + W2), U1.vs, U2.vs, gamma,
                          |U1.rs|, |shape.Ms|);
  }

  // ---- Building the lists ----

  /** The bit-reversed extension of M z. */
  method ArkTable(m: Csr.Matrix, ghost M: Rows, z: seq<F>, ghost s: nat) returns (T: Table)
    requires Stores(m, M) && m.cols == |z| && RowsBelow(M, |z|) && |M| >= 2 && s == Log2(|M|)
    ensures |PadPow2(MatVec(M, z))| == Pow2(s)
    ensures T == Reversed(PadPow2(MatVec(M, z)), s)
  {
    hide RowDot, PadPow2, Reversed, Log2;
    var product := MultiplyVec(m, z, M);
    assert product == MatVec(M, z);
    T := VecToArkMle(product, s);
  }

  ghost predicate StoresAll(Ms: seq<Csr.Matrix>, shape: Shape) {
    |Ms| == |shape.Ms| && forall j :: 0 <= j < |Ms| ==> Stores(Ms[j], shape.Ms[j]) && Ms[j].cols == shape.numIo + shape.numVars
  }

  method PickTables(Ms: seq<Csr.Matrix>, shape: Shape, factors: seq<nat>, z: seq<F>, ghost s: nat) returns (Ts: seq<Table>)
    requires shape.Valid() && StoresAll(Ms, shape) && |z| == shape.numIo + shape.numVars
    requires shape.numConstraints >= 2 && s == Log2(shape.numConstraints)
    requires forall k :: 0 <= k < |factors| ==> factors[k] < |Ms|
    ensures NextPow2(shape.numConstraints) == Pow2(s)
    ensures Ts == Pick(ReversedAll(PaddedTables(shape, z), s), factors)
  {
    hide Reversed, PadPow2, MatVec, Log2;
    NextPow2IsLeast(shape.numConstraints);
    ghost var R := ReversedAll(PaddedTables(shape, z), s);
    Ts := [];
    for k := 0 to |factors|
      invariant |Ts| == k && forall i :: 0 <= i < k ==> Ts[i] == R[factors[i]]
    {
      var T := ArkTable(Ms[factors[k]], shape.Ms[factors[k]], z, s);
      Ts := Ts + [T];
    }
  }

  /** `construct_combined_ccs_polynomial`. */
  method ConstructCombined(Ms: seq<Csr.Matrix>, shape: Shape, z1: seq<F>, z2: seq<F>, beta: seq<F>, gamma: F)
    returns (L: seq<Product>)
    requires shape.Valid() && StoresAll(Ms, shape) && |z1| == |z2| == shape.numIo + shape.numVars
    requires shape.numConstraints >= 2 && |beta| == Log2(shape.numConstraints)
    ensures Pow2(|beta|) == NextPow2(shape.numConstraints)
    ensures L == CombinedPolynomial(shape, z1, z2, beta, gamma)
  {
    hide PaddedTables, EqTable, ReversedAll, Log2, NextPow2;
    NextPow2IsLeast(shape.numConstraints);
    ghost var s := |beta|;
    var evals := EqEvals(beta);
    EqPadded(beta, shape.numConstraints);
    var eq := VecToArkMle(evals, s);
    var terms, g2 := shape.terms, Mul(gamma, gamma);
    ghost var A, B := ReversedAll(PaddedTables(shape, z1), s), ReversedAll(PaddedTables(shape, z2), s);
    L := [];
    for i := 0 to |terms|
      invariant L == Combined(terms[..i], A, B, eq, gamma, g2)
    {
      var t := terms[i];
      var Ts := PickTables(Ms, shape, t.factors, z1, s);
      var Us := PickTables(Ms, shape, t.factors, z2, s);
      assert terms[..i + 1][..i] == terms[..i];
      L := L + [Product(Mul(t.c, gamma), Ts + [eq]), Product(Mul(t.c, g2), Us + [eq])];
    }
    assert terms[..|terms|] == terms;
  }

  lemma EqPadded(beta: seq<F>, m: nat)
    requires m >= 2 && |beta| == Log2(m)
    ensures |EqTable(beta)| >= 2 && Log2(|EqTable(beta)|) == |beta| && PadPow2(EqTable(beta)) == EqTable(beta)
  {
    NextPow2IsLeast(m);
    if |beta| > 0 {
      Pow2Monotone(0, |beta|);
    }
    Log2OfPow2(|beta|);
  }

  /** `construct_sumcheck_polynomial`. */
  method ConstructLinearized(Ms: seq<Csr.Matrix>, shape: Shape, U1: LinearizedInstance, U2: LinearizedInstance, W1: seq<F>, W2: seq<F>,
                             gamma: F)
    returns (L: seq<Product>)
    requires StoresAll(Ms, shape) && shape.numConstraints >= 2 && |U1.rs| == |U2.rs| == Log2(shape.numConstraints)
    requires Fitting(shape, U1.X, W1, U1.rs) && Fitting(shape, U2.X, W2, U2.rs)
    ensures L == LinearizedPolynomial(shape, U1, U2, W1, W2, gamma)
  {
    hide PaddedTables, EqTable, ReversedAll, Reversed, Log2, NextPow2, Pow2, Power;
    ghost var s := |U1.rs|;
    var evals1 := EqEvals(U1.rs);
    var evals2 := EqEvals(U2.rs);
    EqPadded(U1.rs, shape.numConstraints);
    EqPadded(U2.rs, shape.numConstraints);
    var eq1 := VecToArkMle(evals1, s);
    var eq2 := VecToArkMle(evals2, s);
    var z1, z2 := U1.X + W1, U2.X + W2;
    ghost var A, B := ReversedAll(PaddedTables(shape, z1), s), ReversedAll(PaddedTables(shape, z2), s);
    L := [];
    for j := 0 to |Ms|
      invariant L == Linearized(eq1, eq2, A, B, gamma, j)
    {
      var T := ArkTable(Ms[j], shape.Ms[j], z1, s);
      var U := ArkTable(Ms[j], shape.Ms[j], z2, s);
      TableOf(shape, z1, s, j);
      TableOf(shape, z2, s, j);
      L := L + [Product(Power(gamma, j), [eq1, T]), Product(Power(gamma, |Ms| + j), [eq2, U])];
    }
  }

  lemma TableOf(shape: Shape, z: seq<F>, s: nat, j: nat)
    requires shape.Valid() && |z| == shape.numIo + shape.numVars && NextPow2(shape.numConstraints) == Pow2(s) && j < |shape.Ms|
    ensures |PadPow2(MatVec(shape.Ms[j], z))| == Pow2(s)
    ensures ReversedAll(PaddedTables(shape, z), s)[j] == Reversed(PadPow2(MatVec(shape.Ms[j], z)), s)
  {
  }

  /** `claimed_sum` in `verify_folding`. */
  method ClaimedSum(v1: seq<F>, v2: seq<F>, gamma: F) returns (sum: F)
    requires |v1| == |v2|
    ensures sum == Claimed(v1, v2, gamma, |v1|)
  {
    sum := 0;
    for j := 0 to |v1|
      invariant sum == Claimed(v1, v2, gamma, j)
    {
      sum := Add(sum, Add(Mul(Power(gamma, j), v1[j]), Mul(Power(gamma, |v1| + j), v2[j])));
    }
  }
}
