/** Combining several polynomials into one (`DensePolynomial::merge`), opening many evaluations through
    one, and evaluating through the two factors of the eq table (spartan/src/dense_mlpoly.rs). */
module Merging {
  import opened Field
  import opened Vectors
  import opened Powers
  import opened Multilinear
  import opened DensePolynomial

  ghost predicate AllSized(ps: seq<Table>, n: nat) {
    forall i :: 0 <= i < |ps| ==> |ps[i]| == Pow2(n)
  }

  ghost function EvalsAt(ps: seq<Table>, r: seq<F>): (v: seq<F>)
    requires AllSized(ps, |r|)
    ensures |v| == |ps|
  {
    seq<F>(|ps|, i requires 0 <= i < |ps| => Mle(ps[i], r))
  }

  lemma FlatSized(ps: seq<Table>, n: nat, k: nat)
    requires AllSized(ps, n) && |ps| == Pow2(k)
    ensures |Flat(ps)| == Pow2(k + n)
  {
    FlatLength(ps, Pow2(n));
    Pow2Add(k, n);
  }

  lemma FlatHalves(ps: seq<Table>, n: nat, k: nat)
    requires AllSized(ps, n) && |ps| == Pow2(k + 1)
    ensures Lo(Flat(ps)) == Flat(ps[..Pow2(k)]) && Hi(Flat(ps)) == Flat(ps[Pow2(k)..])
    ensures |Flat(ps)| == 2 * Pow2(k + n)
  {
    var a, b := ps[..Pow2(k)], ps[Pow2(k)..];
    assert ps == a + b;
    FlatAppend(a, b);
    FlatSized(a, n, k);
    FlatSized(b, n, k);
  }

  /** Placing 2^k polynomials side by side adds k variables that select among them. */
  lemma {:induction false} MleFlat(ps: seq<Table>, c: seq<F>, r: seq<F>)
    requires AllSized(ps, |r|) && |ps| == Pow2(|c|)
    ensures |Flat(ps)| == Pow2(|c + r|)
    ensures Mle(Flat(ps), c + r) == Mle(EvalsAt(ps, r), c)
    decreases |c|
  {
    hide Flat, Mle, Lo, Hi;
    FlatSized(ps, |r|, |c|);
    if c == [] {
      assert c + r == r;
      FlatOne(ps);
      LastValue(EvalsAt(ps, r), c);
    } else {
      var k := |c| - 1;
      var a, b := ps[..Pow2(k)], ps[Pow2(k)..];
      FlatHalves(ps, |r|, k);
      MleFlat(a, c[1..], r);
      MleFlat(b, c[1..], r);
      assert (c + r)[1..] == c[1..] + r;
      EvalsHalves(ps, r, Pow2(k));
      MleStep(Flat(ps), c + r);
      MleStep(EvalsAt(ps, r), c);
    }
  }

  lemma EvalsHalves(ps: seq<Table>, r: seq<F>, h: nat)
    requires AllSized(ps, |r|) && |ps| == 2 * h
    ensures Lo(EvalsAt(ps, r)) == EvalsAt(ps[..h], r) && Hi(EvalsAt(ps, r)) == EvalsAt(ps[h..], r)
  {
    hide Mle;
  }

  lemma FlatOne<T>(ss: seq<seq<T>>)
    requires |ss| == 1
    ensures Flat(ss) == ss[0]
  {
    assert ss[..0] == [];
  }

  // ---- merge ----

  /** Zero-pads to the next power of two. */
  function PadPow2(v: seq<F>): (p: seq<F>)
    ensures |p| == NextPow2(|v|)
  {
    NextPow2IsLeast(|v|);
    v + Zeros(NextPow2(|v|) - |v|)
  }

  method Merge(ps: seq<Table>) returns (Z: Table)
    ensures Z == PadPow2(Flat(ps))
  {
    Z := [];
    for i := 0 to |ps|
      invariant Z == Flat(ps[..i])
    {
      FlatSnoc(ps, i);
      Z := Z + ps[i];
    }
    assert ps[..|ps|] == ps;
    Z := PadPow2(Z);
  }

  lemma ScaleOrder(a: nat, b: nat, c: nat)
    requires c >= 1
    ensures a <= b ==> a * c <= b * c
    ensures a < b ==> a * c < b * c
  {
  }

  lemma OneTimes(k: nat, n: nat)
    requires 1 <= k <= Pow2(0)
    ensures k * Pow2(n) == Pow2(n) && (n > 0 ==> Pow2(n - 1) < Pow2(n))
  {
  }

  lemma TimesPow2(k: nat, n: nat)
    requires k >= 1
    ensures Log2(k * Pow2(n)) == Log2(k) + n
    ensures NextPow2(k * Pow2(n)) == NextPow2(k) * Pow2(n)
  {
    hide Log2, NextPow2;
    var l, w := Log2(k), Pow2(n);
    NextPow2IsLeast(k);
    Pow2Add(l, n);
    ScaleOrder(k, Pow2(l), w);
    if l > 0 {
      Pow2Add(l - 1, n);
      ScaleOrder(Pow2(l - 1), k, w);
    } else {
      OneTimes(k, n);
    }
    var x := k * w;
    assert x <= Pow2(l + n) && (l + n > 0 ==> Pow2(l + n - 1) < x);
    hide Pow2;
    Log2Unique(x, l + n);
    NextPow2IsLeast(x);
  }

  lemma {:induction false} FlatZeros(m: nat, w: nat)
    ensures Flat(seq(m, _ => Zeros(w))) == Zeros(m * w)
  {
    if m > 0 {
      FlatZeros(m - 1, w);
      var ss := seq(m, _ => Zeros(w));
      assert ss[..m - 1] == seq(m - 1, _ => Zeros(w));
      assert m * w == (m - 1) * w + w;
    }
  }

  /** The list with zero polynomials added up to a power of two. */
  ghost function PadList(ps: seq<Table>, n: nat): (qs: seq<Table>)
    ensures |qs| == NextPow2(|ps|)
  {
    NextPow2IsLeast(|ps|);
    ps + seq(NextPow2(|ps|) - |ps|, _ => Zeros(Pow2(n)))
  }

  lemma MergedIsFlat(ps: seq<Table>, n: nat)
    requires ps != [] && AllSized(ps, n)
    ensures PadPow2(Flat(ps)) == Flat(PadList(ps, n))
  {
    NextPow2IsLeast(|ps|);
    var k, w := NextPow2(|ps|), Pow2(n);
    var m := k - |ps|;
    FlatLength(ps, w);
    TimesPow2(|ps|, n);
    DistributesOver(k, |ps|, w);
    hide NextPow2, Pow2;
    FlatAppend(ps, seq(m, _ => Zeros(w)));
    FlatZeros(m, w);
  }

  lemma DistributesOver(a: int, b: int, c: int)
    ensures (a - b) * c == a * c - b * c
  {
  }

  lemma EvalsPadded(ps: seq<Table>, r: seq<F>)
    requires AllSized(ps, |r|)
    ensures AllSized(PadList(ps, |r|), |r|)
    ensures EvalsAt(PadList(ps, |r|), r) == PadPow2(EvalsAt(ps, r))
  {
    hide Mle;
    MleConstant(Zeros(Pow2(|r|)), 0, r);
  }

  /** The n-to-1 reduction is exact: the merged polynomial at (c, r) is the padded list of the
      polynomials' values at r, bound by c. */
  lemma MergedAt(ps: seq<Table>, c: seq<F>, r: seq<F>)
    requires ps != [] && AllSized(ps, |r|) && |c| == Log2(|ps|)
    ensures |PadPow2(Flat(ps))| == Pow2(|c + r|)
    ensures |PadPow2(EvalsAt(ps, r))| == Pow2(|c|)
    ensures Mle(PadPow2(Flat(ps)), c + r) == Mle(PadPow2(EvalsAt(ps, r)), c)
  {
    hide Mle, Flat, PadPow2;
    NextPow2IsLeast(|ps|);
    MergedIsFlat(ps, |r|);
    EvalsPadded(ps, r);
    MleFlat(PadList(ps, |r|), c, r);
  }

  /** Binding from the bottom in reverse order gives the same value as evaluating. */
  method BindReverse(evals: Table, c: seq<F>) returns (v: F)
    requires |evals| == Pow2(|c|)
    ensures v == Mle(evals, c)
  {
    hide Mle;
    var poly := new DensePolynomial(evals);
    var i := |c|;
    assert c[..i] == c;
    while i > 0
      invariant 0 <= i <= |c| && fresh(poly) && poly.Valid() && poly.numVars == i
      invariant Mle(poly.Z, c[..i]) == Mle(evals, c)
    {
      i := i - 1;
      assert c[..i + 1] == c[..i] + [c[i]];
      MleBindLast(poly.Z, c[i], c[..i]);
      poly.BoundPolyVarBot(c[i]);
    }
    v := poly.Z[0];
    LastValue(poly.Z, c[..0]);
  }

  // ---- Evaluating through the factored eq table ----

  lemma RowBounds(j: nat, m: nat, w: nat)
    requires j < m
    ensures j * w + w == (j + 1) * w <= m * w
  {
  }

  /** Row j of the table read as rows of w entries. */
  function Row(Z: Table, w: nat, j: nat): (row: Table)
    requires (j + 1) * w <= |Z|
    ensures |row| == w
  {
    RowBounds(j, j + 1, w);
    Z[j * w..(j + 1) * w]
  }

  ghost function Rows(Z: Table, w: nat, m: nat): (rows: seq<Table>)
    requires m * w <= |Z|
    ensures |rows| == m && forall j :: 0 <= j < m ==> |rows[j]| == w
  {
    seq<Table>(m, j requires 0 <= j < m => RowBounds(j, m, w); Row(Z, w, j))
  }

  lemma {:induction false} FlatRows(Z: Table, w: nat, m: nat)
    requires m * w <= |Z|
    ensures Flat(Rows(Z, w, m)) == Z[..m * w]
  {
    if m > 0 {
      RowBounds(m - 1, m, w);
      FlatRows(Z, w, m - 1);
      assert Rows(Z, w, m)[..m - 1] == Rows(Z, w, m - 1);
    }
  }

  /** The sum over j of L[j] * Z[j * w + i]. */
  function ColumnSum(Z: Table, L: seq<F>, w: nat, i: nat): F
    requires i < w && |L| * w <= |Z|
  {
    if L == [] then 0
    else
      var j := |L| - 1;
      RowBounds(j, |L|, w);
      Add(ColumnSum(Z, L[..j], w, i), Mul(L[j], Z[j * w + i]))
  }

  /** `DensePolynomial::bound`: the rows of Z weighted by L. */
  function Bound(Z: Table, L: seq<F>, w: nat): (v: seq<F>)
    requires |L| * w <= |Z|
    ensures |v| == w
  {
    seq<F>(w, i requires 0 <= i < w => ColumnSum(Z, L, w, i))
  }

  lemma BoundSnoc(Z: Table, L: seq<F>, w: nat)
    requires L != [] && |L| * w <= |Z|
    ensures (|L| - 1) * w <= |Z|
    ensures Bound(Z, L, w) == Combine(1, Bound(Z, L[..|L| - 1], w), L[|L| - 1], Row(Z, w, |L| - 1))
  {
    hide Mul, Add, ColumnSum;
    var j := |L| - 1;
    RowBounds(j, |L|, w);
    forall i | 0 <= i < w
      ensures Bound(Z, L, w)[i] == Combine(1, Bound(Z, L[..j], w), L[j], Row(Z, w, j))[i]
    {
      ColumnSumSnoc(Z, L, w, i);
    }
  }

  lemma RowEntry(Z: Table, w: nat, j: nat, i: nat)
    requires i < w && (j + 1) * w <= |Z|
    ensures 0 <= j * w <= j * w + i < |Z| && Row(Z, w, j)[i] == Z[j * w + i]
  {
    RowBounds(j, j + 1, w);
  }

  lemma ColumnSumSnoc(Z: Table, L: seq<F>, w: nat, i: nat)
    requires L != [] && i < w && |L| * w <= |Z|
    ensures (|L| - 1) * w <= |Z|
    ensures ColumnSum(Z, L, w, i) == Mix(1, ColumnSum(Z, L[..|L| - 1], w, i), L[|L| - 1], Row(Z, w, |L| - 1)[i])
  {
    hide Mul, Add, Row;
    RowBounds(|L| - 1, |L|, w);
    RowEntry(Z, w, |L| - 1, i);
    MulOne(ColumnSum(Z, L[..|L| - 1], w, i));
  }

  ghost function DotRows(Z: Table, w: nat, m: nat, R: seq<F>): (v: seq<F>)
    requires m * w <= |Z| && |R| == w
    ensures |v| == m
  {
    seq<F>(m, j requires 0 <= j < m => Dot(Rows(Z, w, m)[j], R))
  }

  lemma {:induction false} DotBound(Z: Table, L: seq<F>, w: nat, R: seq<F>)
    requires |L| * w <= |Z| && |R| == w
    ensures Dot(Bound(Z, L, w), R) == Dot(L, DotRows(Z, w, |L|, R))
    decreases |L|
  {
    if L == [] {
      assert Bound(Z, L, w) == Zeros(w);
      DotZeros(w, R);
    } else {
      var j := |L| - 1;
      BoundSnoc(Z, L, w);
      DotBound(Z, L[..j], w, R);
      var D := DotRows(Z, w, |L|, R);
      assert D[..j] == DotRows(Z, w, j, R);
      assert D[j] == Dot(Row(Z, w, j), R);
      hide ColumnSum, Dot, DotRows, Row, Bound;
      DotCombine(1, Bound(Z, L[..j], w), L[j], Row(Z, w, j), R);
      MulOne(Dot(Bound(Z, L[..j], w), R));
      DotLast(L, D);
    }
  }

  lemma DotLast(a: seq<F>, b: seq<F>)
    requires |a| == |b| && a != []
    ensures Dot(a, b) == Add(Dot(a[..|a| - 1], b[..|a| - 1]), Mul(a[|a| - 1], b[|a| - 1]))
  {
  }

  /** For any split of the point, odd or even, the inner product of the bound rows with the right
      factor is the value of the polynomial. */
  lemma FactoredEvaluation(Z: Table, l: seq<F>, r: seq<F>)
    requires |Z| == Pow2(|l| + |r|)
    ensures Pow2(|l|) * Pow2(|r|) == |Z|
    ensures Dot(Bound(Z, EqTable(l), Pow2(|r|)), EqTable(r)) == Mle(Z, l + r)
  {
    hide Mle, Dot, EqTable, Flat, Rows, Bound, DotRows;
    var m, w := Pow2(|l|), Pow2(|r|);
    Pow2Add(|l|, |r|);
    var L, R, rows := EqTable(l), EqTable(r), Rows(Z, w, m);
    DotBound(Z, L, w, R);
    FlatRows(Z, w, m);
    assert Z[..m * w] == Z;
    MleFlat(rows, l, r);
    DotRowsAreEvals(Z, w, m, r);
    MleIsDot(EvalsAt(rows, r), l);
    DotCommutes(L, EvalsAt(rows, r));
  }

  lemma DotRowsAreEvals(Z: Table, w: nat, m: nat, r: seq<F>)
    requires w == Pow2(|r|) && m * w <= |Z|
    ensures DotRows(Z, w, m, EqTable(r)) == EvalsAt(Rows(Z, w, m), r)
  {
    hide Mle, Dot, EqTable;
    var rows := Rows(Z, w, m);
    forall j | 0 <= j < m
      ensures Dot(rows[j], EqTable(r)) == Mle(rows[j], r)
    {
      MleIsDot(rows[j], r);
    }
  }

  /** Row j is R scaled by L[j]. */
  ghost function Outer(L: seq<F>, R: seq<F>): (rows: seq<Table>)
    ensures |rows| == |L|
  {
    seq<Table>(|L|, j requires 0 <= j < |L| => Scale(L[j], R))
  }

  lemma ScaleTwice(c: F, x: F, R: seq<F>)
    ensures Scale(c, Scale(x, R)) == Scale(Mul(c, x), R)
  {
    forall i | 0 <= i < |R|
      ensures Scale(c, Scale(x, R))[i] == Scale(Mul(c, x), R)[i]
    {
      MulAssociates(c, x, R[i]);
    }
  }

  lemma ScaleAppend(c: F, a: seq<F>, b: seq<F>)
    ensures Scale(c, a + b) == Scale(c, a) + Scale(c, b)
  {
  }

  lemma {:induction false} ScaleOuter(c: F, L: seq<F>, R: seq<F>)
    ensures Scale(c, Flat(Outer(L, R))) == Flat(Outer(Scale(c, L), R))
  {
    if L != [] {
      var n := |L| - 1;
      assert Outer(L, R)[..n] == Outer(L[..n], R);
      assert Outer(Scale(c, L), R)[..n] == Outer(Scale(c, L[..n]), R);
      ScaleOuter(c, L[..n], R);
      ScaleTwice(c, L[n], R);
      ScaleAppend(c, Flat(Outer(L[..n], R)), Scale(L[n], R));
    }
  }

  /** The eq table is the outer product of its two factors. */
  lemma {:induction false} EqTableFactors(l: seq<F>, r: seq<F>)
    ensures EqTable(l + r) == Flat(Outer(EqTable(l), EqTable(r)))
    decreases |l|
  {
    hide Flat, Outer, Scale;
    if l == [] {
      assert l + r == r;
      OuterOfOne(EqTable(r));
    } else {
      var L, R := EqTable(l[1..]), EqTable(r);
      assert (l + r)[1..] == l[1..] + r;
      EqTableFactors(l[1..], r);
      ScaleOuter(Sub(1, l[0]), L, R);
      ScaleOuter(l[0], L, R);
      OuterAppend(Scale(Sub(1, l[0]), L), Scale(l[0], L), R);
    }
  }

  lemma OuterAppend(a: seq<F>, b: seq<F>, R: seq<F>)
    ensures Flat(Outer(a + b, R)) == Flat(Outer(a, R)) + Flat(Outer(b, R))
  {
    assert Outer(a + b, R) == Outer(a, R) + Outer(b, R);
    FlatAppend(Outer(a, R), Outer(b, R));
  }

  lemma OuterOfOne(R: seq<F>)
    ensures Flat(Outer([1], R)) == R
  {
    FlatOne(Outer([1], R));
    forall i | 0 <= i < |R|
      ensures Scale(1, R)[i] == R[i]
    {
      MulOne(R[i]);
    }
  }

  lemma {:induction false} SumIsDot(v: seq<F>, ones: seq<F>)
    requires |ones| == |v| && forall i :: 0 <= i < |v| ==> ones[i] == 1
    ensures Sum(v) == Dot(ones, v)
  {
    if v != [] {
      var n := |v| - 1;
      SumIsDot(v[..n], ones[..n]);
      MulOne(v[n]);
    }
  }

  lemma EqTableSumsToOne(r: seq<F>)
    ensures Sum(EqTable(r)) == 1
  {
    var ones: Table := seq(Pow2(|r|), _ => 1);
    SumIsDot(EqTable(r), ones);
    MleIsDot(ones, r);
    MleConstant(ones, 1, r);
  }
}
