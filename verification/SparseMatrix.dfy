/** Sparse matrices and sparse polynomials (spartan/src/sparse_mlpoly.rs): products with vectors,
    evaluation tables, and evaluation at a point, all measured against one bilinear form. */
module SparseMatrix {
  import opened Field
  import opened Vectors
  import opened Powers
  import opened Multilinear
  import opened DensePolynomial

  datatype Entry = Entry(row: nat, col: nat, val: F)

  type Matrix = seq<Entry>

  predicate InRange(M: Matrix, rows: nat, cols: nat) {
    forall i :: 0 <= i < |M| ==> M[i].row < rows && M[i].col < cols
  }

  /** The bilinear form: the sum over the entries of x[row] * y[col] * val
      (`evaluate_with_tables`). */
  function Form(M: Matrix, x: seq<F>, y: seq<F>): F
    requires InRange(M, |x|, |y|)
  {
    if M == [] then 0
    else
      var e := M[|M| - 1];
      Add(Form(M[..|M| - 1], x, y), Mul(Mul(x[e.row], y[e.col]), e.val))
  }

  /** Matrix times vector. */
  function Times(M: Matrix, rows: nat, z: seq<F>): (v: seq<F>)
    requires InRange(M, rows, |z|)
    ensures |v| == rows
  {
    if M == [] then Zeros(rows)
    else
      var e, v := M[|M| - 1], Times(M[..|M| - 1], rows, z);
      v[e.row := Add(v[e.row], Mul(e.val, z[e.col]))]
  }

  /** Vector times matrix. */
  function EvalTable(M: Matrix, x: seq<F>, cols: nat): (v: seq<F>)
    requires InRange(M, |x|, cols)
    ensures |v| == cols
  {
    if M == [] then Zeros(cols)
    else
      var e, v := M[|M| - 1], EvalTable(M[..|M| - 1], x, cols);
      v[e.col := Add(v[e.col], Mul(x[e.row], e.val))]
  }

  /** `SparseMatPolynomial::multiply_vec`. */
  method MultiplyVec(M: Matrix, rows: nat, z: seq<F>) returns (v: seq<F>)
    requires InRange(M, rows, |z|)
    ensures v == Times(M, rows, z)
  {
    v := Zeros(rows);
    for i := 0 to |M|
      invariant v == Times(M[..i], rows, z)
    {
      assert M[..i + 1][..i] == M[..i];
      v := v[M[i].row := Add(v[M[i].row], Mul(M[i].val, z[M[i].col]))];
    }
    assert M[..|M|] == M;
  }

  /** `SparseMatPolynomial::compute_eval_table_sparse`. */
  method ComputeEvalTable(M: Matrix, x: seq<F>, cols: nat) returns (v: seq<F>)
    requires InRange(M, |x|, cols)
    ensures v == EvalTable(M, x, cols)
  {
    v := Zeros(cols);
    for i := 0 to |M|
      invariant v == EvalTable(M[..i], x, cols)
    {
      assert M[..i + 1][..i] == M[..i];
      v := v[M[i].col := Add(v[M[i].col], Mul(x[M[i].row], M[i].val))];
    }
    assert M[..|M|] == M;
  }

  lemma RearrangeTimes(v: F, z: F, x: F)
    ensures Mul(Mul(v, z), x) == Mul(Mul(x, z), v)
  {
    MulCommutes(Mul(v, z), x);
    MulCommutes(v, z);
    MulAssociates(x, z, v);
  }

  lemma RearrangeTable(x: F, v: F, y: F)
    ensures Mul(Mul(x, v), y) == Mul(Mul(x, y), v)
  {
    MulAssociates(x, v, y);
    MulCommutes(v, y);
    MulAssociates(x, y, v);
  }

  lemma {:induction false} DotTimes(M: Matrix, rows: nat, z: seq<F>, x: seq<F>)
    requires InRange(M, rows, |z|) && |x| == rows
    ensures Dot(Times(M, rows, z), x) == Form(M, x, z)
  {
    if M == [] {
      DotZeros(rows, x);
    } else {
      var m := |M| - 1;
      var e := M[m];
      DotTimes(M[..m], rows, z, x);
      DotUpdate(Times(M[..m], rows, z), e.row, Mul(e.val, z[e.col]), x);
      RearrangeTimes(e.val, z[e.col], x[e.row]);
    }
  }

  lemma {:induction false} DotEvalTable(M: Matrix, x: seq<F>, cols: nat, y: seq<F>)
    requires InRange(M, |x|, cols) && |y| == cols
    ensures Dot(EvalTable(M, x, cols), y) == Form(M, x, y)
  {
    if M == [] {
      DotZeros(cols, y);
    } else {
      var m := |M| - 1;
      var e := M[m];
      DotEvalTable(M[..m], x, cols, y);
      DotUpdate(EvalTable(M[..m], x, cols), e.col, Mul(x[e.row], e.val), y);
      RearrangeTable(x[e.row], e.val, y[e.col]);
    }
  }

  /** The matrix polynomial at (rx, ry), as `multi_evaluate` computes it. */
  function EvaluateAt(M: Matrix, rx: seq<F>, ry: seq<F>): F
    requires InRange(M, Pow2(|rx|), Pow2(|ry|))
  {
    Form(M, EqTable(rx), EqTable(ry))
  }

  method Evaluate(M: Matrix, rx: seq<F>, ry: seq<F>) returns (v: F)
    requires InRange(M, Pow2(|rx|), Pow2(|ry|))
    ensures v == EvaluateAt(M, rx, ry)
  {
    var x := EqEvals(rx);
    var y := EqEvals(ry);
    v := 0;
    for i := 0 to |M|
      invariant v == Form(M[..i], x, y)
    {
      assert M[..i + 1][..i] == M[..i];
      v := Add(v, Mul(Mul(x[M[i].row], y[M[i].col]), M[i].val));
    }
    assert M[..|M|] == M;
  }

  /** The extension of the evaluation table of rx, at ry, is the matrix polynomial at (rx, ry). */
  lemma EvalTableAt(M: Matrix, rx: seq<F>, ry: seq<F>)
    requires InRange(M, Pow2(|rx|), Pow2(|ry|))
    ensures Mle(EvalTable(M, EqTable(rx), Pow2(|ry|)), ry) == EvaluateAt(M, rx, ry)
  {
    MleIsDot(EvalTable(M, EqTable(rx), Pow2(|ry|)), ry);
    DotEvalTable(M, EqTable(rx), Pow2(|ry|), EqTable(ry));
  }

  /** The extension of Mz at rx is the inner product of z with the evaluation table of rx. */
  lemma TimesAt(M: Matrix, rx: seq<F>, z: seq<F>)
    requires InRange(M, Pow2(|rx|), |z|)
    ensures Mle(Times(M, Pow2(|rx|), z), rx) == Dot(EvalTable(M, EqTable(rx), |z|), z)
  {
    MleIsDot(Times(M, Pow2(|rx|), z), rx);
    DotTimes(M, Pow2(|rx|), z, EqTable(rx));
    DotEvalTable(M, EqTable(rx), |z|, z);
  }

  /** Entries of z outside the matrix columns do not matter. */
  lemma {:induction false} TimesOfPadded(M: Matrix, rows: nat, z: seq<F>, z': seq<F>)
    requires InRange(M, rows, |z|) && z <= z'
    ensures Times(M, rows, z') == Times(M, rows, z)
  {
    if M != [] {
      TimesOfPadded(M[..|M| - 1], rows, z, z');
    }
  }

  // ---- Bits and sparse polynomials ----

  /** `usize::get_bits`: the low n bits of k, highest first. */
  function GetBits(k: nat, n: nat): (b: seq<bool>)
    ensures |b| == n
  {
    seq(n, j requires 0 <= j < n => (k / Pow2(n - j - 1)) % 2 == 1)
  }

  /** `SparsePolynomial::compute_chi`. */
  function Chi(b: seq<bool>, r: seq<F>): F
    requires |b| == |r|
  {
    if r == [] then 1
    else
      var m := |r| - 1;
      Mul(Chi(b[..m], r[..m]), if b[m] then r[m] else Sub(1, r[m]))
  }

  method ComputeChi(b: seq<bool>, r: seq<F>) returns (chi: F)
    requires |b| == |r|
    ensures chi == Chi(b, r)
  {
    chi := 1;
    for j := 0 to |r|
      invariant chi == Chi(b[..j], r[..j])
    {
      assert b[..j + 1][..j] == b[..j] && r[..j + 1][..j] == r[..j];
      if b[j] {
        chi := Mul(chi, r[j]);
      } else {
        chi := Mul(chi, Sub(1, r[j]));
      }
    }
    assert b[..|r|] == b && r[..|r|] == r;
  }

  lemma HalveQuotient(k: nat, p: nat)
    requires p >= 1
    ensures k / (2 * p) == (k / 2) / p
  {
    var q, s := (k / 2) / p, (k / 2) % p;
    assert k / 2 == p * q + s;
    assert k == 2 * p * q + (2 * s + k % 2);
    DivUnique(k, 2 * p, q, 2 * s + k % 2);
  }

  lemma ZeroFactor(q: int, d: int)
    requires d > 0 && q * d == 0
    ensures q == 0
  {
    if q > 0 {
      AtLeastOneMultiple(d, q);
    } else if q < 0 {
      AtLeastOneMultiple(d, -q);
    }
  }

  lemma DivUnique(k: nat, d: nat, q: nat, s: nat)
    requires d >= 1 && s < d && k == d * q + s
    ensures k / d == q
  {
    assert s - k % d == (k / d - q) * d;
    SmallMultiple(d, k / d - q, s - k % d);
    ZeroFactor(k / d - q, d);
  }

  lemma BitsSnoc(k: nat, n: nat)
    ensures GetBits(k, n + 1)[..n] == GetBits(k / 2, n)
    ensures GetBits(k, n + 1)[n] == (k % 2 == 1)
  {
    forall j | 0 <= j < n
      ensures GetBits(k, n + 1)[j] == GetBits(k / 2, n)[j]
    {
      assert Pow2(n - j) == 2 * Pow2(n - j - 1);
      HalveQuotient(k, Pow2(n - j - 1));
    }
    assert Pow2(0) == 1;
  }

  /** The product over the bits of an index is that entry of the eq table. */
  lemma {:induction false} ChiIsEqTable(k: nat, r: seq<F>)
    requires k < Pow2(|r|)
    ensures Chi(GetBits(k, |r|), r) == EqTable(r)[k]
  {
    hide EqTable, GetBits, Chi;
    if r == [] {
      EqTableEmpty();
      ChiEmpty(GetBits(k, 0));
    } else {
      var m, h := |r| - 1, k / 2;
      var b, bit := GetBits(h, m), k % 2 == 1;
      assert k == if bit then 2 * h + 1 else 2 * h;
      BitsSnoc(k, m);
      assert GetBits(k, |r|) == b + [bit] && r == r[..m] + [r[m]];
      ChiIsEqTable(h, r[..m]);
      ChiStep(b, bit, r[..m], r[m], h);
    }
  }

  lemma ChiEmpty(b: seq<bool>)
    requires b == []
    ensures Chi(b, []) == 1
  {
  }

  lemma ChiStep(b: seq<bool>, bit: bool, s: seq<F>, t: F, h: nat)
    requires |b| == |s| && h < Pow2(|s|) && Chi(b, s) == EqTable(s)[h]
    ensures var k := if bit then 2 * h + 1 else 2 * h;
            k < Pow2(|s| + 1) && Chi(b + [bit], s + [t]) == EqTable(s + [t])[k]
  {
    hide EqTable, Pow2;
    EqTableSnoc(s, t, h);
    assert (b + [bit])[..|s|] == b && (s + [t])[..|s|] == s;
  }

  datatype PolyEntry = PolyEntry(idx: nat, val: F)

  /** `SparsePolynomial::evaluate`. */
  function EvaluateSparse(Z: seq<PolyEntry>, r: seq<F>): F {
    if Z == [] then 0
    else
      var e := Z[|Z| - 1];
      Add(EvaluateSparse(Z[..|Z| - 1], r), Mul(Chi(GetBits(e.idx, |r|), r), e.val))
  }

  /** The entries (0, v[0]), (1, v[1]), ... */
  function EntriesOf(v: seq<F>): (Z: seq<PolyEntry>)
    ensures |Z| == |v|
  {
    seq(|v|, i requires 0 <= i < |v| => PolyEntry(i, v[i]))
  }

  lemma {:induction false} SparseIsDot(v: seq<F>, r: seq<F>, m: nat)
    requires m <= |v| <= Pow2(|r|)
    ensures EvaluateSparse(EntriesOf(v)[..m], r) == Dot(v[..m], EqTable(r)[..m])
  {
    hide Mul, Add, EqTable, Chi;
    if m > 0 {
      SparseIsDot(v, r, m - 1);
      var Z, E := EntriesOf(v), EqTable(r);
      assert Z[..m][..m - 1] == Z[..m - 1] && v[..m][..m - 1] == v[..m - 1] && E[..m][..m - 1] == E[..m - 1];
      ChiIsEqTable(m - 1, r);
      MulCommutes(E[m - 1], v[m - 1]);
    }
  }

  lemma DotPadded(v: seq<F>, k: nat, E: seq<F>)
    requires |E| == |v| + k
    ensures Dot(v + Zeros(k), E) == Dot(v, E[..|v|])
  {
    assert E == E[..|v|] + E[|v|..];
    DotAppend(v, Zeros(k), E[..|v|], E[|v|..]);
    DotZeros(k, E[|v|..]);
    AddZero(Dot(v, E[..|v|]));
  }

  /** A sparse polynomial evaluates like the zero-padded dense table of its entries. */
  lemma SparseEvaluation(v: seq<F>, r: seq<F>)
    requires |v| <= Pow2(|r|)
    ensures EvaluateSparse(EntriesOf(v), r) == Mle(v + Zeros(Pow2(|r|) - |v|), r)
  {
    hide EqTable, Mle, Dot, EvaluateSparse;
    SparseIsDot(v, r, |v|);
    assert EntriesOf(v)[..|v|] == EntriesOf(v) && v[..|v|] == v;
    MleIsDot(v + Zeros(Pow2(|r|) - |v|), r);
    DotPadded(v, Pow2(|r|) - |v|, EqTable(r));
  }
}
