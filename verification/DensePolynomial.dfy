/** Dense multilinear polynomials and the equality polynomial as the source computes them
    (spartan/src/dense_mlpoly.rs). */
module DensePolynomial {
  import opened Field
  import opened Vectors
  import opened Powers
  import opened Multilinear

  // ---- EqPolynomial::evals ----

  lemma TimesComplement(s: F, t: F)
    ensures Sub(s, Mul(s, t)) == Mul(s, Sub(1, t))
  {
    DistributesSub(s, 1, t);
    MulOne(s);
  }

  /** The top bit of the index chooses the factor of the first coordinate. */
  lemma EqTableEntry(r: seq<F>, p: nat, top: bool)
    requires r != [] && p < Pow2(|r| - 1)
    ensures var q := if top then p + Pow2(|r| - 1) else p;
            q < Pow2(|r|) && EqTable(r)[q] == Mul(if top then r[0] else Sub(1, r[0]), EqTable(r[1..])[p])
  {
    EqTableSplit(r);
    hide EqTable, Pow2, Scale, Mul, Sub;
    var E := EqTable(r[1..]);
    ScaledEntry(Sub(1, r[0]), E, p);
    ScaledEntry(r[0], E, p);
    JoinedEntry(Scale(Sub(1, r[0]), E), Scale(r[0], E), p);
  }

  lemma ScaledEntry(c: F, E: Table, p: nat)
    requires p < |E|
    ensures |Scale(c, E)| == |E| && Scale(c, E)[p] == Mul(c, E[p])
  {
  }

  lemma JoinedEntry(low: Table, high: Table, p: nat)
    requires p < |low| == |high|
    ensures (low + high)[p] == low[p] && (low + high)[|low| + p] == high[p]
  {
  }

  lemma EqTableSplit(r: seq<F>)
    requires r != []
    ensures Pow2(|r|) == 2 * Pow2(|r| - 1)
    ensures EqTable(r) == Scale(Sub(1, r[0]), EqTable(r[1..])) + Scale(r[0], EqTable(r[1..]))
  {
    hide Scale, Mul, Sub;
  }

  lemma EqTableEmpty()
    ensures EqTable([]) == [1]
  {
  }

  /** Appending a coordinate splits every entry in two, the new coordinate being the lowest bit. */
  lemma {:induction false} EqTableSnoc(r: seq<F>, t: F, q: nat)
    requires q < Pow2(|r|)
    ensures 2 * q + 1 < Pow2(|r| + 1)
    ensures EqTable(r + [t])[2 * q] == Mul(EqTable(r)[q], Sub(1, t))
    ensures EqTable(r + [t])[2 * q + 1] == Mul(EqTable(r)[q], t)
    decreases |r|
  {
    hide EqTable;
    var s := r + [t];
    if r == [] {
      assert s[1..] == [];
      EqTableEmpty();
      EqTableEntry(s, 0, false);
      EqTableEntry(s, 0, true);
      MulCommutes(Sub(1, t), 1);
      MulCommutes(t, 1);
    } else {
      var h := Pow2(|r| - 1);
      var top := q >= h;
      var p := if top then q - h else q;
      var c := if top then r[0] else Sub(1, r[0]);
      assert s[1..] == r[1..] + [t] && Pow2(|s| - 1) == 2 * h;
      EqTableSnoc(r[1..], t, p);
      EqTableEntry(r, p, top);
      EqTableEntry(s, 2 * p, top);
      EqTableEntry(s, 2 * p + 1, top);
      MulAssociates(c, EqTable(r[1..])[p], Sub(1, t));
      MulAssociates(c, EqTable(r[1..])[p], t);
    }
  }

  /** One doubling, run backwards in place so that no entry is overwritten before it is read. */
  method DoubleInPlace(before: Table, size: nat, t: F) returns (evals: Table)
    requires 2 * size <= |before|
    ensures |evals| == |before|
    ensures forall q :: 0 <= q < size ==>
              evals[2 * q] == Sub(before[q], Mul(before[q], t)) && evals[2 * q + 1] == Mul(before[q], t)
  {
    hide Mul, Sub;
    evals := before;
    var i := 2 * size - 1;
    ghost var p := size;
    while i > 0
      invariant 0 <= p <= size && i == 2 * p - 1
      invariant |evals| == |before|
      invariant forall k :: 0 <= k <= i ==> evals[k] == before[k]
      invariant forall q :: p <= q < size ==>
                  evals[2 * q] == Sub(before[q], Mul(before[q], t)) && evals[2 * q + 1] == Mul(before[q], t)
    {
      p := p - 1;
      assert i / 2 == p;
      var scalar := evals[i / 2];
      evals := evals[i := Mul(scalar, t)];
      evals := evals[i - 1 := Sub(scalar, evals[i])];
      i := i - 2;
    }
  }

  /** `EqPolynomial::evals` computes the table of eq(r, .). */
  method EqEvals(r: seq<F>) returns (evals: Table)
    ensures evals == EqTable(r)
  {
    evals := seq(Pow2(|r|), _ => 1);
    var size := 1;
    for j := 0 to |r|
      invariant |evals| == Pow2(|r|)
      invariant size == Pow2(j) <= |evals|
      invariant evals[..size] == EqTable(r[..j])
    {
      SmallerPower(j, |r|);
      var next := DoubleInPlace(evals, size, r[j]);
      DoublingExtends(evals, next, size, r, j);
      evals := next;
      size := 2 * size;
    }
    assert r[..|r|] == r && evals[..size] == evals;
  }

  lemma SmallerPower(j: nat, n: nat)
    requires j < n
    ensures 2 * Pow2(j) <= Pow2(n)
  {
    Pow2Monotone(j, n);
  }

  lemma DoublingExtends(before: Table, after: Table, size: nat, r: seq<F>, j: nat)
    requires j < |r| && size == Pow2(j) && 2 * size <= |before| == |after|
    requires before[..size] == EqTable(r[..j])
    requires forall q :: 0 <= q < size ==>
               after[2 * q] == Sub(before[q], Mul(before[q], r[j])) && after[2 * q + 1] == Mul(before[q], r[j])
    ensures after[..2 * size] == EqTable(r[..j + 1])
  {
    hide EqTable;
    var s, E := r[..j], EqTable(r[..j + 1]);
    assert r[..j + 1] == s + [r[j]];
    assert |E| == 2 * size;
    hide Pow2;
    forall k | 0 <= k < 2 * size
      ensures after[k] == E[k]
    {
      var q := k / 2;
      assert before[q] == EqTable(s)[q];
      EqTableSnoc(s, r[j], q);
      TimesComplement(before[q], r[j]);
      assert k == 2 * q || k == 2 * q + 1;
    }
  }

  /** The inner product loop of `DotProductProofLog::compute_dotproduct`. */
  method DotProduct(a: seq<F>, b: seq<F>) returns (v: F)
    requires |a| == |b|
    ensures v == Dot(a, b)
  {
    v := 0;
    for i := 0 to |a|
      invariant v == Dot(a[..i], b[..i])
    {
      assert a[..i + 1][..i] == a[..i] && b[..i + 1][..i] == b[..i];
      v := Add(v, Mul(a[i], b[i]));
    }
    assert a[..|a|] == a && b[..|b|] == b;
  }

  // ---- DensePolynomial ----

  lemma BindEntry(Z: Table, t: F, i: nat, n: nat)
    requires |Z| == 2 * n && i < n
    ensures |Bind(Z, t)| == n && Bind(Z, t)[i] == Add(Z[i], Mul(t, Sub(Z[i + n], Z[i])))
  {
  }

  lemma BindLastEntry(Z: Table, t: F, i: nat, n: nat)
    requires |Z| == 2 * n && i < n
    ensures |BindLast(Z, t)| == n && BindLast(Z, t)[i] == Add(Z[2 * i], Mul(t, Sub(Z[2 * i + 1], Z[2 * i])))
  {
  }

  /** The loop of `bound_poly_var_top`: the lower half is overwritten, the upper half is only read. */
  method BindTop(before: Table, t: F, n: nat) returns (Z: Table)
    requires |before| == 2 * n
    ensures |Z| == 2 * n && Z[..n] == Bind(before, t)
  {
    assert |Bind(before, t)| == n;
    hide Bind;
    ghost var bound := Bind(before, t);
    Z := before;
    for i := 0 to n
      invariant |Z| == 2 * n
      invariant forall k :: 0 <= k < i ==> Z[k] == bound[k]
      invariant forall k :: i <= k < 2 * n ==> Z[k] == before[k]
    {
      BindEntry(before, t, i, n);
      var low, high := Z[i], Z[i + n];
      Z := Z[i := Add(low, Mul(t, Sub(high, low)))];
    }
  }

  /** The loop of `bound_poly_var_bot`: entry i is overwritten when nothing reads it any more. */
  method BindBottom(before: Table, t: F, n: nat) returns (Z: Table)
    requires |before| == 2 * n
    ensures |Z| == 2 * n && Z[..n] == BindLast(before, t)
  {
    hide BindLast;
    ghost var bound := BindLast(before, t);
    Z := before;
    for i := 0 to n
      invariant |Z| == 2 * n
      invariant forall k :: 0 <= k < i ==> k < |bound| && Z[k] == bound[k]
      invariant forall k :: i <= k < 2 * n ==> Z[k] == before[k]
    {
      BindLastEntry(before, t, i, n);
      var low, high := Z[2 * i], Z[2 * i + 1];
      Z := Z[i := Add(low, Mul(t, Sub(high, low)))];
    }
    BindLastSize(before, t, n);
  }

  class DensePolynomial {
    var numVars: nat
    var len: nat
    var Z: Table

    ghost predicate Valid()
      reads this
    {
      len == |Z| == Pow2(numVars)
    }

    constructor (Z: Table)
      requires |Z| >= 1
      ensures this.Z == Z && len == |Z| && numVars == Log2(|Z|)
      ensures forall n: nat :: |Z| == Pow2(n) ==> Valid() && numVars == n
    {
      this.Z := Z;
      len := |Z|;
      numVars := Log2(|Z|);
      new;
      forall n: nat | |Z| == Pow2(n)
        ensures numVars == n
      {
        Log2OfPow2(n);
      }
    }

    /** Fixes the first variable, overwriting the lower half and dropping the upper one. */
    method BoundPolyVarTop(t: F)
      requires Valid() && numVars > 0
      modifies this
      ensures Valid() && numVars == old(numVars) - 1
      ensures Z == Bind(old(Z), t)
    {
      hide Bind;
      var n := len / 2;
      Z := BindTop(Z, t, n);
      Z := Z[..n];
      numVars := numVars - 1;
      len := n;
    }

    /** Fixes the last variable; entry i is written after entries 2i and 2i+1 are read. */
    method BoundPolyVarBot(t: F)
      requires Valid() && numVars > 0
      modifies this
      ensures Valid() && numVars == old(numVars) - 1
      ensures Z == BindLast(old(Z), t)
    {
      hide BindLast;
      var n := len / 2;
      Z := BindBottom(Z, t, n);
      Z := Z[..n];
      numVars := numVars - 1;
      len := n;
    }

    /** The value at r, as an inner product with the eq table. */
    method Evaluate(r: seq<F>) returns (v: F)
      requires Valid() && |r| == numVars
      ensures v == Mle(Z, r)
    {
      var chis := EqEvals(r);
      v := DotProduct(Z, chis);
      MleIsDot(Z, r);
    }
  }
}
