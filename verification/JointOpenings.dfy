/** Opening many evaluations through one (`verify_single` and the two inlined copies of it in
    spartan/src/sparse_mlpoly.rs), read backwards: if the one value opened is true of the merged polynomial, then
    every value in the list is - unless the combining challenges hide the difference. */
module JointOpenings {
  import opened Field
  import opened Vectors
  import opened Powers
  import opened Multilinear
  import opened Merging
  import opened UniPoly
  import opened UnluckyPoints

  /** A - B, entry by entry. */
  ghost function Difference(A: Table, B: Table): (D: Table)
    requires |A| == |B|
    ensures |D| == |A|
  {
    Combine(1, A, Sub(0, 1), B)
  }

  lemma DifferenceIsZero(A: Table, B: Table)
    requires |A| == |B|
    ensures IsZero(Difference(A, B)) <==> A == B
  {
    forall i | 0 <= i < |A|
      ensures Difference(A, B)[i] == 0 <==> A[i] == B[i]
    {
      MixMinus(A[i], B[i]);
      SubIsZero(A[i], B[i]);
    }
  }

  /** Two tables that agree at a point are equal, or the point is a root of their difference. */
  lemma EqualOrUnlucky(A: Table, B: Table, c: seq<F>)
    requires |A| == |B| == Pow2(|c|) && Mle(A, c) == Mle(B, c)
    ensures A == B || UnluckyPoint(Difference(A, B), c)
  {
    hide Mle, Combine;
    DifferenceIsZero(A, B);
    MleCombine(1, A, Sub(0, 1), B, c);
    MixMinus(Mle(A, c), Mle(B, c));
    SubIsZero(Mle(A, c), Mle(B, c));
  }

  /** The joint value of the list, combined by c, is the value of Z at (c, r). */
  ghost predicate OpenedTruly(Z: Table, evals: seq<F>, c: seq<F>, r: seq<F>) {
    && |Z| == Pow2(|c + r|) && |PadPow2(evals)| == Pow2(|c|)
    && Mle(Z, c + r) == Mle(PadPow2(evals), c)
  }

  /** The list is not that of the polynomials' values, but the combining challenges hide it. */
  ghost predicate UnluckyJoint(ps: seq<Table>, evals: seq<F>, c: seq<F>, r: seq<F>) {
    && AllSized(ps, |r|) && |PadPow2(evals)| == |PadPow2(EvalsAt(ps, r))|
    && UnluckyPoint(Difference(PadPow2(evals), PadPow2(EvalsAt(ps, r))), c)
  }

  lemma JointSize(ps: seq<Table>, c: seq<F>, r: seq<F>)
    requires ps != [] && AllSized(ps, |r|) && |PadPow2(Flat(ps))| == Pow2(|c + r|)
    ensures |c| == Log2(|ps|)
  {
    hide Mle, Flat, PadPow2, Log2;
    var z := Zeros(Log2(|ps|));
    MergedAt(ps, z, r);
    Pow2Injective(|c + r|, |z + r|);
  }

  /** Soundness of the n-to-1 reduction, for any list that the prover sent. */
  lemma JointSoundness(ps: seq<Table>, evals: seq<F>, c: seq<F>, r: seq<F>)
    requires ps != [] && AllSized(ps, |r|) && OpenedTruly(PadPow2(Flat(ps)), evals, c, r)
    ensures PadPow2(evals) == PadPow2(EvalsAt(ps, r)) || UnluckyJoint(ps, evals, c, r)
  {
    hide Mle, Flat, PadPow2, Log2, UnluckyPoint;
    JointSize(ps, c, r);
    MergedAt(ps, c, r);
    EqualOrUnlucky(PadPow2(evals), PadPow2(EvalsAt(ps, r)), c);
  }

  /** And its converse: a list of true values has a true joint value. */
  lemma TrueListOpensTruly(ps: seq<Table>, c: seq<F>, r: seq<F>)
    requires ps != [] && AllSized(ps, |r|) && |c| == Log2(|ps|)
    ensures OpenedTruly(PadPow2(Flat(ps)), EvalsAt(ps, r), c, r)
  {
    hide Mle, Flat, PadPow2, Log2;
    MergedAt(ps, c, r);
  }

  /** Equal after padding means equal as far as both lists go. */
  lemma PaddedPrefix(a: seq<F>, b: seq<F>, m: nat)
    requires PadPow2(a) == PadPow2(b) && m <= |a| && m <= |b|
    ensures a[..m] == b[..m]
  {
    assert a[..m] == PadPow2(a)[..m] && b[..m] == PadPow2(b)[..m];
  }
}
