/** Folding of customizable constraint systems (nova/src/ccs/linearization.rs, ccs_fold.rs, lccs_fold.rs
    and mod.rs). */
module CcsFolding {
  import opened Wrappers
  import opened Field
  import opened Vectors
  import opened Powers
  import opened Multilinear
  import opened UniPoly
  import opened Transcript
  import opened DensePolynomial
  import opened Merging
  import opened BitReversal
  import opened Csr

  /** c times the product of the named matrices' rows. */
  datatype Term = Term(c: F, factors: seq<nat>)

  datatype Shape = Shape(numConstraints: nat, numVars: nat, numIo: nat, Ms: seq<Rows>, terms: seq<Term>)
  {
    ghost predicate Valid() {
      && (forall j :: 0 <= j < |Ms| ==> |Ms[j]| == numConstraints && RowsBelow(Ms[j], numIo + numVars))
      && (forall t :: 0 <= t < |terms| ==> forall k :: 0 <= k < |terms[t].factors| ==> terms[t].factors[k] < |Ms|)
    }
  }

  datatype Instance = Instance(comm: F, X: seq<F>)

  datatype LinearizedInstance = LinearizedInstance(comm: F, X: seq<F>, rs: seq<F>, vs: seq<F>)

  // ---- Commitments ----

  /** A commitment into a group of prime order, whose elements are written as multiples of a generator. */
  datatype Committer = Committer(commit: seq<F> -> F)

  ghost predicate IsLinear(c: Committer) {
    forall a: seq<F>, b: seq<F>, x: F, y: F {:trigger c.commit(Combine(x, a, y, b))} ::
      |a| == |b| ==> c.commit(Combine(x, a, y, b)) == Mix(x, c.commit(a), y, c.commit(b))
  }

  lemma ZeroIsLinear()
    ensures IsLinear(Committer(_ => 0))
  {
    forall x: F, y: F
      ensures Mix(x, 0, y, 0) == 0
    {
      MixOfZeros(x, y);
    }
  }

  type LinearCommitter = c: Committer | IsLinear(c) witness (ZeroIsLinear(); Committer(_ => 0))

  /** Any linear commitment. */
  const LINEAR: LinearCommitter

  lemma MixOfZeros(x: F, y: F)
    ensures Mix(x, 0, y, 0) == 0
  {
    MulZero(x);
    MulZero(y);
    AddZero(0);
  }

  // ---- Matrix-vector products and their extensions ----

  /** M z, as `multiply_vec` computes it. */
  function MatVec(M: Rows, z: seq<F>): (v: seq<F>)
    requires RowsBelow(M, |z|)
    ensures |v| == |M|
  {
    seq<F>(|M|, i requires 0 <= i < |M| => RowDot(M[i], z))
  }

  lemma RowDotCombine(row: seq<Cell>, x: F, a: seq<F>, y: F, b: seq<F>)
    requires |a| == |b| && ColumnsBelow(row, |a|)
    ensures RowDot(row, Combine(x, a, y, b)) == Mix(x, RowDot(row, a), y, RowDot(row, b))
  {
    hide RowDot, Dot;
    var c, d := Combine(x, a, y, b), DenseRow(row, |a|);
    RowDotIsDense(row, c);
    RowDotIsDense(row, a);
    RowDotIsDense(row, b);
    DotCommutes(d, c);
    DotCombine(x, a, y, b, d);
    DotCommutes(a, d);
    DotCommutes(b, d);
  }

  lemma MatVecCombine(M: Rows, x: F, a: seq<F>, y: F, b: seq<F>)
    requires |a| == |b| && RowsBelow(M, |a|)
    ensures MatVec(M, Combine(x, a, y, b)) == Combine(x, MatVec(M, a), y, MatVec(M, b))
  {
    hide RowDot;
    forall i | 0 <= i < |M|
      ensures MatVec(M, Combine(x, a, y, b))[i] == Combine(x, MatVec(M, a), y, MatVec(M, b))[i]
    {
      RowDotCombine(M[i], x, a, y, b);
    }
  }

  lemma PadCombine(x: F, a: seq<F>, y: F, b: seq<F>)
    requires |a| == |b|
    ensures PadPow2(Combine(x, a, y, b)) == Combine(x, PadPow2(a), y, PadPow2(b))
  {
    MixOfZeros(x, y);
  }

  /** The value of M z at r (`compute_theta_values`, `compute_sigmas`). */
  ghost function Theta(M: Rows, z: seq<F>, r: seq<F>): F
    requires RowsBelow(M, |z|) && NextPow2(|M|) == Pow2(|r|)
  {
    Mle(PadPow2(MatVec(M, z)), r)
  }

  /** The value is linear in z. */
  lemma ThetaCombine(M: Rows, x: F, a: seq<F>, y: F, b: seq<F>, r: seq<F>)
    requires |a| == |b| && RowsBelow(M, |a|) && NextPow2(|M|) == Pow2(|r|)
    ensures Theta(M, Combine(x, a, y, b), r) == Mix(x, Theta(M, a, r), y, Theta(M, b, r))
  {
    hide Mle, PadPow2, MatVec, NextPow2;
    MatVecCombine(M, x, a, y, b);
    PadCombine(x, MatVec(M, a), y, MatVec(M, b));
    MleCombine(x, PadPow2(MatVec(M, a)), y, PadPow2(MatVec(M, b)), r);
  }

  // ---- Linearized satisfaction and folding ----

  ghost predicate Fitting(shape: Shape, X: seq<F>, W: seq<F>, rs: seq<F>) {
    && shape.Valid() && |X| == shape.numIo && |W| == shape.numVars
    && NextPow2(shape.numConstraints) == Pow2(|rs|)
  }

  ghost function ThetasOf(shape: Shape, X: seq<F>, W: seq<F>, rs: seq<F>): (v: seq<F>)
    requires Fitting(shape, X, W, rs)
    ensures |v| == |shape.Ms|
  {
    seq<F>(|shape.Ms|, j requires 0 <= j < |shape.Ms| => Theta(shape.Ms[j], X + W, rs))
  }

  /** `is_satisfied_linearized`. */
  ghost predicate SatisfiedLinearized(shape: Shape, U: LinearizedInstance, W: seq<F>) {
    && Fitting(shape, U.X, W, U.rs)
    && U.vs == ThetasOf(shape, U.X, W, U.rs)
    && U.comm == LINEAR.commit(W)
  }

  lemma CombineAppend(x: F, a: seq<F>, a': seq<F>, y: F, b: seq<F>, b': seq<F>)
    requires |a| == |b| && |a'| == |b'|
    ensures Combine(x, a + a', y, b + b') == Combine(x, a, y, b) + Combine(x, a', y, b')
  {
  }

  /** Folding with any two weights preserves linearized satisfaction at the common point. */
  lemma FoldingPreserves(shape: Shape, x: F, X1: seq<F>, W1: seq<F>, y: F, X2: seq<F>, W2: seq<F>, rs: seq<F>)
    requires Fitting(shape, X1, W1, rs) && Fitting(shape, X2, W2, rs)
    ensures SatisfiedLinearized(shape,
              LinearizedInstance(Mix(x, LINEAR.commit(W1), y, LINEAR.commit(W2)), Combine(x, X1, y, X2), rs,
                                 Combine(x, ThetasOf(shape, X1, W1, rs), y, ThetasOf(shape, X2, W2, rs))),
              Combine(x, W1, y, W2))
  {
    hide Theta;
    var X, W := Combine(x, X1, y, X2), Combine(x, W1, y, W2);
    CombineAppend(x, X1, W1, y, X2, W2);
    forall j | 0 <= j < |shape.Ms|
      ensures ThetasOf(shape, X, W, rs)[j] == Combine(x, ThetasOf(shape, X1, W1, rs), y, ThetasOf(shape, X2, W2, rs))[j]
    {
      ThetaCombine(shape.Ms[j], x, X1 + W1, y, X2 + W2, rs);
    }
  }

  datatype Error = InvalidInputLength | InvalidTargets | InvalidEvaluationPoint | InvalidWitnessLength | NotSatisfied

  datatype Result<T> = Ok(value: T) | Err(error: Error)

  /** `vec_to_mle`, which refuses the empty vector. */
  function VecToMle(z: seq<F>): Option<Table> {
    if z == [] then None else Some(PadPow2(z))
  }

  /** `compute_theta_values`. It fails exactly on matrices without rows. */
  method ComputeThetas(Ms: seq<Csr.Matrix>, shape: Shape, X: seq<F>, W: seq<F>, rs: seq<F>) returns (v: Option<seq<F>>)
    requires Fitting(shape, X, W, rs) && |Ms| == |shape.Ms|
    requires forall j :: 0 <= j < |Ms| ==> Stores(Ms[j], shape.Ms[j]) && Ms[j].cols == |X + W|
    ensures v.None? <==> shape.numConstraints == 0 && shape.Ms != []
    ensures v.Some? ==> v.value == ThetasOf(shape, X, W, rs)
  {
    hide RowDot, Mle, PadPow2;
    var thetas := [];
    for j := 0 to |Ms|
      invariant |thetas| == j && forall k :: 0 <= k < j ==> thetas[k] == Theta(shape.Ms[k], X + W, rs)
      invariant j > 0 ==> shape.numConstraints > 0
    {
      var product := MultiplyVec(Ms[j], X + W, shape.Ms[j]);
      assert product == MatVec(shape.Ms[j], X + W);
      var Z := VecToMle(product);
      if Z == None {
        return None;
      }
      var poly := new DensePolynomial(Z.value);
      var e := poly.Evaluate(rs);
      thetas := thetas + [e];
    }
    v := Some(thetas);
  }

  /** x1 + rho * x2, entry by entry, over the shorter length. */
  function Fold(a: seq<F>, b: seq<F>, rho: F): seq<F> {
    var n := if |a| <= |b| then |a| else |b|;
    seq<F>(n, i requires 0 <= i < n => Add(a[i], Mul(rho, b[i])))
  }

  lemma FoldIsCombine(a: seq<F>, b: seq<F>, rho: F)
    requires |a| == |b|
    ensures Fold(a, b, rho) == Combine(1, a, rho, b)
  {
    forall i | 0 <= i < |a|
      ensures Fold(a, b, rho)[i] == Combine(1, a, rho, b)[i]
    {
      MulOne(a[i]);
    }
  }

  /** Length of an evaluation point (`safe_loglike!`): one for a single constraint, not zero. */
  function PointLength(m: nat): nat {
    if m == 1 then 1 else Log2(m)
  }

  function FoldLog(thetas1: seq<F>, thetas2: seq<F>): Log {
    [Scalars(Thetas, thetas1), Scalars(Thetas, thetas2)]
  }

  /** `fold_and_linearize_ccs`. */
  method FoldAndLinearize(shape: Shape, u1: Instance, u2: Instance, W1: seq<F>, W2: seq<F>, thetas1: seq<F>, thetas2: seq<F>,
                          rs: seq<F>, oracle: Transcript)
    returns (r: Result<(LinearizedInstance, seq<F>)>)
    requires u1.X != [] && u2.X != []
    modifies oracle
    ensures r.Ok? ==>
              var rho := Challenge(old(oracle.log) + FoldLog(thetas1, thetas2), FoldingChallenge);
              && oracle.log == old(oracle.log) + FoldLog(thetas1, thetas2) + [Squeeze(FoldingChallenge)]
              && r.value == (LinearizedInstance(Add(u1.comm, Mul(rho, u2.comm)), Fold(u1.X, u2.X, rho), rs,
                                                Fold(thetas1, thetas2, rho)),
                             Fold(W1, W2, rho))
    ensures r.Ok? <==> && |u1.X| == |u2.X| == shape.numIo && |thetas1| == |thetas2| == |shape.Ms|
                       && |W1| == |W2| == shape.numVars && PointLength(shape.numConstraints) == |rs|
    ensures r.Err? ==>
              && (r.error == InvalidTargets <==> |u1.X| == |u2.X| && (|thetas1| != |thetas2| || |thetas1| != |shape.Ms|))
              && (r.error == InvalidInputLength <==> || |u1.X| != |u2.X|
                                                     || (|thetas1| == |thetas2| == |shape.Ms| && (|W1| != |W2| || |u1.X| != shape.numIo)))
              && (r.error == InvalidWitnessLength ==> |W1| == |W2| != shape.numVars && PointLength(shape.numConstraints) == |rs|)
              && (r.error == InvalidEvaluationPoint ==> PointLength(shape.numConstraints) != |rs|)
              && r.error != NotSatisfied
  {
    if |u1.X| != |u2.X| {
      return Err(InvalidInputLength);
    }
    if |thetas1| != |thetas2| || |thetas1| != |shape.Ms| {
      return Err(InvalidTargets);
    }
    if |W1| != |W2| {
      return Err(InvalidInputLength);
    }
    oracle.Append(Scalars(Thetas, thetas1));
    oracle.Append(Scalars(Thetas, thetas2));
    assert oracle.log == old(oracle.log) + FoldLog(thetas1, thetas2);
    var rho := oracle.ChallengeScalar(FoldingChallenge);
    var comm := Add(u1.comm, Mul(rho, u2.comm));
    var u := Add(u1.X[0], Mul(rho, u2.X[0]));
    var X := [u] + Fold(u1.X[1..], u2.X[1..], rho);
    var vs := Fold(thetas1, thetas2, rho);
    assert X == Fold(u1.X, u2.X, rho);
    if shape.numIo != |X| {
      return Err(InvalidInputLength);
    }
    if PointLength(shape.numConstraints) != |rs| {
      return Err(InvalidEvaluationPoint);
    }
    var W := Fold(W1, W2, rho);
    if shape.numVars != |W| {
      return Err(InvalidWitnessLength);
    }
    r := Ok((LinearizedInstance(comm, X, rs, vs), W));
  }

  /** `verify_ccs_folding_consistency`. */
  method VerifyConsistency(shape: Shape, u1: Instance, u2: Instance, folded: LinearizedInstance, thetas1: seq<F>,
                           thetas2: seq<F>, rx: seq<F>, oracle: Transcript)
    returns (ok: bool)
    requires u1.X != [] && u2.X != [] && folded.X != []
    modifies oracle
    ensures ok <==>
              var rho := Challenge(old(oracle.log) + FoldLog(thetas1, thetas2), FoldingChallenge);
              && |u1.X| == |u2.X| && |thetas1| == |thetas2| == |shape.Ms|
              && folded == LinearizedInstance(Add(u1.comm, Mul(rho, u2.comm)), Fold(u1.X, u2.X, rho), rx,
                                              Fold(thetas1, thetas2, rho))
  {
    if |u1.X| != |u2.X| || |thetas1| != |thetas2| || |thetas1| != |shape.Ms| {
      return false;
    }
    oracle.Append(Scalars(Thetas, thetas1));
    oracle.Append(Scalars(Thetas, thetas2));
    assert oracle.log == old(oracle.log) + FoldLog(thetas1, thetas2);
    var rho := oracle.ChallengeScalar(FoldingChallenge);
    var X := Fold(u1.X, u2.X, rho);
    assert X == [X[0]] + X[1..] && folded.X == [folded.X[0]] + folded.X[1..];
    assert X[1..] == Fold(u1.X[1..], u2.X[1..], rho);
    ok := folded.comm == Add(u1.comm, Mul(rho, u2.comm))
       && folded.X[0] == Add(u1.X[0], Mul(rho, u2.X[0]))
       && folded.X[1..] == Fold(u1.X[1..], u2.X[1..], rho)
       && folded.vs == Fold(thetas1, thetas2, rho)
       && folded.rs == rx;
  }

  /** The length of an evaluation point fits the padded number of constraints, except for one constraint. */
  lemma PointSize(m: nat)
    ensures Pow2(PointLength(m)) == NextPow2(m) <==> m != 1
  {
    NextPow2IsLeast(m);
    assert Pow2(1) == 2;
  }

  /** An instance of the lengths that folding accepts has values of M z at its point exactly when the number of
      constraints is not one. With one constraint the point has a coordinate too many, so nothing is satisfied. */
  lemma FoldedFitsUnlessOne(shape: Shape, U: LinearizedInstance, W: seq<F>)
    requires shape.Valid() && |U.X| == shape.numIo && |W| == shape.numVars && |U.rs| == PointLength(shape.numConstraints)
    ensures Fitting(shape, U.X, W, U.rs) <==> shape.numConstraints != 1
    ensures shape.numConstraints == 1 ==> !SatisfiedLinearized(shape, U, W)
  {
    hide NextPow2, Pow2, PointLength;
    PointSize(shape.numConstraints);
  }

  /** Folding two committed instances with their true values gives a satisfied linearized instance, whatever
      the oracle answers; and the consistency check passes on it under the same oracle. There is nothing to fold
      exactly when there are matrices without rows. */
  method FoldHonestly(shape: Shape, Ms: seq<Csr.Matrix>, u1: Instance, u2: Instance, W1: seq<F>, W2: seq<F>, rs: seq<F>,
                      oracle: Transcript, checker: Transcript)
    returns (folded: Option<(LinearizedInstance, seq<F>)>, ok: bool)
    requires shape.Valid() && shape.numConstraints != 1 && |rs| == PointLength(shape.numConstraints)
    requires |u1.X| == |u2.X| == shape.numIo >= 1 && |W1| == |W2| == shape.numVars
    requires u1.comm == LINEAR.commit(W1) && u2.comm == LINEAR.commit(W2)
    requires |Ms| == |shape.Ms|
    requires forall j :: 0 <= j < |Ms| ==> Stores(Ms[j], shape.Ms[j]) && Ms[j].cols == shape.numIo + shape.numVars
    requires oracle != checker && oracle.log == checker.log
    modifies oracle, checker
    ensures folded.None? <==> shape.numConstraints == 0 && shape.Ms != []
    ensures folded.Some? ==> SatisfiedLinearized(shape, folded.value.0, folded.value.1) && ok
  {
    hide Theta, NextPow2, PointLength, Pow2, Stores;
    PointSize(shape.numConstraints);
    var first := ComputeThetas(Ms, shape, u1.X, W1, rs);
    if first == None {
      return None, false;
    }
    var second := ComputeThetas(Ms, shape, u2.X, W2, rs);
    var thetas1, thetas2 := first.value, second.value;
    var r := FoldAndLinearize(shape, u1, u2, W1, W2, thetas1, thetas2, rs, oracle);
    var U := r.value.0;
    folded := Some(r.value);
    ghost var rho := Challenge(old(oracle.log) + FoldLog(thetas1, thetas2), FoldingChallenge);
    FoldIsCombine(u1.X, u2.X, rho);
    FoldIsCombine(thetas1, thetas2, rho);
    FoldIsCombine(W1, W2, rho);
    MulOne(u1.comm);
    FoldingPreserves(shape, 1, u1.X, W1, rho, u2.X, W2, rs);
    ok := VerifyConsistency(shape, u1, u2, U, thetas1, thetas2, rs, checker);
  }
}
