/** The prover of committed relaxed R1CS proofs (`CRR1CSProof::prove` in spartan/src/crr1csproof.rs) and
    the completeness of the proof. */
module Crr1csProver {
  import opened Wrappers
  import opened Field
  import opened Vectors
  import opened Powers
  import opened Multilinear
  import opened Transcript
  import opened DensePolynomial
  import opened Sumcheck
  import opened SumcheckVerifier
  import opened SumcheckProver
  import opened Combiners
  import opened SparseMatrix
  import opened Commitments
  import opened R1CS
  import opened Crr1csVerifier
  import ProductProver

  // ---- Phase one sums to zero ----

  lemma {:induction false} SumOfZeros(g: Combiner, Ts: Sumcheck.Instance, n: nat)
    requires Uniform(Ts, n)
    requires forall i :: 0 <= i < Pow2(n) ==> g(Column(Ts, i)) == 0
    ensures HypercubeSum(g, Ts, n) == 0
    decreases n
  {
    hide Add;
    if n > 0 {
      UniformHalves(Ts, n - 1);
      var h := Pow2(n - 1);
      forall i | 0 <= i < h
        ensures g(Column(Los(Ts), i)) == 0 && g(Column(His(Ts), i)) == 0
      {
        assert Column(Los(Ts), i) == Column(Ts, i);
        assert Column(His(Ts), i) == Column(Ts, h + i);
      }
      SumOfZeros(g, Los(Ts), n - 1);
      SumOfZeros(g, His(Ts), n - 1);
      AddZero(0);
    }
  }

  lemma SatisfiedRow(u: F, tau: F, a: F, b: F, c: F, e: F)
    requires Mul(a, b) == Add(Mul(u, c), e)
    ensures RelaxedValue(u, tau, a, b, c, e) == 0
  {
    SubOfSum(Mul(u, c), e);
    SubIsZero(e, e);
    MulZero(tau);
  }

  /** For a satisfied instance the sum that phase one proves is zero. */
  lemma PhaseOneSum(u: F, tau: Table, Az: Table, Bz: Table, Cz: Table, E: Table, n: nat)
    requires |tau| == |Az| == |Bz| == |Cz| == |E| == Pow2(n)
    requires forall i :: 0 <= i < Pow2(n) ==> Mul(Az[i], Bz[i]) == Add(Mul(u, Cz[i]), E[i])
    ensures Uniform([tau, Az, Bz, Cz, E], n)
    ensures HypercubeSum(Relaxed(u), [tau, Az, Bz, Cz, E], n) == 0
  {
    var Ts := [tau, Az, Bz, Cz, E];
    forall i | 0 <= i < Pow2(n)
      ensures Relaxed(u)(Column(Ts, i)) == 0
    {
      assert Column(Ts, i) == [tau[i], Az[i], Bz[i], Cz[i], E[i]];
      SatisfiedRow(u, tau[i], Az[i], Bz[i], Cz[i], E[i]);
    }
    SumOfZeros(Relaxed(u), Ts, n);
  }

  // ---- Phase two sums to the combined claim ----

  lemma HypercubeDot2Point(A: Table, B: Table)
    requires |A| == |B| == 1
    ensures HypercubeSum(Product2, [A, B], 0) == Dot(A, B)
  {
    assert Column([A, B], 0) == [A[0], B[0]];
    assert A[..0] == [] && B[..0] == [];
    AddZero(Mul(A[0], B[0]));
  }

  lemma {:induction false} HypercubeDot2(A: Table, B: Table, n: nat)
    requires |A| == |B| == Pow2(n)
    ensures Uniform([A, B], n)
    ensures HypercubeSum(Product2, [A, B], n) == Dot(A, B)
    decreases n
  {
    hide Dot, Product2;
    if n == 0 {
      HypercubeDot2Point(A, B);
    } else {
      assert Los([A, B]) == [Lo(A), Lo(B)] && His([A, B]) == [Hi(A), Hi(B)];
      HypercubeDot2(Lo(A), Lo(B), n - 1);
      HypercubeDot2(Hi(A), Hi(B), n - 1);
      assert A == Lo(A) + Hi(A) && B == Lo(B) + Hi(B);
      DotAppend(Lo(A), Hi(A), Lo(B), Hi(B));
    }
  }

  /** a*A + b*B + c*C, entry by entry. */
  function Combine3(a: F, A: seq<F>, b: F, B: seq<F>, c: F, C: seq<F>): (v: seq<F>)
    requires |A| == |B| == |C|
    ensures |v| == |A|
  {
    seq<F>(|A|, i requires 0 <= i < |A| => Mix3(a, A[i], b, B[i], c, C[i]))
  }

  lemma Combine3IsCombine(a: F, A: seq<F>, b: F, B: seq<F>, c: F, C: seq<F>)
    requires |A| == |B| == |C|
    ensures Combine3(a, A, b, B, c, C) == Combine(1, Combine(a, A, b, B), c, C)
  {
    forall i | 0 <= i < |A|
      ensures Combine3(a, A, b, B, c, C)[i] == Combine(1, Combine(a, A, b, B), c, C)[i]
    {
      MulOne(Mix(a, A[i], b, B[i]));
    }
  }

  lemma DotCombine3(a: F, A: seq<F>, b: F, B: seq<F>, c: F, C: seq<F>, z: seq<F>)
    requires |A| == |B| == |C| == |z|
    ensures Dot(Combine3(a, A, b, B, c, C), z) == Mix3(a, Dot(A, z), b, Dot(B, z), c, Dot(C, z))
  {
    Combine3IsCombine(a, A, b, B, c, C);
    DotCombine(1, Combine(a, A, b, B), c, C, z);
    DotCombine(a, A, b, B, z);
    MulOne(Mix(a, Dot(A, z), b, Dot(B, z)));
  }

  lemma MleCombine3(a: F, A: Table, b: F, B: Table, c: F, C: Table, r: seq<F>)
    requires |A| == |B| == |C| == Pow2(|r|)
    ensures Mle(Combine3(a, A, b, B, c, C), r) == Mix3(a, Mle(A, r), b, Mle(B, r), c, Mle(C, r))
  {
    Combine3IsCombine(a, A, b, B, c, C);
    MleCombine(1, Combine(a, A, b, B), c, C, r);
    MleCombine(a, A, b, B, r);
    MulOne(Mix(a, Mle(A, r), b, Mle(B, r)));
  }

  /** Everything fixed before phase two: matrices, the point rx and the padded vector z. */
  ghost predicate Sized(shape: R1CSInstance, rx: seq<F>, cols: nat) {
    && shape.numCons == Pow2(|rx|)
    && InRange(shape.A, Pow2(|rx|), cols) && InRange(shape.B, Pow2(|rx|), cols) && InRange(shape.C, Pow2(|rx|), cols)
  }

  /** The table of phase two: the mixed matrix polynomial with its row variables at rx. */
  ghost function MixedTable(shape: R1CSInstance, rx: seq<F>, cols: nat, a: F, b: F, c: F): (T: Table)
    requires Sized(shape, rx, cols)
    ensures |T| == cols
  {
    var x := EqTable(rx);
    Combine3(a, EvalTable(shape.A, x, cols), b, EvalTable(shape.B, x, cols), c, EvalTable(shape.C, x, cols))
  }

  lemma PhaseTwoSum(shape: R1CSInstance, rx: seq<F>, z: Table, n: nat, a: F, b: F, c: F)
    requires |z| == Pow2(n) && Sized(shape, rx, |z|)
    ensures Uniform([z, MixedTable(shape, rx, |z|, a, b, c)], n)
    ensures HypercubeSum(Product2, [z, MixedTable(shape, rx, |z|, a, b, c)], n)
         == Mix3(a, Mle(Times(shape.A, Pow2(|rx|), z), rx), b, Mle(Times(shape.B, Pow2(|rx|), z), rx),
                 c, Mle(Times(shape.C, Pow2(|rx|), z), rx))
  {
    hide Dot, Mle, EqTable, EvalTable, Times, HypercubeSum, Combine3, Mix3;
    var T, x := MixedTable(shape, rx, |z|, a, b, c), EqTable(rx);
    HypercubeDot2(z, T, n);
    DotCommutes(z, T);
    DotCombine3(a, EvalTable(shape.A, x, |z|), b, EvalTable(shape.B, x, |z|), c, EvalTable(shape.C, x, |z|), z);
    TimesAt(shape.A, rx, z);
    TimesAt(shape.B, rx, z);
    TimesAt(shape.C, rx, z);
  }

  lemma MixedTableAt(shape: R1CSInstance, rx: seq<F>, ry: seq<F>, a: F, b: F, c: F)
    requires Sized(shape, rx, Pow2(|ry|))
    ensures Mle(MixedTable(shape, rx, Pow2(|ry|), a, b, c), ry)
         == Mix3(a, EvaluateAt(shape.A, rx, ry), b, EvaluateAt(shape.B, rx, ry), c, EvaluateAt(shape.C, rx, ry))
  {
    hide Mle, EqTable, EvalTable, Combine3, Mix3, EvaluateAt;
    var x, cols := EqTable(rx), Pow2(|ry|);
    MleCombine3(a, EvalTable(shape.A, x, cols), b, EvalTable(shape.B, x, cols), c, EvalTable(shape.C, x, cols), ry);
    EvalTableAt(shape.A, rx, ry);
    EvalTableAt(shape.B, rx, ry);
    EvalTableAt(shape.C, rx, ry);
  }

  // ---- The vector z ----

  /** z = (vars, u, inputs, 0, ..., 0), twice as long as vars. */
  function Extended(W: seq<F>, u: F, input: seq<F>): (z: seq<F>)
    requires |input| < |W|
    ensures |z| == 2 * |W|
  {
    W + [u] + input + Zeros(|W| - |input| - 1)
  }

  lemma ExtendedHalves(W: seq<F>, u: F, input: seq<F>, v: seq<F>)
    requires |input| < |W| && v == [u] + input
    ensures Lo(Extended(W, u, input)) == W && Hi(Extended(W, u, input)) == v + Zeros(|W| - |v|)
  {
  }

  lemma SplitEvaluation(z: seq<F>, W: seq<F>, v: seq<F>, ry: seq<F>)
    requires ry != [] && |W| == Pow2(|ry| - 1) && |v| <= |W| && |z| == 2 * |W|
    requires Lo(z) == W && Hi(z) == v + Zeros(|W| - |v|)
    ensures |z| == Pow2(|ry|)
    ensures Mle(z, ry) == Add(Mul(Sub(1, ry[0]), Mle(W, ry[1..])), Mul(ry[0], EvaluateSparse(EntriesOf(v), ry[1..])))
  {
    hide *;
    HalfPower(|ry|);
    SparseEvaluation(v, ry[1..]);
    MleStep(z, ry);
    InterpAsCombination(Mle(Lo(z), ry[1..]), Mle(Hi(z), ry[1..]), ry[0]);
  }

  /** The verifier's split evaluation of z is its extension at ry. */
  lemma EvalZIsMle(inst: Crr1csVerifier.Instance, W: seq<F>, ry: seq<F>)
    requires ry != [] && |W| == Pow2(|ry| - 1) && |inst.input| < |W|
    ensures |Extended(W, inst.u, inst.input)| == Pow2(|ry|)
    ensures EvalZ(inst, Mle(W, ry[1..]), ry) == Mle(Extended(W, inst.u, inst.input), ry)
  {
    hide EvaluateSparse, EntriesOf, Add, Mul, Sub, Mle, Extended, Lo, Hi, Pow2;
    var v := [inst.u] + inst.input;
    ExtendedHalves(W, inst.u, inst.input, v);
    SplitEvaluation(Extended(W, inst.u, inst.input), W, v, ry);
  }

  lemma ExtendedSatisfied(shape: R1CSInstance, W: seq<F>, u: F, input: seq<F>, E: seq<F>)
    requires shape.InRange() && |W| == shape.numVars && |input| == shape.numInputs < |W| && |E| == shape.numCons
    requires Satisfied(shape, W + [u] + input, u, E)
    ensures var z := Extended(W, u, input);
            && InRange(shape.A, shape.numCons, |z|) && InRange(shape.B, shape.numCons, |z|) && InRange(shape.C, shape.numCons, |z|)
            && var Az, Bz, Cz := Times(shape.A, shape.numCons, z), Times(shape.B, shape.numCons, z), Times(shape.C, shape.numCons, z);
               forall i :: 0 <= i < shape.numCons ==> Mul(Az[i], Bz[i]) == Add(Mul(u, Cz[i]), E[i])
  {
    var z := W + [u] + input;
    TimesOfPadded(shape.A, shape.numCons, z, Extended(W, u, input));
    TimesOfPadded(shape.B, shape.numCons, z, Extended(W, u, input));
    TimesOfPadded(shape.C, shape.numCons, z, Extended(W, u, input));
  }

  // ---- The prover ----

  /** `prove_phase_one`: the sum-check over the constraints, for tables that satisfy them. */
  method ProvePhaseOne(tau: seq<F>, Az: Table, Bz: Table, Cz: Table, E: Table, u: F, transcript: Transcript)
    returns (messages: seq<seq<F>>, rx: seq<F>, az: F, bz: F, cz: F, e: F)
    requires |Az| == |Bz| == |Cz| == |E| == Pow2(|tau|)
    requires forall i :: 0 <= i < |E| ==> Mul(Az[i], Bz[i]) == Add(Mul(u, Cz[i]), E[i])
    modifies transcript
    ensures |rx| == |tau|
    ensures az == Mle(Az, rx) && bz == Mle(Bz, rx) && cz == Mle(Cz, rx) && e == Mle(E, rx)
    ensures Verify(messages, 0, |tau|, 3, old(transcript.log))
         == Some(State(RelaxedValue(u, EqEval(rx, tau), az, bz, cz, e), rx, transcript.log))
  {
    var n := |tau|;
    var T := EqEvals(tau);
    var Ts := [T, Az, Bz, Cz, E];
    PhaseOneSum(u, T, Az, Bz, Cz, E, n);
    RelaxedIsCubic(u);
    var polys := ProductProver.NewPolynomials(Ts, n);
    hide Verify, HypercubeSum, LowDegree, EqTable, EqEval, Mle, RelaxedValue, TablesOf, ErrorProduct;
    var claims;
    messages, rx, claims := Prove(Relaxed(u), 3, 0, polys, n, transcript);
    az, bz, cz, e := claims[1], claims[2], claims[3], claims[4];
    assert az == Mle(Ts[1], rx) && bz == Mle(Ts[2], rx) && cz == Mle(Ts[3], rx) && e == Mle(Ts[4], rx);
    assert claims[0] == Mle(Ts[0], rx);
    MleEqTable(tau, rx);
    EqEvalCommutes(tau, rx);
    ProductProver.NoError(0, Relaxed(u)(claims), ErrorProduct(3, rx));
  }

  /** `prove_phase_two`: the sum-check over the columns of the mixed matrices. */
  method ProvePhaseTwo(claim: F, z: Table, T: Table, n: nat, transcript: Transcript)
    returns (messages: seq<seq<F>>, ry: seq<F>)
    requires |z| == |T| == Pow2(n) && claim == HypercubeSum(Product2, [z, T], n)
    modifies transcript
    ensures |ry| == n
    ensures Verify(messages, claim, n, 2, old(transcript.log))
         == Some(State(Mul(Mle(z, ry), Mle(T, ry)), ry, transcript.log))
  {
    var Ts := [z, T];
    Product2IsQuadratic();
    var polys := ProductProver.NewPolynomials(Ts, n);
    hide Verify, HypercubeSum, LowDegree, Mle, TablesOf, ErrorProduct;
    var claims;
    messages, ry, claims := Prove(Product2, 2, claim, polys, n, transcript);
    assert claims[0] == Mle(Ts[0], ry) && claims[1] == Mle(Ts[1], ry);
    ProductProver.NoError(claim, Product2(claims), ErrorProduct(2, ry));
  }

  method ComputeMixedTable(shape: R1CSInstance, rx: seq<F>, cols: nat, a: F, b: F, c: F) returns (T: Table)
    requires Sized(shape, rx, cols)
    ensures T == MixedTable(shape, rx, cols, a, b, c)
  {
    var x := EqEvals(rx);
    hide EqTable, EvalTable, Mix3;
    var A := ComputeEvalTable(shape.A, x, cols);
    var B := ComputeEvalTable(shape.B, x, cols);
    var C := ComputeEvalTable(shape.C, x, cols);
    T := Combine3(a, A, b, B, c, C);
  }

  /** The values of the three matrix polynomials at (rx, ry), which the verifier is given. */
  ghost function MatrixValues(shape: R1CSInstance, rx: seq<F>, ry: seq<F>): (F, F, F)
    requires Sized(shape, rx, Pow2(|ry|))
  {
    (EvaluateAt(shape.A, rx, ry), EvaluateAt(shape.B, rx, ry), EvaluateAt(shape.C, rx, ry))
  }

  /** A satisfied instance of power-of-two size with a matching committed witness. */
  ghost predicate HonestWitness(shape: R1CSInstance, inst: Crr1csVerifier.Instance, W: seq<F>, E: seq<F>, s: nat, v: nat) {
    && shape.InRange() && shape.numCons == Pow2(s) && shape.numVars == Pow2(v)
    && |inst.input| == shape.numInputs < shape.numVars
    && |W| == shape.numVars && |E| == shape.numCons
    && Satisfied(shape, W + [inst.u] + inst.input, inst.u, E)
    && inst.commW == PCS.commit(W) && inst.commE == PCS.commit(E)
  }

  /** The second half of the prover, from the transcript that holds the claims of phase one. */
  method ProveColumns(shape: R1CSInstance, inst: Crr1csVerifier.Instance, W: seq<F>, E: seq<F>, z: Table, rx: seq<F>,
                      phase1: seq<seq<F>>, az: F, bz: F, cz: F, e: F, v: nat, transcript: Transcript)
    returns (proof: Proof, ry: seq<F>)
    requires |W| == Pow2(v) && |inst.input| < |W| && z == Extended(W, inst.u, inst.input) && |E| == Pow2(|rx|)
    requires inst.commW == PCS.commit(W) && inst.commE == PCS.commit(E)
    requires Sized(shape, rx, |z|)
    requires az == Mle(Times(shape.A, Pow2(|rx|), z), rx) && bz == Mle(Times(shape.B, Pow2(|rx|), z), rx)
    requires cz == Mle(Times(shape.C, Pow2(|rx|), z), rx) && e == Mle(E, rx)
    modifies transcript
    ensures |ry| == v + 1 && Sized(shape, rx, Pow2(|ry|))
    ensures proof.phase1 == phase1 && proof.az == az && proof.bz == bz && proof.cz == cz && proof.evalError == e
    ensures PhaseTwo(proof, |W|, inst, MatrixValues(shape, rx, ry), rx, old(transcript.log)) == Some((ry, transcript.log))
  {
    hide Verify, HypercubeSum, Mle, Times, EqTable, Mixers, Mix3, EvaluateAt, MixedTable, EvalZ, Sized, Log2, Extended;
    var a, b, c := SqueezeMixers(transcript);
    var claim := Mix3(a, az, b, bz, c, cz);
    var T := ComputeMixedTable(shape, rx, |z|, a, b, c);
    PhaseTwoSum(shape, rx, z, v + 1, a, b, c);
    var phase2;
    phase2, ry := ProvePhaseTwo(claim, z, T, v + 1, transcript);
    var poly := new DensePolynomial(W);
    var evalVars := poly.Evaluate(ry[1..]);
    ghost var log := transcript.log;
    var openVars := Open(W, ry[1..], evalVars, transcript);
    ghost var log1 := transcript.log;
    var openError := Open(E, rx, e, transcript);
    proof := Proof(phase1, az, bz, cz, phase2, evalVars, openVars, e, openError);
    HonestOpening(W, ry[1..], log);
    HonestOpening(E, rx, log1);
    EvalZIsMle(inst, W, ry);
    MixedTableAt(shape, rx, ry, a, b, c);
    Log2OfPow2(v);
    Log2OfPow2(v + 1);
  }

  /** Completeness of the committed relaxed R1CS proof. On a satisfied instance the verifier, given the
      true matrix values, accepts what the prover emits, and ends with the same points and transcript. */
  method ProveCrr1cs(shape: R1CSInstance, inst: Crr1csVerifier.Instance, W: seq<F>, E: seq<F>, ghost s: nat, ghost v: nat,
                     transcript: Transcript)
    returns (proof: Proof, rx: seq<F>, ry: seq<F>)
    requires HonestWitness(shape, inst, W, E, s, v)
    modifies transcript
    ensures |rx| == s && |ry| == v + 1 && Sized(shape, rx, Pow2(|ry|))
    ensures VerifyCrr1cs(proof, shape.numVars, shape.numCons, inst, MatrixValues(shape, rx, ry), old(transcript.log))
         == Some(Accepted(rx, ry, transcript.log))
  {
    hide Verify, Challenges, Squeezes, Mle, Times, Preamble, PhaseOneClaims, PhaseTwo, EqEval, RelaxedValue, Log2;
    AppendPreamble(inst, transcript);
    var z := Extended(W, inst.u, inst.input);
    ExtendedSatisfied(shape, W, inst.u, inst.input, E);
    Log2OfPow2(s);
    var tau := transcript.ChallengeVector(Tau, Log2(shape.numCons));
    var Az := MultiplyVec(shape.A, shape.numCons, z);
    var Bz := MultiplyVec(shape.B, shape.numCons, z);
    var Cz := MultiplyVec(shape.C, shape.numCons, z);
    var phase1, az, bz, cz, e;
    phase1, rx, az, bz, cz, e := ProvePhaseOne(tau, Az, Bz, Cz, E, inst.u, transcript);
    AppendPhaseOneClaims(az, bz, cz, e, transcript);
    Log2OfPow2(v);
    proof, ry := ProveColumns(shape, inst, W, E, z, rx, phase1, az, bz, cz, e, Log2(shape.numVars), transcript);
  }
}
