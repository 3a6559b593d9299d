/** Deterministic soundness of the SNARK for committed relaxed R1CS (spartan/src/committed_relaxed_snark.rs). */
module SnarkSoundness {
  import opened Wrappers
  import opened Field
  import opened Powers
  import opened Multilinear
  import opened Transcript
  import opened Commitments
  import opened SumcheckVerifier
  import opened SparseMatrix
  import opened SparseNetwork
  import opened R1CS
  import opened Crr1csVerifier
  import opened Crr1csProver
  import opened SparseEvalVerifier
  import opened SparseEvalProver
  import opened Snark
  import Crr1csSoundness
  import SparseEvalSoundness

  /** What the verifier computed from the proof: the points of the satisfiability proof, and the outcome of the
      evaluation proof. */
  ghost predicate Computed(proof: SnarkProof, c: Encoding, inst: Crr1csVerifier.Instance, log: Log, s: nat, v: nat, n: nat,
                           a: Accepted, o: SparseEvalSoundness.Outcome)
  {
    && VerifyCrr1cs(proof.sat, c.numVars, c.numCons, inst, proof.evals, log + EncodingLog(c)) == Some(a)
    && o == SparseEvalSoundness.OutcomeOf(proof.eval, [proof.evals.0, proof.evals.1, proof.evals.2], Max(s, v + 1), n,
                                          a.log + MatrixClaims(proof.evals))
  }

  /** The shape was encoded honestly, and W and E fit it; the prover's derefs are rowE and colE. */
  ghost predicate Setting(shape: R1CSInstance, c: Encoding, dec: Decoding, inst: Crr1csVerifier.Instance, W: seq<F>, E: seq<F>,
                          rowE: seq<Table>, colE: seq<Table>, s: nat, v: nat, n: nat)
  {
    && Crr1csSoundness.Matching(shape, inst, W, E, s, v) && n >= 1 && Encodes(c, dec, shape, s, v, n)
    && SparseEvalSoundness.Claimed(dec.dense.row, rowE, n) && SparseEvalSoundness.Claimed(dec.dense.col, colE, n)
    && |rowE| == |colE| == 3
  }

  /** The values opened to the verifier are true: of W and E, and the joint ones of the encoded matrices and of the
      derefs. */
  ghost predicate OpenedTruly(proof: SnarkProof, c: Encoding, dec: Decoding, W: seq<F>, E: seq<F>, rowE: seq<Table>, colE: seq<Table>,
                              a: Accepted, o: SparseEvalSoundness.Outcome)
  {
    && a.ry != [] && |W| == Pow2(|a.ry| - 1) && |E| == Pow2(|a.rx|)
    && proof.sat.evalVars == Mle(W, a.ry[1..]) && proof.sat.evalError == Mle(E, a.rx)
    && SparseEvalSoundness.OpeningsTrue(proof.eval.hashes, dec.dense, rowE, colE, o, SparseEvalSoundness.JointsOf(proof.eval, c.matrices, o))
  }

  /** Some challenge of one of the two proofs was unlucky. */
  ghost predicate Accident(proof: SnarkProof, c: Encoding, dec: Decoding, shape: R1CSInstance, inst: Crr1csVerifier.Instance, W: seq<F>,
                           E: seq<F>, rowE: seq<Table>, colE: seq<Table>, s: nat, v: nat, n: nat, a: Accepted,
                           o: SparseEvalSoundness.Outcome, log: Log)
  {
    var (x, y) := Equalize(a.rx, a.ry);
    || SparseEvalSoundness.Accident(o, proof.eval, 3, dec.dense, x, y, rowE, colE, n, SparseEvalSoundness.JointsOf(proof.eval, c.matrices, o))
    || (&& PhaseOne(proof.sat, c.numCons, inst, log + EncodingLog(c)).Some?
        && var t := Crr1csSoundness.Follow(proof.sat, c.numCons, inst, a, log + EncodingLog(c));
           && |t.rx| == s && Sized(shape, t.rx, 2 * |W|) && Crr1csSoundness.Matching(shape, inst, W, E, s, v)
           && Crr1csSoundness.Accident(proof.sat, inst, E, t, Crr1csSoundness.TruthOf(shape, inst, W, t), s, v))
  }

  lemma Points(proof: Crr1csVerifier.Proof, numVars: nat, numCons: nat, inst: Crr1csVerifier.Instance, evals: (F, F, F), a: Accepted, log: Log,
               s: nat, v: nat)
    requires numVars == Pow2(v) && numCons == Pow2(s) && VerifyCrr1cs(proof, numVars, numCons, inst, evals, log) == Some(a)
    ensures |a.rx| == s && |a.ry| == v + 1
  {
    hide VerifyCrr1cs, PhaseOne, Log2, EvalZ, Mix3, EqEval, Verify, Challenges, Squeezes, Mixers;
    Log2OfPow2(s);
    Log2OfPow2(v + 1);
    Crr1csSoundness.AcceptedPhases(proof, numVars, numCons, inst, evals, a, log);
  }

  /** The matrix values in the proof are right, or there was an accident. */
  lemma MatrixValuesRight(proof: SnarkProof, c: Encoding, dec: Decoding, shape: R1CSInstance, inst: Crr1csVerifier.Instance, W: seq<F>,
                          E: seq<F>, rowE: seq<Table>, colE: seq<Table>, s: nat, v: nat, n: nat, a: Accepted,
                          o: SparseEvalSoundness.Outcome, log: Log)
    requires Setting(shape, c, dec, inst, W, E, rowE, colE, s, v, n) && Computed(proof, c, inst, log, s, v, n, a, o)
    requires SparseEvalSoundness.WellCut(proof.eval.hashes, 3) && OpenedTruly(proof, c, dec, W, E, rowE, colE, a, o) && |a.rx| == s && |a.ry| == v + 1
    requires VerifySparseEval(proof.eval, c.matrices, a.rx, a.ry, [proof.evals.0, proof.evals.1, proof.evals.2],
                              a.log + MatrixClaims(proof.evals)).Some?
    ensures Sized(shape, a.rx, Pow2(|a.ry|))
    ensures || Accident(proof, c, dec, shape, inst, W, E, rowE, colE, s, v, n, a, o, log)
            || proof.evals == MatrixValues(shape, a.rx, a.ry)
  {
    hide VerifySparseEval, VerifyCrr1cs, SparseEvalSoundness.OpeningsTrue, SparseEvalSoundness.JointsOf, DenseOf, CombOps, CombMem, EvaluateAt, AllInRange, SparseEvalSoundness.OutcomeOf,
         SparseEvalSoundness.Accident, SparseEvalSoundness.Claimed, MatrixEvals, Crr1csSoundness.Accident, MatrixClaims, EncodingLog, Pow2, Mle;
    ShapeInRange(shape, s, v);
    SizedOf(shape, s, v, a.rx, a.ry);
    var (x, y) := Equalize(a.rx, a.ry);
    var evals := [proof.evals.0, proof.evals.1, proof.evals.2];
    SparseEvalSoundness.Soundness(proof.eval, c.matrices, a.rx, a.ry, evals, a.log + MatrixClaims(proof.evals), MatricesOf(shape), dec.dense,
                                  x, y, rowE, colE, n, o, SparseEvalSoundness.JointsOf(proof.eval, c.matrices, o));
    MatrixEvalsOfShape(shape, s, v, a.rx, a.ry);
  }

  /** All five digests that the verifier checks openings against belong to known tables. */
  ghost predicate Bound(proof: SnarkProof, c: Encoding, dec: Decoding, inst: Crr1csVerifier.Instance, W: seq<F>, E: seq<F>,
                        rowE: seq<Table>, colE: seq<Table>)
  {
    && BelongsTo(inst.commW, W) && BelongsTo(inst.commE, E)
    && SparseEvalSoundness.Bound(proof.eval, c.matrices, dec.dense, rowE, colE)
  }

  lemma WitnessOpeningsTrue(proof: Crr1csVerifier.Proof, numVars: nat, numCons: nat, inst: Crr1csVerifier.Instance, evals: (F, F, F),
                            a: Accepted, log: Log, W: seq<F>, E: seq<F>)
    requires VerifyCrr1cs(proof, numVars, numCons, inst, evals, log) == Some(a) && BelongsTo(inst.commW, W) && BelongsTo(inst.commE, E)
    ensures a.ry != [] && |W| == Pow2(|a.ry| - 1) && |E| == Pow2(|a.rx|)
    ensures proof.evalVars == Mle(W, a.ry[1..]) && proof.evalError == Mle(E, a.rx)
  {
    hide PhaseOne, Verify, Mixers, Mix3, EvalZ, Log2, Mle, Pow2;
  }

  /** Soundness from the commitments: if the digests belong to W, E, the derefs and the encoded shape, an accepted
      proof means satisfied constraints, or an accident. */
  lemma BindingSoundness(proof: SnarkProof, c: Encoding, dec: Decoding, shape: R1CSInstance, inst: Crr1csVerifier.Instance, W: seq<F>,
                         E: seq<F>, rowE: seq<Table>, colE: seq<Table>, s: nat, v: nat, n: nat, a: Accepted,
                         o: SparseEvalSoundness.Outcome, log: Log)
    requires Setting(shape, c, dec, inst, W, E, rowE, colE, s, v, n) && Computed(proof, c, inst, log, s, v, n, a, o)
    requires SparseEvalSoundness.WellCut(proof.eval.hashes, 3) && Bound(proof, c, dec, inst, W, E, rowE, colE)
    requires VerifySnark(proof, c, inst, log).Some?
    ensures || Accident(proof, c, dec, shape, inst, W, E, rowE, colE, s, v, n, a, o, log)
            || Satisfied(shape, W + [inst.u] + inst.input, inst.u, E)
  {
    hide VerifySparseEval, VerifyCrr1cs, VerifyOpenings, DenseOf, CombOps, CombMem, BelongsTo, SparseEvalSoundness.OutcomeOf, Accident, Satisfied,
         SparseEvalSoundness.OpeningsTrue, SparseEvalSoundness.JointsOf, SparseEvalSoundness.Shows, MatrixClaims, EncodingLog, Mle,
         SparseEvalSoundness.Claimed, SparseEvalSoundness.Bound;
    WitnessOpeningsTrue(proof.sat, c.numVars, c.numCons, inst, proof.evals, a, log + EncodingLog(c), W, E);
    Points(proof.sat, c.numVars, c.numCons, inst, proof.evals, a, log + EncodingLog(c), s, v);
    SparseEvalSoundness.Accepted(proof.eval, c.matrices, a.rx, a.ry, [proof.evals.0, proof.evals.1, proof.evals.2],
                                 a.log + MatrixClaims(proof.evals), n);
    SparseEvalSoundness.AcceptedOpeningsTrue(proof.eval, c.matrices, dec.dense, rowE, colE, o);
    Soundness(proof, c, dec, shape, inst, W, E, rowE, colE, s, v, n, a, o, log);
  }

  lemma SizedOf(shape: R1CSInstance, s: nat, v: nat, rx: seq<F>, ry: seq<F>)
    requires Shaped(shape, s, v) && |rx| == s && |ry| == v + 1
    ensures Sized(shape, rx, Pow2(|ry|))
  {
  }

  /** Soundness of the SNARK. If the verifier accepts a proof for an honestly encoded shape, the values opened to it
      are true of W, E and some derefs, and its address and timestamp lists hold three values each, then W and E
      satisfy the relaxed constraints, or an accident happened. */
  lemma Soundness(proof: SnarkProof, c: Encoding, dec: Decoding, shape: R1CSInstance, inst: Crr1csVerifier.Instance, W: seq<F>, E: seq<F>,
                  rowE: seq<Table>, colE: seq<Table>, s: nat, v: nat, n: nat, a: Accepted, o: SparseEvalSoundness.Outcome, log: Log)
    requires Setting(shape, c, dec, inst, W, E, rowE, colE, s, v, n) && Computed(proof, c, inst, log, s, v, n, a, o)
    requires SparseEvalSoundness.WellCut(proof.eval.hashes, 3) && OpenedTruly(proof, c, dec, W, E, rowE, colE, a, o)
    requires VerifySnark(proof, c, inst, log).Some?
    ensures || Accident(proof, c, dec, shape, inst, W, E, rowE, colE, s, v, n, a, o, log)
            || Satisfied(shape, W + [inst.u] + inst.input, inst.u, E)
  {
    hide VerifySparseEval, VerifyCrr1cs, SparseEvalSoundness.OpeningsTrue, SparseEvalSoundness.JointsOf, DenseOf, CombOps, CombMem, SparseEvalSoundness.OutcomeOf, SparseEvalSoundness.Accident,
         SparseEvalSoundness.Claimed, Crr1csSoundness.Accident, MatrixClaims, EncodingLog, Mle, Satisfied, MatrixValues, PhaseOne, Sized;
    Points(proof.sat, c.numVars, c.numCons, inst, proof.evals, a, log + EncodingLog(c), s, v);
    MatrixValuesRight(proof, c, dec, shape, inst, W, E, rowE, colE, s, v, n, a, o, log);
    if proof.evals == MatrixValues(shape, a.rx, a.ry) {
      Crr1csSoundness.Soundness(proof.sat, shape, inst, W, E, s, v, a, log + EncodingLog(c));
    }
  }
}
