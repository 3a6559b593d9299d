/** The SNARK for committed relaxed R1CS (spartan/src/committed_relaxed_snark.rs): a satisfiability proof
    followed by a proof of the matrix values it relied on. */
module Snark {
  import opened Wrappers
  import opened Field
  import opened Vectors
  import opened Powers
  import opened Multilinear
  import opened Transcript
  import opened SparseMatrix
  import opened SparseNetwork
  import opened Commitments
  import opened R1CS
  import opened Crr1csVerifier
  import opened Crr1csProver
  import opened SparseEvalVerifier
  import opened SparseEvalProver

  /** The public commitment to an R1CS shape. */
  datatype Encoding = Encoding(numCons: nat, numVars: nat, numInputs: nat, matrices: Committed)

  datatype SnarkProof = SnarkProof(sat: Crr1csVerifier.Proof, evals: (F, F, F), eval: SparseEvalProof)

  function EncodingLog(c: Encoding): Log {
    [Protocol(SnarkName), Number(NumCons, c.numCons), Number(NumVars, c.numVars), Number(NumInputs, c.numInputs),
     Number(BatchSize, 3), Number(NumOps, c.matrices.numOps), Number(NumCells, c.matrices.numCells),
     Commitment(CommitOps, c.matrices.ops), Commitment(CommitMem, c.matrices.mem)]
  }

  function MatrixClaims(evals: (F, F, F)): Log {
    [Scalar(MatrixClaim, evals.0), Scalar(MatrixClaim, evals.1), Scalar(MatrixClaim, evals.2)]
  }

  function VerifySnark(proof: SnarkProof, c: Encoding, inst: Crr1csVerifier.Instance, log: Log): Option<Log> {
    if |inst.input| != c.numInputs then None
    else
      match VerifyCrr1cs(proof.sat, c.numVars, c.numCons, inst, proof.evals, log + EncodingLog(c))
      case None => None
      case Some(a) =>
        VerifySparseEval(proof.eval, c.matrices, a.rx, a.ry, [proof.evals.0, proof.evals.1, proof.evals.2],
                         a.log + MatrixClaims(proof.evals))
  }

  method AppendEncoding(c: Encoding, transcript: Transcript)
    modifies transcript
    ensures transcript.log == old(transcript.log) + EncodingLog(c)
  {
    transcript.Append(Protocol(SnarkName));
    transcript.Append(Number(NumCons, c.numCons));
    transcript.Append(Number(NumVars, c.numVars));
    transcript.Append(Number(NumInputs, c.numInputs));
    transcript.Append(Number(BatchSize, 3));
    transcript.Append(Number(NumOps, c.matrices.numOps));
    transcript.Append(Number(NumCells, c.matrices.numCells));
    transcript.Append(Commitment(CommitOps, c.matrices.ops));
    transcript.Append(Commitment(CommitMem, c.matrices.mem));
  }

  method AppendMatrixClaims(evals: (F, F, F), transcript: Transcript)
    modifies transcript
    ensures transcript.log == old(transcript.log) + MatrixClaims(evals)
  {
    transcript.Append(Scalar(MatrixClaim, evals.0));
    transcript.Append(Scalar(MatrixClaim, evals.1));
    transcript.Append(Scalar(MatrixClaim, evals.2));
  }

  /** `SNARK::verify`. */
  method VerifySnarkProof(proof: SnarkProof, c: Encoding, inst: Crr1csVerifier.Instance, transcript: Transcript)
    returns (ok: bool)
    modifies transcript
    ensures match VerifySnark(proof, c, inst, old(transcript.log))
            case None => !ok
            case Some(log) => ok && transcript.log == log
  {
    hide EncodingLog, MatrixClaims, VerifyCrr1cs, VerifySparseEval;
    if |inst.input| != c.numInputs {
      return false;
    }
    AppendEncoding(c, transcript);
    var points := VerifyCrr1csProof(proof.sat, c.numVars, c.numCons, inst, proof.evals, transcript);
    if points == None {
      return false;
    }
    AppendMatrixClaims(proof.evals, transcript);
    ok := VerifySparseEvalProof(proof.eval, c.matrices, points.value.0, points.value.1,
                                [proof.evals.0, proof.evals.1, proof.evals.2], transcript);
  }

  // ---- Encoding a shape ----

  /** What the prover keeps from encoding: the dense matrices and the merged polynomials. */
  datatype Decoding = Decoding(dense: Dense, ops: Table, mem: Table)

  function MatricesOf(shape: R1CSInstance): seq<Matrix> {
    [shape.A, shape.B, shape.C]
  }

  function Max(a: nat, b: nat): nat {
    if a < b then b else a
  }

  ghost predicate Encodes(c: Encoding, dec: Decoding, shape: R1CSInstance, s: nat, v: nat, n: nat) {
    && DenseOf(dec.dense, MatricesOf(shape), n, Max(s, v + 1))
    && dec.ops == CombOps(dec.dense) && dec.mem == CombMem(dec.dense)
    && c == Encoding(shape.numCons, shape.numVars, shape.numInputs,
                     Committed(Pow2(n), Pow2(Max(s, v + 1)), PCS.commit(dec.ops), PCS.commit(dec.mem)))
  }

  lemma ShapeInRange(shape: R1CSInstance, s: nat, v: nat)
    requires Shaped(shape, s, v)
    ensures AllInRange(MatricesOf(shape), Pow2(s), Pow2(v + 1))
    ensures AllInRange(MatricesOf(shape), Pow2(Max(s, v + 1)), Pow2(Max(s, v + 1)))
  {
    if s < v + 1 {
      Pow2Monotone(s, v + 1);
    } else if v + 1 < s {
      Pow2Monotone(v + 1, s);
    }
  }

  /** `SNARK::encode`. The number of operations is a power 2^n; n is positive exactly when some matrix
      has more than one entry. */
  method Encode(shape: R1CSInstance, ghost s: nat, ghost v: nat) returns (c: Encoding, dec: Decoding, ghost n: nat)
    requires Shaped(shape, s, v)
    ensures Encodes(c, dec, shape, s, v, n)
    ensures n >= 1 <==> |shape.A| >= 2 || |shape.B| >= 2 || |shape.C| >= 2
  {
    hide CombOps, CombMem, DenseOf, AllInRange;
    ShapeInRange(shape, s, v);
    var Ms := MatricesOf(shape);
    var N;
    N, n := SparseEvalProver.NumOps(Ms);
    assert |Ms[0]| <= N && |Ms[1]| <= N && |Ms[2]| <= N;
    EnoughEntries(Ms, n);
    Log2OfPow2(s);
    Log2OfPow2(v + 1);
    var cells := Pow2(Max(Log2(shape.numCons), Log2(2 * shape.numVars)));
    var d := BuildDense(Ms, N, n, Max(s, v + 1), cells) by {
      InRangeEach(Ms, cells);
    }
    var matrices, ops, mem := CommitDense(d, N, cells);
    dec := Decoding(d, ops, mem);
    c := Encoding(shape.numCons, shape.numVars, shape.numInputs, matrices);
  }

  lemma InRangeEach(Ms: seq<Matrix>, cells: nat)
    requires AllInRange(Ms, cells, cells)
    ensures forall b :: 0 <= b < |Ms| ==> InRange(Ms[b], cells, cells)
  {
  }

  lemma EnoughEntries(Ms: seq<Matrix>, n: nat)
    requires |Ms| == 3 && |Ms[0]| <= Pow2(n) && |Ms[1]| <= Pow2(n) && |Ms[2]| <= Pow2(n)
    requires n == 0 || exists b :: 0 <= b < |Ms| && |Ms[b]| > Pow2(n - 1)
    ensures n >= 1 <==> |Ms[0]| >= 2 || |Ms[1]| >= 2 || |Ms[2]| >= 2
  {
  }

  // ---- Completeness ----

  lemma MatrixEvalsOfShape(shape: R1CSInstance, s: nat, v: nat, rx: seq<F>, ry: seq<F>)
    requires Shaped(shape, s, v) && |rx| == s && |ry| == v + 1 && Sized(shape, rx, Pow2(|ry|))
    requires AllInRange(MatricesOf(shape), Pow2(s), Pow2(v + 1))
    ensures var (a, b, c) := MatrixValues(shape, rx, ry);
            MatrixEvals(MatricesOf(shape), rx, ry) == [a, b, c]
  {
    hide EvaluateAt;
  }

  /** Claims the matrix values at the point of the satisfiability proof and proves them. */
  method ProveMatrices(shape: R1CSInstance, c: Encoding, dec: Decoding, rx: seq<F>, ry: seq<F>,
                       ghost s: nat, ghost v: nat, ghost n: nat, transcript: Transcript)
    returns (evals: (F, F, F), eval: SparseEvalProof)
    requires Shaped(shape, s, v) && n >= 1 && Encodes(c, dec, shape, s, v, n)
    requires |rx| == s && |ry| == v + 1 && Sized(shape, rx, Pow2(|ry|))
    modifies transcript
    ensures evals == MatrixValues(shape, rx, ry)
    ensures VerifySparseEval(eval, c.matrices, rx, ry, [evals.0, evals.1, evals.2],
                             old(transcript.log) + MatrixClaims(evals)) == Some(transcript.log)
  {
    hide MatrixClaims, VerifySparseEval, DenseOf, CombOps, CombMem, EvaluateAt, MatrixEvals, AllInRange;
    ShapeInRange(shape, s, v);
    var a := Evaluate(shape.A, rx, ry);
    var b := Evaluate(shape.B, rx, ry);
    var d := Evaluate(shape.C, rx, ry);
    evals := (a, b, d);
    AppendMatrixClaims(evals, transcript);
    MatrixEvalsOfShape(shape, s, v, rx, ry);
    eval := ProveSparseEval(MatricesOf(shape), dec.dense, c.matrices, dec.ops, dec.mem, rx, ry, [a, b, d], n, transcript);
  }

  /** Completeness of the SNARK. For a satisfied relaxed instance, zero-padded to size, with at least two
      entries in some matrix, the verifier accepts the prover's proof and ends with the same transcript. */
  method ProveSnark(shape: R1CSInstance, inst: Crr1csVerifier.Instance, W: seq<F>, E: seq<F>, c: Encoding, dec: Decoding,
                    ghost s: nat, ghost v: nat, ghost n: nat, transcript: Transcript)
    returns (proof: SnarkProof)
    requires Shaped(shape, s, v) && n >= 1 && Encodes(c, dec, shape, s, v, n)
    requires HonestWitness(shape, inst, Pad(W, shape.numVars), Pad(E, shape.numCons), s, v)
    modifies transcript
    ensures VerifySnark(proof, c, inst, old(transcript.log)) == Some(transcript.log)
  {
    assert |inst.input| == c.numInputs && shape.numVars == c.numVars && shape.numCons == c.numCons;
    hide EncodingLog, MatrixClaims, VerifyCrr1cs, VerifySparseEval, HonestWitness, MatrixValues, Encodes, Shaped, Sized;
    AppendEncoding(c, transcript);
    var sat, rx, ry := ProveCrr1cs(shape, inst, Pad(W, shape.numVars), Pad(E, shape.numCons), s, v, transcript);
    var evals, eval := ProveMatrices(shape, c, dec, rx, ry, s, v, n, transcript);
    proof := SnarkProof(sat, evals, eval);
  }
}
