/** The verifier of committed relaxed R1CS proofs (`CRR1CSProof::verify` in spartan/src/crr1csproof.rs). */
module Crr1csVerifier {
  import opened Wrappers
  import opened Field
  import opened Vectors
  import opened Powers
  import opened Multilinear
  import opened Transcript
  import opened SumcheckVerifier
  import opened Combiners
  import opened SparseMatrix
  import opened Commitments

  /** What prover and verifier share: inputs, scaling factor, commitments to witness and error. */
  datatype Instance = Instance(input: seq<F>, u: F, commW: Digest, commE: Digest)

  datatype Proof = Proof(
    phase1: seq<seq<F>>,
    az: F, bz: F, cz: F,
    phase2: seq<seq<F>>,
    evalVars: F, openVars: Opening,
    evalError: F, openError: Opening
  )

  function Preamble(inst: Instance): Log {
    [Protocol(Crr1csName), Scalars(Input, inst.input), Scalar(Scaling, inst.u),
     Commitment(CommitW, inst.commW), Commitment(CommitE, inst.commE)]
  }

  function PhaseOneClaims(az: F, bz: F, cz: F, e: F): Log {
    [Scalar(AzClaim, az), Scalar(BzClaim, bz), Scalar(CzClaim, cz), Scalar(ErrorClaim, e)]
  }

  /** The three challenges that combine the claims of phase one, and the transcript after them. */
  datatype Mixer = Mixer(a: F, b: F, c: F, log: Log)

  function Mixers(log: Log): Mixer {
    var log1 := log + [Squeeze(AzChallenge)];
    var log2 := log1 + [Squeeze(BzChallenge)];
    Mixer(Challenge(log, AzChallenge), Challenge(log1, BzChallenge), Challenge(log2, CzChallenge),
          log2 + [Squeeze(CzChallenge)])
  }

  function Mix3(a: F, x: F, b: F, y: F, c: F, z: F): F {
    Add(Add(Mul(a, x), Mul(b, y)), Mul(c, z))
  }

  /** Where phase one leaves the verifier: the point rx and the transcript with the claims appended. */
  function PhaseOne(proof: Proof, numCons: nat, inst: Instance, log: Log): Option<State> {
    var n := Log2(numCons);
    var log1 := log + Preamble(inst);
    var tau := Challenges(log1, Tau, n);
    match Verify(proof.phase1, 0, n, 3, log1 + Squeezes(Tau, n))
    case None => None
    case Some(sc) =>
      if RelaxedValue(inst.u, EqEval(sc.r, tau), proof.az, proof.bz, proof.cz, proof.evalError) != sc.e then None
      else Some(sc.(log := sc.log + PhaseOneClaims(proof.az, proof.bz, proof.cz, proof.evalError)))
  }

  /** The value of z at ry: the variables below, the constant u and the inputs above. */
  function EvalZ(inst: Instance, evalVars: F, ry: seq<F>): F
    requires ry != []
  {
    Add(Mul(Sub(1, ry[0]), evalVars), Mul(ry[0], EvaluateSparse(EntriesOf([inst.u] + inst.input), ry[1..])))
  }

  /** Phase two from the transcript after phase one: the point ry and the final transcript. */
  function PhaseTwo(proof: Proof, numVars: nat, inst: Instance, evals: (F, F, F), rx: seq<F>, log: Log)
    : Option<(seq<F>, Log)>
  {
    var m := Mixers(log);
    var claim := Mix3(m.a, proof.az, m.b, proof.bz, m.c, proof.cz);
    match Verify(proof.phase2, claim, Log2(2 * numVars), 2, m.log)
    case None => None
    case Some(sc) =>
      if sc.r == [] then None
      else
        match PCS.verify(inst.commW, proof.openVars, sc.r[1..], proof.evalVars, sc.log)
        case None => None
        case Some(log1) =>
          match PCS.verify(inst.commE, proof.openError, rx, proof.evalError, log1)
          case None => None
          case Some(log2) =>
            if Log2(numVars) != |sc.r| - 1 then None
            else if Mul(EvalZ(inst, proof.evalVars, sc.r), Mix3(m.a, evals.0, m.b, evals.1, m.c, evals.2)) != sc.e then None
            else Some((sc.r, log2))
  }

  datatype Accepted = Accepted(rx: seq<F>, ry: seq<F>, log: Log)

  function VerifyCrr1cs(proof: Proof, numVars: nat, numCons: nat, inst: Instance, evals: (F, F, F), log: Log)
    : Option<Accepted>
  {
    match PhaseOne(proof, numCons, inst, log)
    case None => None
    case Some(one) =>
      match PhaseTwo(proof, numVars, inst, evals, one.r, one.log)
      case None => None
      case Some((ry, log')) => Some(Accepted(one.r, ry, log'))
  }

  method AppendPreamble(inst: Instance, transcript: Transcript)
    modifies transcript
    ensures transcript.log == old(transcript.log) + Preamble(inst)
  {
    transcript.Append(Protocol(Crr1csName));
    transcript.Append(Scalars(Input, inst.input));
    transcript.Append(Scalar(Scaling, inst.u));
    transcript.Append(Commitment(CommitW, inst.commW));
    transcript.Append(Commitment(CommitE, inst.commE));
  }

  method AppendPhaseOneClaims(az: F, bz: F, cz: F, e: F, transcript: Transcript)
    modifies transcript
    ensures transcript.log == old(transcript.log) + PhaseOneClaims(az, bz, cz, e)
  {
    transcript.Append(Scalar(AzClaim, az));
    transcript.Append(Scalar(BzClaim, bz));
    transcript.Append(Scalar(CzClaim, cz));
    transcript.Append(Scalar(ErrorClaim, e));
  }

  method SqueezeMixers(transcript: Transcript) returns (a: F, b: F, c: F)
    modifies transcript
    ensures Mixers(old(transcript.log)) == Mixer(a, b, c, transcript.log)
  {
    a := transcript.ChallengeScalar(AzChallenge);
    b := transcript.ChallengeScalar(BzChallenge);
    c := transcript.ChallengeScalar(CzChallenge);
  }

  /** `CRR1CSProof::verify`; a failed assertion or opening is a None result. */
  method VerifyCrr1csProof(proof: Proof, numVars: nat, numCons: nat, inst: Instance, evals: (F, F, F),
                           transcript: Transcript)
    returns (result: Option<(seq<F>, seq<F>)>)
    modifies transcript
    ensures match VerifyCrr1cs(proof, numVars, numCons, inst, evals, old(transcript.log))
            case None => result == None
            case Some(a) => result == Some((a.rx, a.ry)) && transcript.log == a.log
  {
    hide Verify, Challenges, Squeezes, EqEval, RelaxedValue, Preamble, PhaseOneClaims, Mixers, Mix3, EvalZ, Log2;
    AppendPreamble(inst, transcript);
    var nx, ny := Log2(numCons), Log2(2 * numVars);
    var tau := transcript.ChallengeVector(Tau, nx);
    var one := VerifyProof(proof.phase1, 0, nx, 3, transcript);
    if one == None {
      return None;
    }
    var (e1, rx) := one.value;
    AppendPhaseOneClaims(proof.az, proof.bz, proof.cz, proof.evalError, transcript);
    if RelaxedValue(inst.u, EqEval(rx, tau), proof.az, proof.bz, proof.cz, proof.evalError) != e1 {
      return None;
    }
    var a, b, c := SqueezeMixers(transcript);
    var two := VerifyProof(proof.phase2, Mix3(a, proof.az, b, proof.bz, c, proof.cz), ny, 2, transcript);
    if two == None {
      return None;
    }
    var (e2, ry) := two.value;
    if ry == [] {
      return None;
    }
    var ok := Check(inst.commW, proof.openVars, ry[1..], proof.evalVars, transcript);
    if !ok {
      return None;
    }
    ok := Check(inst.commE, proof.openError, rx, proof.evalError, transcript);
    if !ok || Log2(numVars) != |ry| - 1 {
      return None;
    }
    if Mul(EvalZ(inst, proof.evalVars, ry), Mix3(a, evals.0, b, evals.1, c, evals.2)) != e2 {
      return None;
    }
    result := Some((rx, ry));
  }
}
