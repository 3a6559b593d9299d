/** Deterministic soundness of committed relaxed R1CS proofs (spartan/src/crr1csproof.rs).

    If the verifier accepts, and what it was told about the matrices, the witness and the error is true
    of some tables, then these tables satisfy the constraints - unless one of four explicit accidents
    happened, each of which a challenge drawn after the fact would have to hit. */
module Crr1csSoundness {
  import opened Wrappers
  import opened Field
  import opened Vectors
  import opened Powers
  import opened Multilinear
  import opened Transcript
  import opened Sumcheck
  import opened SumcheckVerifier
  import opened SumcheckProver
  import opened UnluckyPoints
  import opened Combiners
  import opened SparseMatrix
  import opened R1CS
  import opened Crr1csVerifier
  import opened Crr1csProver

  // ---- Sum-check on one instance ----

  lemma PointTotal(g: Combiner, Ts: Sumcheck.Instance, r: seq<F>, vs: seq<F>)
    requires Uniform(Ts, |r|) && |vs| == |Ts|
    requires forall j :: 0 <= j < |Ts| ==> vs[j] == Mle(Ts[j], r)
    ensures UniformBatch([Ts], |r|)
    ensures Total(g, [1], BindsAll([Ts], r, 0), 0) == g(vs)
  {
    hide Mle, BindsAll;
    TotalAtPoint(g, [1], [Ts], r, [vs]);
    var one := Each(g, [vs]);
    assert one == [g(vs)] && [1][..0] == [] && one[..0] == [];
    MulOne(g(vs));
    AddZero(g(vs));
  }

  lemma SoundUnlessCheated(run: Run, Ts: Sumcheck.Instance, vs: seq<F>)
    requires run.Accepting() && run.cs == [1] && run.Is == [Ts] && |vs| == |Ts| && Uniform(Ts, run.n)
    requires forall j :: 0 <= j < |Ts| ==> vs[j] == Mle(Ts[j], run.Challenges())
    requires Verify(run.messages, run.claim, run.n, run.degree, run.log).value.e == run.f(vs)
    ensures Cheated(run) || run.claim == HypercubeSum(run.f, Ts, run.n)
  {
    hide Mle, HypercubeSum, Verify;
    PointTotal(run.f, Ts, run.Challenges(), vs);
    TotalOfOne(run.f, Ts, run.n);
    if run.claim != HypercubeSum(run.f, Ts, run.n) {
      var i := run.Soundness();
    }
  }

  // ---- The four accidents ----

  /** A shape of power-of-two size with tables of matching size. */
  ghost predicate Matching(shape: R1CSInstance, inst: Crr1csVerifier.Instance, W: seq<F>, E: seq<F>, s: nat, v: nat) {
    && Shaped(shape, s, v) && |inst.input| == shape.numInputs
    && |W| == shape.numVars && |E| == shape.numCons
  }

  /** How far each constraint is from holding: (Az)[i] * (Bz)[i] - u * (Cz)[i] - E[i]. */
  ghost function Residual(u: F, Az: Table, Bz: Table, Cz: Table, E: Table): (T: Table)
    requires |Az| == |Bz| == |Cz| == |E|
    ensures |T| == |E|
  {
    seq<F>(|E|, i requires 0 <= i < |E| => Sub(Sub(Mul(Az[i], Bz[i]), Mul(u, Cz[i])), E[i]))
  }

  lemma ResidualIsZero(a: F, b: F, c: F, u: F, e: F)
    ensures Sub(Sub(Mul(a, b), Mul(u, c)), e) == 0 <==> Mul(a, b) == Add(Mul(u, c), e)
  {
    var x, y := Mul(a, b), Mul(u, c);
    SubIsZero(Sub(x, y), e);
    Reorder(x, y, e);
  }

  lemma Reorder(x: F, y: F, e: F)
    ensures Sub(x, y) == e <==> x == Add(y, e)
  {
    AddSub(y, x);
    if x == Add(y, e) {
      SubOfSum(y, e);
    }
  }

  lemma RelaxedColumn(u: F, tau: Table, Az: Table, Bz: Table, Cz: Table, E: Table, Ts: Sumcheck.Instance, n: nat, i: nat)
    requires |tau| == |Az| == |Bz| == |Cz| == |E| == Pow2(n) && i < |E|
    requires Ts == [tau, Az, Bz, Cz, E] && Uniform(Ts, n)
    ensures Relaxed(u)(Column(Ts, i)) == Mul(Residual(u, Az, Bz, Cz, E)[i], tau[i])
  {
    assert Column(Ts, i) == [tau[i], Az[i], Bz[i], Cz[i], E[i]];
  }

  lemma {:induction false} PhaseOneUpTo(u: F, tau: Table, Az: Table, Bz: Table, Cz: Table, E: Table, R: Table,
                                        Ts: Sumcheck.Instance, n: nat, k: nat)
    requires |tau| == |Az| == |Bz| == |Cz| == |E| == Pow2(n) && k <= |E|
    requires Ts == [tau, Az, Bz, Cz, E] && Uniform(Ts, n) && R == Residual(u, Az, Bz, Cz, E)
    ensures PartialSum(Relaxed(u), Ts, k) == Dot(R[..k], tau[..k])
    decreases k
  {
    hide Residual, Column, Relaxed;
    if k > 0 {
      var i := k - 1;
      PhaseOneUpTo(u, tau, Az, Bz, Cz, E, R, Ts, n, i);
      RelaxedColumn(u, tau, Az, Bz, Cz, E, Ts, n, i);
      assert R[..k][..i] == R[..i] && tau[..k][..i] == tau[..i];
    }
  }

  /** The sum of phase one is the inner product of the residual with the eq table. */
  lemma PhaseOneDot(u: F, tau: Table, Az: Table, Bz: Table, Cz: Table, E: Table, n: nat)
    requires |tau| == |Az| == |Bz| == |Cz| == |E| == Pow2(n)
    ensures Uniform([tau, Az, Bz, Cz, E], n)
    ensures HypercubeSum(Relaxed(u), [tau, Az, Bz, Cz, E], n) == Dot(Residual(u, Az, Bz, Cz, E), tau)
  {
    hide Dot, HypercubeSum, Residual, PartialSum;
    var Ts, R := [tau, Az, Bz, Cz, E], Residual(u, Az, Bz, Cz, E);
    PhaseOneUpTo(u, tau, Az, Bz, Cz, E, R, Ts, n, |E|);
    assert R[..|E|] == R && tau[..|E|] == tau;
    PartialSumIsHypercubeSum(Relaxed(u), Ts, n);
  }

  /** Everything an accepted proof fixes: the two points, the challenges before them, the claims. */
  datatype Transcribed = Transcribed(tau: seq<F>, rx: seq<F>, ry: seq<F>, log1: Log, mixer: Mixer)

  ghost function Follow(proof: Crr1csVerifier.Proof, numCons: nat, inst: Crr1csVerifier.Instance, a: Accepted, log: Log): Transcribed
    requires PhaseOne(proof, numCons, inst, log).Some?
  {
    var n, log1 := Log2(numCons), log + Preamble(inst);
    Transcribed(Challenges(log1, Tau, n), a.rx, a.ry, log1 + Squeezes(Tau, n), Mixers(PhaseOne(proof, numCons, inst, log).value.log))
  }

  /** The sum-check of phase one, as a claim about the true tables. */
  ghost function RunOne(proof: Crr1csVerifier.Proof, u: F, t: Transcribed, Az: Table, Bz: Table, Cz: Table, E: Table, s: nat): Run {
    Run(Relaxed(u), [1], [[EqTable(t.tau), Az, Bz, Cz, E]], s, proof.phase1, 0, 3, t.log1)
  }

  /** The sum-check of phase two, as a claim about the true tables. */
  ghost function RunTwo(proof: Crr1csVerifier.Proof, t: Transcribed, z: Table, T: Table, v: nat): Run {
    var m := t.mixer;
    Run(Product2, [1], [[z, T]], v + 1, proof.phase2, Mix3(m.a, proof.az, m.b, proof.bz, m.c, proof.cz), 2, m.log)
  }

  /** The claims of phase one are wrong, but their mixed value is right. */
  ghost predicate UnluckyMixer(m: Mixer, az: F, bz: F, cz: F, a: F, b: F, c: F) {
    && (az != a || bz != b || cz != c)
    && Mix3(m.a, az, m.b, bz, m.c, cz) == Mix3(m.a, a, m.b, b, m.c, c)
  }

  /** An unlucky mixer pins each of its challenges, given the other two: at most one value does it. */
  lemma MixerIsPinned(x: F, x': F, az: F, a: F, rest: F, rest': F)
    requires az != a
    requires Add(Mul(x, az), rest) == Add(Mul(x, a), rest') && Add(Mul(x', az), rest) == Add(Mul(x', a), rest')
    ensures x == x'
  {
    Difference(x, az, a, rest, rest');
    Difference(x', az, a, rest, rest');
    var d := Sub(az, a);
    SubIsZero(az, a);
    MulCommutes(x, d);
    MulCommutes(x', d);
    DistributesSub(d, x, x');
    SubIsZero(Mul(d, x), Mul(d, x'));
    NoZeroDivisors(d, Sub(x, x'));
    SubIsZero(x, x');
  }

  lemma Difference(x: F, az: F, a: F, rest: F, rest': F)
    requires Add(Mul(x, az), rest) == Add(Mul(x, a), rest')
    ensures Mul(x, Sub(az, a)) == Sub(rest', rest)
  {
    DistributesSub(x, az, a);
    Transpose(Mul(x, az), rest, Mul(x, a), rest');
  }

  lemma Transpose(p: F, r: F, q: F, r': F)
    requires Add(p, r) == Add(q, r')
    ensures Sub(p, q) == Sub(r', r)
  {
    AddThenSub(p, r);
    AddThenSubBoth(q, r', r);
  }

  lemma AddThenSubBoth(q: F, r': F, r: F)
    ensures Sub(Sub(Add(q, r'), r), q) == Sub(r', r)
  {
    SubAdd(Add(q, r'), r, q);
    AddCommutes(r, q);
    SubCancels(q, r', r);
  }

  // ---- Soundness ----

  /** What an accepted proof shows phase by phase. */
  lemma AcceptedPhases(proof: Crr1csVerifier.Proof, numVars: nat, numCons: nat, inst: Crr1csVerifier.Instance,
                       evals: (F, F, F), a: Accepted, log: Log)
    requires VerifyCrr1cs(proof, numVars, numCons, inst, evals, log) == Some(a)
    ensures PhaseOne(proof, numCons, inst, log).Some?
    ensures var t := Follow(proof, numCons, inst, a, log);
            && |t.tau| == |t.rx| == Log2(numCons) && t.ry != []
            && var one := Verify(proof.phase1, 0, Log2(numCons), 3, t.log1);
               var two := Verify(proof.phase2, Mix3(t.mixer.a, proof.az, t.mixer.b, proof.bz, t.mixer.c, proof.cz),
                                 Log2(2 * numVars), 2, t.mixer.log);
               && one.Some? && one.value.r == t.rx
               && one.value.e == RelaxedValue(inst.u, EqEval(t.rx, t.tau), proof.az, proof.bz, proof.cz, proof.evalError)
               && two.Some? && two.value.r == t.ry
               && two.value.e == Mul(EvalZ(inst, proof.evalVars, t.ry),
                                     Mix3(t.mixer.a, evals.0, t.mixer.b, evals.1, t.mixer.c, evals.2))
  {
    hide Verify, Log2, Challenges, Squeezes, Mixers, EvalZ, RelaxedValue, EqEval, Mix3, Preamble;
  }

  /** Phase two: its claim is true of the matrices, unless a round was deceived. */
  lemma PhaseTwoSound(proof: Crr1csVerifier.Proof, shape: R1CSInstance, inst: Crr1csVerifier.Instance, W: seq<F>,
                      t: Transcribed, z: Table, T: Table, v: nat)
    requires |W| == Pow2(v) && |inst.input| < |W| && z == Extended(W, inst.u, inst.input) && |t.ry| == v + 1
    requires Sized(shape, t.rx, |z|) && T == MixedTable(shape, t.rx, |z|, t.mixer.a, t.mixer.b, t.mixer.c)
    requires RunTwo(proof, t, z, T, v).Accepting() && RunTwo(proof, t, z, T, v).Challenges() == t.ry
    requires |z| == Pow2(|t.ry|) && proof.evalVars == Mle(W, t.ry[1..])
    requires var evals, run := MatrixValues(shape, t.rx, t.ry), RunTwo(proof, t, z, T, v);
             Verify(run.messages, run.claim, run.n, run.degree, run.log).value.e
             == Mul(EvalZ(inst, proof.evalVars, t.ry), Mix3(t.mixer.a, evals.0, t.mixer.b, evals.1, t.mixer.c, evals.2))
    ensures || Cheated(RunTwo(proof, t, z, T, v))
            || Mix3(t.mixer.a, proof.az, t.mixer.b, proof.bz, t.mixer.c, proof.cz)
               == Mix3(t.mixer.a, Mle(Times(shape.A, Pow2(|t.rx|), z), t.rx),
                       t.mixer.b, Mle(Times(shape.B, Pow2(|t.rx|), z), t.rx),
                       t.mixer.c, Mle(Times(shape.C, Pow2(|t.rx|), z), t.rx))
  {
    hide Mle, HypercubeSum, Verify, EvalZ, Mix3, MixedTable, EvaluateAt, Extended, Times, EqTable, Cheated;
    var run, Ts, m := RunTwo(proof, t, z, T, v), [z, T], t.mixer;
    EvalZIsMle(inst, W, t.ry);
    MixedTableAt(shape, t.rx, t.ry, m.a, m.b, m.c);
    PhaseTwoSum(shape, t.rx, z, v + 1, m.a, m.b, m.c);
    SoundUnlessCheated(run, Ts, [Mle(z, t.ry), Mle(T, t.ry)]);
  }

  /** Phase one: the residual vanishes at tau, unless a round was deceived. */
  lemma PhaseOneSound(proof: Crr1csVerifier.Proof, u: F, t: Transcribed, Az: Table, Bz: Table, Cz: Table, E: Table, s: nat)
    requires |Az| == |Bz| == |Cz| == |E| == Pow2(s) && |t.tau| == |t.rx| == s
    requires RunOne(proof, u, t, Az, Bz, Cz, E, s).Accepting() && RunOne(proof, u, t, Az, Bz, Cz, E, s).Challenges() == t.rx
    requires proof.az == Mle(Az, t.rx) && proof.bz == Mle(Bz, t.rx) && proof.cz == Mle(Cz, t.rx) && proof.evalError == Mle(E, t.rx)
    requires var run := RunOne(proof, u, t, Az, Bz, Cz, E, s);
             Verify(run.messages, run.claim, run.n, run.degree, run.log).value.e
             == RelaxedValue(u, EqEval(t.rx, t.tau), proof.az, proof.bz, proof.cz, proof.evalError)
    ensures Cheated(RunOne(proof, u, t, Az, Bz, Cz, E, s)) || Mle(Residual(u, Az, Bz, Cz, E), t.tau) == 0
  {
    hide Mle, HypercubeSum, Verify, EqTable, EqEval, RelaxedValue, Cheated, Residual, Dot;
    var run, T := RunOne(proof, u, t, Az, Bz, Cz, E, s), EqTable(t.tau);
    MleEqTable(t.tau, t.rx);
    EqEvalCommutes(t.tau, t.rx);
    PhaseOneDot(u, T, Az, Bz, Cz, E, s);
    MleIsDot(Residual(u, Az, Bz, Cz, E), t.tau);
    SoundUnlessCheated(run, [T, Az, Bz, Cz, E], [Mle(T, t.rx), proof.az, proof.bz, proof.cz, proof.evalError]);
  }

  /** The true tables of a witness: z, the three products, and the mixed matrix table of phase two. */
  datatype Truth = Truth(z: Table, Az: Table, Bz: Table, Cz: Table, T: Table)

  ghost function TruthOf(shape: R1CSInstance, inst: Crr1csVerifier.Instance, W: seq<F>, t: Transcribed): Truth
    requires |inst.input| < |W| && Sized(shape, t.rx, 2 * |W|)
  {
    var z, n := Extended(W, inst.u, inst.input), Pow2(|t.rx|);
    Truth(z, Times(shape.A, n, z), Times(shape.B, n, z), Times(shape.C, n, z),
          MixedTable(shape, t.rx, |z|, t.mixer.a, t.mixer.b, t.mixer.c))
  }

  /** One of the four accidents. */
  ghost predicate Accident(proof: Crr1csVerifier.Proof, inst: Crr1csVerifier.Instance, E: Table, t: Transcribed, true_: Truth, s: nat, v: nat)
    requires |true_.Az| == |true_.Bz| == |true_.Cz| == |E| == Pow2(|t.rx|)
  {
    || Cheated(RunOne(proof, inst.u, t, true_.Az, true_.Bz, true_.Cz, E, s))
    || Cheated(RunTwo(proof, t, true_.z, true_.T, v))
    || UnluckyPoint(Residual(inst.u, true_.Az, true_.Bz, true_.Cz, E), t.tau)
    || UnluckyMixer(t.mixer, proof.az, proof.bz, proof.cz, Mle(true_.Az, t.rx), Mle(true_.Bz, t.rx), Mle(true_.Cz, t.rx))
  }

  /** The conclusion: the witness satisfies the constraints, or there was an accident. */
  ghost predicate SatisfiedOrAccident(proof: Crr1csVerifier.Proof, shape: R1CSInstance, inst: Crr1csVerifier.Instance,
                                      W: seq<F>, E: seq<F>, s: nat, v: nat, t: Transcribed)
  {
    && Matching(shape, inst, W, E, s, v) && |t.rx| == s && Sized(shape, t.rx, 2 * |W|)
    && (|| Satisfied(shape, W + [inst.u] + inst.input, inst.u, E)
        || Accident(proof, inst, E, t, TruthOf(shape, inst, W, t), s, v))
  }

  /** A residual of zero everywhere means the constraints hold. */
  lemma ZeroResidualSatisfies(shape: R1CSInstance, W: seq<F>, u: F, input: seq<F>, E: seq<F>)
    requires shape.InRange() && |W| == shape.numVars && |input| == shape.numInputs < |W| && |E| == shape.numCons
    requires InRange(shape.A, shape.numCons, 2 * |W|) && InRange(shape.B, shape.numCons, 2 * |W|) && InRange(shape.C, shape.numCons, 2 * |W|)
    requires var z, n := Extended(W, u, input), shape.numCons;
             var R := Residual(u, Times(shape.A, n, z), Times(shape.B, n, z), Times(shape.C, n, z), E);
             forall i :: 0 <= i < |R| ==> R[i] == 0
    ensures Satisfied(shape, W + [u] + input, u, E)
  {
    hide Times;
    var z, z', n := W + [u] + input, Extended(W, u, input), shape.numCons;
    TimesOfPadded(shape.A, n, z, z');
    TimesOfPadded(shape.B, n, z, z');
    TimesOfPadded(shape.C, n, z, z');
    var Az, Bz, Cz := Times(shape.A, n, z), Times(shape.B, n, z), Times(shape.C, n, z);
    var R := Residual(u, Az, Bz, Cz, E);
    forall i | 0 <= i < n
      ensures Mul(Az[i], Bz[i]) == Add(Mul(u, Cz[i]), E[i])
    {
      assert R[i] == 0;
      ResidualIsZero(Az[i], Bz[i], Cz[i], u, E[i]);
    }
  }

  lemma SizedShape(shape: R1CSInstance, s: nat, v: nat, rx: seq<F>)
    requires Shaped(shape, s, v) && |rx| == s
    ensures Sized(shape, rx, 2 * shape.numVars)
  {
  }

  /** Soundness of the committed relaxed R1CS proof, for every transcript and every prover. */
  lemma Soundness(proof: Crr1csVerifier.Proof, shape: R1CSInstance, inst: Crr1csVerifier.Instance, W: seq<F>, E: seq<F>,
                  s: nat, v: nat, a: Accepted, log: Log)
    requires Matching(shape, inst, W, E, s, v)
    requires |a.rx| == s && |a.ry| == v + 1 && Sized(shape, a.rx, Pow2(|a.ry|))
    requires proof.evalVars == Mle(W, a.ry[1..]) && proof.evalError == Mle(E, a.rx)
    requires VerifyCrr1cs(proof, shape.numVars, shape.numCons, inst, MatrixValues(shape, a.rx, a.ry), log) == Some(a)
    ensures PhaseOne(proof, shape.numCons, inst, log).Some?
    ensures SatisfiedOrAccident(proof, shape, inst, W, E, s, v, Follow(proof, shape.numCons, inst, a, log))
  {
    hide VerifyCrr1cs, PhaseOne, MatrixValues, Log2, Verify, Mle, EvalZ, Mix3, RelaxedValue, EqEval, Mixers, Challenges, Squeezes;
    AcceptedPhases(proof, shape.numVars, shape.numCons, inst, MatrixValues(shape, a.rx, a.ry), a, log);
    Log2OfPow2(s);
    Log2OfPow2(v + 1);
    SizedShape(shape, s, v, a.rx);
    var t := Follow(proof, shape.numCons, inst, a, log);
    assert t.rx == a.rx && t.ry == a.ry;
    SoundFrom(proof, shape, inst, W, E, s, v, t);
  }

  lemma SoundFrom(proof: Crr1csVerifier.Proof, shape: R1CSInstance, inst: Crr1csVerifier.Instance, W: seq<F>, E: seq<F>,
                  s: nat, v: nat, t: Transcribed)
    requires Matching(shape, inst, W, E, s, v)
    requires |t.tau| == |t.rx| == s && |t.ry| == v + 1 && Sized(shape, t.rx, Pow2(|t.ry|)) && Sized(shape, t.rx, 2 * |W|)
    requires proof.evalVars == Mle(W, t.ry[1..]) && proof.evalError == Mle(E, t.rx)
    requires var one := Verify(proof.phase1, 0, s, 3, t.log1);
             && one.Some? && one.value.r == t.rx
             && one.value.e == RelaxedValue(inst.u, EqEval(t.rx, t.tau), proof.az, proof.bz, proof.cz, proof.evalError)
    requires var two := Verify(proof.phase2, Mix3(t.mixer.a, proof.az, t.mixer.b, proof.bz, t.mixer.c, proof.cz), v + 1, 2, t.mixer.log);
             var evals := MatrixValues(shape, t.rx, t.ry);
             && two.Some? && two.value.r == t.ry
             && two.value.e == Mul(EvalZ(inst, proof.evalVars, t.ry),
                                   Mix3(t.mixer.a, evals.0, t.mixer.b, evals.1, t.mixer.c, evals.2))
    ensures SatisfiedOrAccident(proof, shape, inst, W, E, s, v, t)
  {
    hide Verify, Mle, Times, EvalZ, Mix3, RelaxedValue, EqEval, EqTable, MixedTable, MatrixValues, Extended, Cheated, Satisfied, Residual;
    var tr, u := TruthOf(shape, inst, W, t), inst.u;
    var R := Residual(u, tr.Az, tr.Bz, tr.Cz, E);
    PhaseTwoSound(proof, shape, inst, W, t, tr.z, tr.T, v);
    if proof.az == Mle(tr.Az, t.rx) && proof.bz == Mle(tr.Bz, t.rx) && proof.cz == Mle(tr.Cz, t.rx) {
      PhaseOneSound(proof, u, t, tr.Az, tr.Bz, tr.Cz, E, s);
      if forall i :: 0 <= i < |R| ==> R[i] == 0 {
        ZeroResidualSatisfies(shape, W, u, inst.input, E);
      }
    }
  }
}
