/** R1CS instances and (relaxed) satisfiability (spartan/src/r1csinstance.rs, spartan/src/crr1cs.rs). */
module R1CS {
  import opened Field
  import opened Vectors
  import opened Powers
  import opened SparseMatrix

  datatype R1CSInstance = R1CSInstance(numCons: nat, numVars: nat, numInputs: nat, A: Matrix, B: Matrix, C: Matrix)
  {
    ghost predicate InRange() {
      && SparseMatrix.InRange(A, numCons, numVars + 1 + numInputs)
      && SparseMatrix.InRange(B, numCons, numVars + 1 + numInputs)
      && SparseMatrix.InRange(C, numCons, numVars + 1 + numInputs)
    }
  }

  /** A shape whose sizes are powers of two and leave room for inputs (asserted by `R1CSInstance::new`). */
  ghost predicate Shaped(shape: R1CSInstance, s: nat, v: nat) {
    shape.InRange() && shape.numCons == Pow2(s) && shape.numVars == Pow2(v) && shape.numInputs < shape.numVars
  }

  datatype Outcome = Answer(sat: bool) | InvalidNumberOfInputs | Panic

  /** Zero-pads to at least n entries (`Assignment::pad`, `Vec::resize`). */
  function Pad(v: seq<F>, n: nat): (p: seq<F>)
    ensures |p| == if n > |v| then n else |v|
  {
    if n > |v| then v + Zeros(n - |v|) else v
  }

  /** Every constraint holds: (Az)[i] * (Bz)[i] = u * (Cz)[i] + E[i]. */
  ghost predicate Satisfied(inst: R1CSInstance, z: seq<F>, u: F, E: seq<F>)
    requires inst.InRange() && |z| == inst.numVars + 1 + inst.numInputs && |E| == inst.numCons
  {
    var Az, Bz, Cz := Times(inst.A, inst.numCons, z), Times(inst.B, inst.numCons, z), Times(inst.C, inst.numCons, z);
    forall i :: 0 <= i < inst.numCons ==> Mul(Az[i], Bz[i]) == Add(Mul(u, Cz[i]), E[i])
  }

  /** `relaxed_r1cs_is_sat`. */
  method RelaxedIsSat(inst: R1CSInstance, input: seq<F>, u: F, W: seq<F>, E: seq<F>) returns (out: Outcome)
    requires inst.InRange()
    ensures |W| > inst.numVars || |input| != inst.numInputs ==> out == InvalidNumberOfInputs
    ensures |W| <= inst.numVars && |input| == inst.numInputs && |E| > inst.numCons ==> out == Panic
    ensures |W| <= inst.numVars && |input| == inst.numInputs && |E| <= inst.numCons ==>
              out == Answer(Satisfied(inst, Pad(W, inst.numVars) + [u] + input, u, Pad(E, inst.numCons)))
  {
    hide Times;
    if |W| > inst.numVars || |input| != inst.numInputs {
      return InvalidNumberOfInputs;
    }
    var E' := Pad(E, inst.numCons);
    var z := Pad(W, inst.numVars) + [u] + input;
    var Az := MultiplyVec(inst.A, inst.numCons, z);
    var Bz := MultiplyVec(inst.B, inst.numCons, z);
    var Cz := MultiplyVec(inst.C, inst.numCons, z);
    if |E'| != inst.numCons {
      return Panic;
    }
    var failures := 0;
    for i := 0 to inst.numCons
      invariant failures >= 0
      invariant failures == 0 <==> forall k :: 0 <= k < i ==> Mul(Az[k], Bz[k]) == Add(Mul(u, Cz[k]), E'[k])
    {
      if Mul(Az[i], Bz[i]) != Add(Mul(u, Cz[i]), E'[i]) {
        failures := failures + 1;
      }
    }
    out := Answer(failures == 0);
  }

  lemma PlainRow(a: F, b: F, c: F)
    ensures Mul(a, b) == c <==> Mul(a, b) == Add(Mul(1, c), 0)
  {
    MulOne(c);
    AddZero(c);
  }

  /** `R1CSInstance::is_sat`: the plain relation is the relaxed one with u = 1 and no error. */
  method IsSat(inst: R1CSInstance, vars: seq<F>, input: seq<F>) returns (sat: bool)
    requires inst.InRange() && |vars| == inst.numVars && |input| == inst.numInputs
    ensures sat == Satisfied(inst, vars + [1] + input, 1, Zeros(inst.numCons))
  {
    hide Times;
    var z := vars + [1] + input;
    var Az := MultiplyVec(inst.A, inst.numCons, z);
    var Bz := MultiplyVec(inst.B, inst.numCons, z);
    var Cz := MultiplyVec(inst.C, inst.numCons, z);
    var failures := 0;
    for i := 0 to inst.numCons
      invariant failures >= 0
      invariant failures == 0 <==> forall k :: 0 <= k < i ==> Mul(Az[k], Bz[k]) == Add(Mul(1, Cz[k]), Zeros(inst.numCons)[k])
    {
      PlainRow(Az[i], Bz[i], Cz[i]);
      if Mul(Az[i], Bz[i]) != Cz[i] {
        failures := failures + 1;
      }
    }
    sat := failures == 0;
  }
}
