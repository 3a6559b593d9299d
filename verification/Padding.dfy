/** Building a padded R1CS instance (`Instance::new` in spartan/src/lib.rs). */
module Padding {
  import opened Field
  import opened Vectors
  import opened Powers
  import opened SparseMatrix
  import opened R1CS

  datatype Result = Built(inst: R1CSInstance) | InvalidIndex

  function PaddedVars(numVars: nat, numInputs: nat): nat {
    NextPow2(if numVars < numInputs + 1 then numInputs + 1 else numVars)
  }

  function PaddedCons(numCons: nat): nat {
    if NextPow2(numCons) != numCons then NextPow2(numCons)
    else if numCons == 0 || numCons == 1 then 2
    else numCons
  }

  /** The column of an entry once the variables are padded. */
  function Shift(col: nat, numVars: nat, padded: nat): nat
    requires numVars <= padded
  {
    if col >= numVars then col + padded - numVars else col
  }

  function Shifted(M: Matrix, numVars: nat, padded: nat): (S: Matrix)
    requires numVars <= padded
    ensures |S| == |M|
  {
    seq(|M|, i requires 0 <= i < |M| => M[i].(col := Shift(M[i].col, numVars, padded)))
  }

  /** The zero entries (from, col), (from + 1, col), ..., (to - 1, col). */
  function Dummies(from: nat, to: nat, col: nat): Matrix {
    if from < to then seq(to - from, i requires 0 <= i < to - from => Entry(from + i, col, 0)) else []
  }

  function PaddedMatrix(M: Matrix, numCons: nat, numVars: nat, numInputs: nat): Matrix
    requires numVars <= PaddedVars(numVars, numInputs)
  {
    Shifted(M, numVars, PaddedVars(numVars, numInputs))
    + (if numCons <= 1 then Dummies(|M|, PaddedCons(numCons), numVars) else [])
  }

  lemma PaddedSizes(numCons: nat, numVars: nat, numInputs: nat)
    ensures PaddedVars(numVars, numInputs) >= numVars && PaddedVars(numVars, numInputs) > numInputs
    ensures PaddedCons(numCons) >= numCons && PaddedCons(numCons) >= 1
    ensures IsPow2(PaddedVars(numVars, numInputs)) && IsPow2(PaddedCons(numCons))
  {
    NextPow2IsLeast(if numVars < numInputs + 1 then numInputs + 1 else numVars);
    NextPow2IsLeast(numCons);
    assert Pow2(1) == 2;
  }

  /** The range checks and column shifts of one matrix. */
  method ShiftMatrix(M: Matrix, numCons: nat, numVars: nat, numInputs: nat, varsPadded: nat) returns (ok: bool, mat: Matrix)
    requires numVars <= varsPadded
    ensures ok <==> InRange(M, numCons, numVars + 1 + numInputs)
    ensures ok ==> mat == Shifted(M, numVars, varsPadded)
  {
    mat := [];
    for i := 0 to |M|
      invariant InRange(M[..i], numCons, numVars + 1 + numInputs)
      invariant mat == Shifted(M[..i], numVars, varsPadded)
    {
      var e := M[i];
      if e.row >= numCons || e.col >= numVars + 1 + numInputs {
        return false, [];
      }
      if e.col >= numVars {
        mat := mat + [Entry(e.row, e.col + varsPadded - numVars, e.val)];
      } else {
        mat := mat + [e];
      }
      assert forall j :: 0 <= j < i + 1 ==> M[..i + 1][j] == M[j];
    }
    assert M[..|M|] == M;
    ok := true;
  }

  /** `bytes_to_scalar`: checks and shifts the entries, then adds the dummy ones. */
  method PadMatrix(M: Matrix, numCons: nat, numVars: nat, numInputs: nat, varsPadded: nat, consPadded: nat)
    returns (ok: bool, mat: Matrix)
    requires numVars <= PaddedVars(numVars, numInputs) == varsPadded && consPadded == PaddedCons(numCons)
    ensures ok <==> InRange(M, numCons, numVars + 1 + numInputs)
    ensures ok ==> mat == PaddedMatrix(M, numCons, numVars, numInputs)
  {
    hide InRange;
    ok, mat := ShiftMatrix(M, numCons, numVars, numInputs, varsPadded);
    if ok && numCons <= 1 && |M| < consPadded {
      ghost var before := mat;
      for i := |M| to consPadded
        invariant mat == before + Dummies(|M|, i, numVars)
      {
        mat := mat + [Entry(i, numVars, 0)];
      }
    }
  }

  /** `Instance::new`. */
  method NewInstance(orig: R1CSInstance) returns (r: Result)
    ensures r.Built? <==> orig.InRange()
    ensures r.Built? ==> r.inst == Padded(orig)
  {
    var numCons, numVars, numInputs := orig.numCons, orig.numVars, orig.numInputs;
    PaddedSizes(numCons, numVars, numInputs);
    hide PaddedVars, PaddedCons, PaddedMatrix, InRange;
    var varsPadded, consPadded := PaddedVars(numVars, numInputs), PaddedCons(numCons);
    var okA, A := PadMatrix(orig.A, numCons, numVars, numInputs, varsPadded, consPadded);
    if !okA {
      return InvalidIndex;
    }
    var okB, B := PadMatrix(orig.B, numCons, numVars, numInputs, varsPadded, consPadded);
    if !okB {
      return InvalidIndex;
    }
    var okC, C := PadMatrix(orig.C, numCons, numVars, numInputs, varsPadded, consPadded);
    if !okC {
      return InvalidIndex;
    }
    r := Built(R1CSInstance(consPadded, varsPadded, numInputs, A, B, C));
  }

  function Padded(orig: R1CSInstance): R1CSInstance {
    PaddedSizes(orig.numCons, orig.numVars, orig.numInputs);
    R1CSInstance(PaddedCons(orig.numCons), PaddedVars(orig.numVars, orig.numInputs), orig.numInputs,
                 PaddedMatrix(orig.A, orig.numCons, orig.numVars, orig.numInputs),
                 PaddedMatrix(orig.B, orig.numCons, orig.numVars, orig.numInputs),
                 PaddedMatrix(orig.C, orig.numCons, orig.numVars, orig.numInputs))
  }

  lemma PaddedInRange(M: Matrix, numCons: nat, numVars: nat, numInputs: nat)
    requires InRange(M, numCons, numVars + 1 + numInputs) && numVars <= PaddedVars(numVars, numInputs)
    ensures InRange(PaddedMatrix(M, numCons, numVars, numInputs), PaddedCons(numCons),
                    PaddedVars(numVars, numInputs) + 1 + numInputs)
  {
    PaddedSizes(numCons, numVars, numInputs);
    hide PaddedVars, PaddedCons;
  }

  /** The instance built has power-of-two sizes, more variables than inputs, and its entries in range, as
      `R1CSInstance::new` asserts. */
  lemma PaddedIsShaped(orig: R1CSInstance)
    requires orig.InRange()
    ensures exists s: nat, v: nat :: Shaped(Padded(orig), s, v)
  {
    PaddedSizes(orig.numCons, orig.numVars, orig.numInputs);
    PaddedInRange(orig.A, orig.numCons, orig.numVars, orig.numInputs);
    PaddedInRange(orig.B, orig.numCons, orig.numVars, orig.numInputs);
    PaddedInRange(orig.C, orig.numCons, orig.numVars, orig.numInputs);
    hide PaddedVars, PaddedCons, PaddedMatrix;
    var s: nat :| Padded(orig).numCons == Pow2(s);
    var v: nat :| Padded(orig).numVars == Pow2(v);
    assert Shaped(Padded(orig), s, v);
  }

  /** The sizes are the least ones: every power of two that holds the variables and exceeds the inputs is at least the
      padded number of variables, and every one that holds the constraints at least the padded number of constraints,
      save that a single constraint is padded to two. */
  lemma SizesAreLeast(orig: R1CSInstance, k: nat)
    ensures IsPow2(Padded(orig).numVars) && orig.numVars <= Padded(orig).numVars && orig.numInputs < Padded(orig).numVars
    ensures orig.numVars <= Pow2(k) && orig.numInputs < Pow2(k) ==> Padded(orig).numVars <= Pow2(k)
    ensures IsPow2(Padded(orig).numCons) && orig.numCons <= Padded(orig).numCons
    ensures orig.numCons != 1 && orig.numCons <= Pow2(k) ==> Padded(orig).numCons <= Pow2(k)
    ensures orig.numCons == 1 ==> Padded(orig).numCons == 2
    ensures Padded(orig).numInputs == orig.numInputs
  {
    PaddedSizes(orig.numCons, orig.numVars, orig.numInputs);
    assert NextPow2(0) == 1 && NextPow2(1) == 1;
    if orig.numVars <= Pow2(k) && orig.numInputs < Pow2(k) {
      NoSmallerPower(if orig.numVars < orig.numInputs + 1 then orig.numInputs + 1 else orig.numVars, k);
    }
    if orig.numCons <= Pow2(k) {
      NoSmallerPower(orig.numCons, k);
    }
  }

  /** Every entry of a padded matrix: the original ones in order, with the columns behind the variables moved up, and
      then, for at most one constraint, a zero at the constant's old column for every row that has no entry yet. */
  lemma EntriesOfPadded(M: Matrix, orig: R1CSInstance, i: nat)
    requires M == orig.A || M == orig.B || M == orig.C
    ensures var P, k := Padded(orig), Padded(orig).numVars - orig.numVars;
            var N := if M == orig.A then P.A else if M == orig.B then P.B else P.C;
            && k >= 0
            && |N| == (if orig.numCons <= 1 && |M| < P.numCons then P.numCons else |M|)
            && (i < |M| ==> N[i].row == M[i].row && N[i].val == M[i].val
                            && N[i].col == if M[i].col < orig.numVars then M[i].col else M[i].col + k)
            && (|M| <= i < |N| ==> N[i] == Entry(i, orig.numVars, 0))
  {
    PaddedSizes(orig.numCons, orig.numVars, orig.numInputs);
    hide PaddedVars, PaddedCons;
  }

  // ---- Padding preserves the products ----

  /** z' is z with the entries from numVars on moved up to padded. */
  ghost predicate Stretched(z: seq<F>, z': seq<F>, numVars: nat, padded: nat) {
    && numVars <= padded && numVars <= |z| && |z'| == |z| + padded - numVars
    && forall c :: 0 <= c < |z| ==> z'[Shift(c, numVars, padded)] == z[c]
  }

  lemma {:induction false} TimesShifted(M: Matrix, rows: nat, rows': nat, z: seq<F>, z': seq<F>, numVars: nat, padded: nat)
    requires rows <= rows' && Stretched(z, z', numVars, padded) && InRange(M, rows, |z|)
    ensures InRange(Shifted(M, numVars, padded), rows', |z'|)
    ensures Times(Shifted(M, numVars, padded), rows', z') == Times(M, rows, z) + Zeros(rows' - rows)
  {
    if M != [] {
      var n := |M| - 1;
      TimesShifted(M[..n], rows, rows', z, z', numVars, padded);
      assert Shifted(M, numVars, padded)[..n] == Shifted(M[..n], numVars, padded);
    }
  }

  lemma {:induction false} TimesDummies(M: Matrix, D: Matrix, rows: nat, z: seq<F>)
    requires InRange(M, rows, |z|) && InRange(D, rows, |z|)
    requires forall i :: 0 <= i < |D| ==> D[i].val == 0
    ensures Times(M + D, rows, z) == Times(M, rows, z)
  {
    if D == [] {
      assert M + D == M;
    } else {
      var n := |D| - 1;
      var e, v := D[n], Times(M, rows, z);
      TimesDummies(M, D[..n], rows, z);
      assert (M + D)[..|M| + n] == M + D[..n];
      MulZero(z[e.col]);
      AddZero(v[e.row]);
    }
  }

  lemma StretchedLength(z: seq<F>, z': seq<F>, numVars: nat, padded: nat)
    requires Stretched(z, z', numVars, padded)
    ensures |z'| == |z| + padded - numVars
  {
  }

  lemma DummiesInRange(from: nat, to: nat, col: nat, cols: nat)
    requires col < cols
    ensures InRange(Dummies(from, to, col), to, cols) && InRange([], to, cols)
    ensures forall i :: 0 <= i < |Dummies(from, to, col)| ==> Dummies(from, to, col)[i].val == 0
  {
  }

  lemma TimesPadded(M: Matrix, orig: R1CSInstance, z: seq<F>, z': seq<F>)
    requires InRange(M, orig.numCons, orig.numVars + 1 + orig.numInputs) && |z| == orig.numVars + 1 + orig.numInputs
    requires Stretched(z, z', orig.numVars, PaddedVars(orig.numVars, orig.numInputs))
    ensures var P := PaddedMatrix(M, orig.numCons, orig.numVars, orig.numInputs);
            && PaddedCons(orig.numCons) >= orig.numCons
            && InRange(P, PaddedCons(orig.numCons), |z'|)
            && Times(P, PaddedCons(orig.numCons), z') == Times(M, orig.numCons, z) + Zeros(PaddedCons(orig.numCons) - orig.numCons)
  {
    var rows, rows', k := orig.numCons, PaddedCons(orig.numCons), PaddedVars(orig.numVars, orig.numInputs);
    PaddedSizes(orig.numCons, orig.numVars, orig.numInputs);
    PaddedInRange(M, orig.numCons, orig.numVars, orig.numInputs);
    hide PaddedVars, PaddedCons, Times, Stretched;
    TimesShifted(M, rows, rows', z, z', orig.numVars, k);
    var D := if rows <= 1 then Dummies(|M|, rows', orig.numVars) else [];
    StretchedLength(z, z', orig.numVars, k);
    DummiesInRange(|M|, rows', orig.numVars, |z'|);
    hide Shifted, Dummies, InRange;
    TimesDummies(Shifted(M, orig.numVars, k), D, rows', z');
  }

  lemma ZeroRow(u: F)
    ensures Mul(0, 0) == Add(Mul(u, 0), 0)
  {
    MulZero(0);
    MulZero(u);
    AddZero(0);
  }

  lemma StretchedAssignment(vars: seq<F>, u: F, inputs: seq<F>, padded: nat)
    requires |vars| <= padded
    ensures Stretched(vars + [u] + inputs, Pad(vars, padded) + [u] + inputs, |vars|, padded)
  {
  }

  /** Padding preserves meaning. The padded instance is satisfied by the zero-padded variables (and error)
      if and only if the original one is by the original ones. With u = 1 and no error this is plain R1CS. */
  lemma PaddingPreservesSatisfaction(orig: R1CSInstance, vars: seq<F>, u: F, inputs: seq<F>, E: seq<F>)
    requires orig.InRange() && |vars| == orig.numVars && |inputs| == orig.numInputs && |E| == orig.numCons
    ensures var P := Padded(orig);
            && P.InRange() && |Pad(vars, P.numVars)| == P.numVars && |Pad(E, P.numCons)| == P.numCons
            && (Satisfied(P, Pad(vars, P.numVars) + [u] + inputs, u, Pad(E, P.numCons))
                <==> Satisfied(orig, vars + [u] + inputs, u, E))
  {
    hide Times, PaddedMatrix, PaddedVars, PaddedCons, Stretched, InRange, Satisfied;
    PaddedSizes(orig.numCons, orig.numVars, orig.numInputs);
    var P, z := Padded(orig), vars + [u] + inputs;
    var z' := Pad(vars, P.numVars) + [u] + inputs;
    StretchedAssignment(vars, u, inputs, P.numVars);
    TimesPadded(orig.A, orig, z, z');
    TimesPadded(orig.B, orig, z, z');
    TimesPadded(orig.C, orig, z, z');
    ZeroRow(u);
    SatisfiedPadded(orig, P, z, z', u, E);
  }

  lemma SatisfiedPadded(orig: R1CSInstance, P: R1CSInstance, z: seq<F>, z': seq<F>, u: F, E: seq<F>)
    requires orig.InRange() && P.InRange() && P.numCons >= orig.numCons && |E| == orig.numCons
    requires |z| == orig.numVars + 1 + orig.numInputs && |z'| == P.numVars + 1 + P.numInputs
    requires Times(P.A, P.numCons, z') == Times(orig.A, orig.numCons, z) + Zeros(P.numCons - orig.numCons)
    requires Times(P.B, P.numCons, z') == Times(orig.B, orig.numCons, z) + Zeros(P.numCons - orig.numCons)
    requires Times(P.C, P.numCons, z') == Times(orig.C, orig.numCons, z) + Zeros(P.numCons - orig.numCons)
    requires Mul(0, 0) == Add(Mul(u, 0), 0)
    ensures Satisfied(P, z', u, Pad(E, P.numCons)) <==> Satisfied(orig, z, u, E)
  {
    hide Times;
    var A, B, C := Times(orig.A, orig.numCons, z), Times(orig.B, orig.numCons, z), Times(orig.C, orig.numCons, z);
    var A', B', C' := Times(P.A, P.numCons, z'), Times(P.B, P.numCons, z'), Times(P.C, P.numCons, z');
    var E' := Pad(E, P.numCons);
    forall i | 0 <= i < orig.numCons
      ensures A'[i] == A[i] && B'[i] == B[i] && C'[i] == C[i] && E'[i] == E[i]
    {
    }
    forall i | orig.numCons <= i < P.numCons
      ensures A'[i] == 0 && B'[i] == 0 && C'[i] == 0 && E'[i] == 0
    {
    }
  }

  lemma SomeRow(M: Matrix, rows: nat, cols: nat)
    requires InRange(M, rows, cols) && M != []
    ensures rows > 0
  {
    assert M[0].row < rows;
  }

  lemma NoRows(M: Matrix, cols: nat)
    requires InRange(M, 0, cols)
    ensures M == []
  {
    if M != [] {
      SomeRow(M, 0, cols);
    }
  }

  /** An instance without constraints gets one dummy constraint, not two, and one entry per matrix. */
  lemma NoConstraints(orig: R1CSInstance)
    requires orig.InRange() && orig.numCons == 0
    ensures Padded(orig).numCons == 1
    ensures |Padded(orig).A| == |Padded(orig).B| == |Padded(orig).C| == 1
  {
    assert NextPow2(0) == 1;
    NoRows(orig.A, orig.numVars + 1 + orig.numInputs);
    NoRows(orig.B, orig.numVars + 1 + orig.numInputs);
    NoRows(orig.C, orig.numVars + 1 + orig.numInputs);
  }

  /** The promise of at least two constraints is kept exactly when there was one to begin with. */
  lemma AtLeastTwoConstraints(orig: R1CSInstance)
    requires orig.InRange()
    ensures Padded(orig).numCons >= 2 <==> orig.numCons != 0
  {
    NextPow2IsLeast(orig.numCons);
    assert NextPow2(0) == 1;
  }

  /** The padded matrices have enough entries for the evaluation proof exactly when there is one
      constraint or some original matrix has two entries. */
  lemma EnoughEntriesAfterPadding(orig: R1CSInstance)
    requires orig.InRange()
    ensures var P := Padded(orig);
            (|P.A| >= 2 || |P.B| >= 2 || |P.C| >= 2)
            <==> (orig.numCons == 1 || |orig.A| >= 2 || |orig.B| >= 2 || |orig.C| >= 2)
  {
    if orig.numCons == 0 {
      NoConstraints(orig);
      NoRows(orig.A, orig.numVars + 1 + orig.numInputs);
      NoRows(orig.B, orig.numVars + 1 + orig.numInputs);
      NoRows(orig.C, orig.numVars + 1 + orig.numInputs);
    } else if orig.numCons == 1 {
      assert PaddedCons(1) == 2;
    }
  }
}
