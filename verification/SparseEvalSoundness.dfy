/** Deterministic soundness of sparse matrix evaluation (spartan/src/sparse_mlpoly.rs).

    The matrices are committed honestly; the dereferenced tables are the prover's own. If the verifier accepts, the
    three joint values opened to it are true of these tables, and the lists behind them are cut where the source
    cuts them, then the evaluations are those of the matrices - unless one of the listed accidents happened. The
    source does not check the cuts, and `UncheckedLengths` shows what follows from that. */
module SparseEvalSoundness {
  import opened Wrappers
  import opened Field
  import opened Vectors
  import opened Powers
  import opened Multilinear
  import opened Transcript
  import opened Merging
  import opened Sumcheck
  import opened Combiners
  import opened ProductArgument
  import opened ProductProver
  import opened ProductSoundness
  import opened SparseMatrix
  import opened MemoryChecking
  import opened Fingerprint
  import opened SparseNetwork
  import opened SparseEvalVerifier
  import opened SparseEvalProver
  import opened Commitments
  import opened UnluckyPoints
  import opened JointOpenings

  // ---- Hashed tables with claimed values ----

  /** The accesses of one instance with claimed values. */
  ghost function Accesses(addr: seq<nat>, E: Table, ts: seq<nat>): (s: seq<Access>)
    requires |E| == |ts| == |addr|
    ensures |s| == |addr|
  {
    seq(|addr|, i requires 0 <= i < |addr| => Access(addr[i], E[i], ts[i]))
  }

  ghost function Reading(k: Keys, addr: seq<nat>, E: Table, ts: seq<nat>): (T: Table)
    requires |E| == |ts| == |addr|
    ensures |T| == |addr|
  {
    HashTable(k, OfAll(addr), E, OfAll(ts))
  }

  ghost function Writing(k: Keys, addr: seq<nat>, E: Table, ts: seq<nat>): (T: Table)
    requires |E| == |ts| == |addr|
    ensures |T| == |addr|
  {
    HashTable(k, OfAll(addr), E, Next(OfAll(ts)))
  }

  lemma TablesHashAccesses(k: Keys, addr: seq<nat>, E: Table, ts: seq<nat>)
    requires |E| == |ts| == |addr|
    ensures Reading(k, addr, E, ts) == Hashes(k, Accesses(addr, E, ts))
    ensures Writing(k, addr, E, ts) == Hashes(k, Writes(Accesses(addr, E, ts)))
  {
    hide Hash;
    OfRepresentative(1);
    forall i | 0 <= i < |ts|
      ensures Add(Of(ts[i]), 1) == Of(ts[i] + 1)
    {
      OfAdd(ts[i], 1);
    }
  }

  /** One memory with claimed values: a table for every instance. */
  ghost predicate Claimed(s: Stamped, E: seq<Table>, n: nat) {
    && |E| == |s.addr| == |s.ts|
    && forall b :: 0 <= b < |E| ==> |E[b]| == |s.addr[b]| == |s.ts[b]| == Pow2(n)
  }

  ghost function Readings(k: Keys, s: Stamped, E: seq<Table>, n: nat): (Ts: seq<Table>)
    requires Claimed(s, E, n)
    ensures |Ts| == |E| && Uniform(Ts, n)
  {
    seq<Table>(|E|, b requires 0 <= b < |E| => Reading(k, s.addr[b], E[b], s.ts[b]))
  }

  ghost function Writings(k: Keys, s: Stamped, E: seq<Table>, n: nat): (Ts: seq<Table>)
    requires Claimed(s, E, n)
    ensures |Ts| == |E| && Uniform(Ts, n)
  {
    seq<Table>(|E|, b requires 0 <= b < |E| => Writing(k, s.addr[b], E[b], s.ts[b]))
  }

  ghost function AllAccesses(s: Stamped, E: seq<Table>, n: nat): (ss: seq<seq<Access>>)
    requires Claimed(s, E, n)
    ensures |ss| == |E|
  {
    seq<seq<Access>>(|E|, b requires 0 <= b < |E| => Accesses(s.addr[b], E[b], s.ts[b]))
  }

  /** The subset check on true products is the product check of the memory. */
  lemma SetsMatchIsProductCheck(k: Keys, mem: Table, s: Stamped, E: seq<Table>, n: nat, c: Claims)
    requires Claimed(s, E, n) && |s.audit| == |mem|
    requires c == Claims(Prod(InitTable(k, mem)), ProductsOf(Readings(k, s, E, n)), ProductsOf(Writings(k, s, E, n)),
                         Prod(AuditTable(k, mem, s.audit)))
    requires SetsMatch(c, |E|)
    ensures ProductCheck(k, mem, Flat(AllAccesses(s, E, n)), s.audit)
  {
    hide Prod, Hashes, InitTable, AuditTable, Reading, Writing, Writes, Accesses;
    var ss := AllAccesses(s, E, n);
    var ws := seq<seq<Access>>(|ss|, b requires 0 <= b < |ss| => Writes(ss[b]));
    forall b | 0 <= b < |E|
      ensures c.taken[b] == Prod(Hashes(k, ss[b])) && c.written[b] == Prod(Hashes(k, ws[b]))
    {
      TablesHashAccesses(k, s.addr[b], E[b], s.ts[b]);
    }
    ProdOfBatch(k, ss, c.taken);
    ProdOfBatch(k, ws, c.written);
    WritesFlat(ss, ws);
    TablesAreHashes(k, mem, s.audit);
  }

  lemma {:induction false} FlatMember<T>(ss: seq<seq<T>>, b: nat, i: nat) returns (j: nat)
    requires b < |ss| && i < |ss[b]|
    ensures j < |Flat(ss)| && Flat(ss)[j] == ss[b][i]
  {
    var n := |ss| - 1;
    if b == n {
      j := |Flat(ss[..n])| + i;
    } else {
      j := FlatMember(ss[..n], b, i);
    }
  }

  /** A balanced memory means the claimed values are the dereferenced ones. */
  lemma BalancedMeansDeref(mem: Table, s: Stamped, E: seq<Table>, n: nat, b: nat)
    requires Claimed(s, E, n) && |s.audit| == |mem| && b < |E| && Addresses(s.addr[b], |mem|)
    requires Balanced(mem, Flat(AllAccesses(s, E, n)), s.audit)
    ensures E[b] == Deref(s.addr[b], mem)
  {
    hide Balanced;
    var ss := AllAccesses(s, E, n);
    forall i | 0 <= i < |E[b]|
      ensures E[b][i] == mem[s.addr[b][i]]
    {
      var j := FlatMember(ss, b, i);
      ReadsAreRight(mem, Flat(ss), s.audit, j);
    }
  }

  /** The product check passes although the memory is not balanced: the keys are among the few bad ones
      (`ProductCheckBalances`, `FewCollisions`). */
  ghost predicate UnluckyKeys(k: Keys, mem: Table, s: Stamped, E: seq<Table>, n: nat) {
    && Claimed(s, E, n) && |s.audit| == |mem|
    && ProductCheck(k, mem, Flat(AllAccesses(s, E, n)), s.audit)
    && !Balanced(mem, Flat(AllAccesses(s, E, n)), s.audit)
  }

  ghost predicate UnluckyAt(base: F, S: set<F>, mem: Table, s: Stamped, E: seq<Table>, n: nat) {
    forall t :: t in S ==> UnluckyKeys(Keys(base, t), mem, s, E, n)
  }

  /** How few: all but 2 * (2N)^2 bases have at most N unlucky points, where N counts the cells and the accesses. */
  lemma FewUnluckyKeys(mem: Table, s: Stamped, E: seq<Table>, n: nat, B: set<F>)
    requires Claimed(s, E, n) && |s.audit| == |mem| && FitsField(Involved(mem, Flat(AllAccesses(s, E, n)), s.audit))
    requires forall b :: b in B ==>
               exists S: set<F> :: |S| > |mem| + |Flat(AllAccesses(s, E, n))| && UnluckyAt(b, S, mem, s, E, n)
    ensures var N := |mem| + |Flat(AllAccesses(s, E, n))|;
            |B| <= 2 * (2 * N * (2 * N))
  {
    hide Balanced, ProductCheck, FitsField;
    var taken := Flat(AllAccesses(s, E, n));
    if B != {} {
      var b0 :| b0 in B;
      var S0: set<F> :| |S0| > |mem| + |taken| && UnluckyAt(b0, S0, mem, s, E, n);
      var t0 :| t0 in S0;
      assert UnluckyKeys(Keys(b0, t0), mem, s, E, n);
      forall b | b in B
        ensures PassesOften(b, mem, taken, s.audit)
      {
        var S: set<F> :| |S| > |mem| + |taken| && UnluckyAt(b, S, mem, s, E, n);
        assert PassesAt(b, S, mem, taken, s.audit);
      }
      FewUnluckyBases(mem, taken, s.audit, B);
    }
  }

  // ---- From opened values to claims about the hashed tables ----

  /** The values in the first entries of the lists are those of the tables. */
  ghost predicate TrueValues(s: Stamped, E: seq<Table>, randMem: seq<F>, randOps: seq<F>, v: Values, derefs: seq<F>) {
    && Claimed(s, E, |randOps|) && |s.audit| == Pow2(|randMem|)
    && |v.addr| <= |E| && |v.addr| <= |v.ts| && |v.addr| <= |derefs|
    && (forall b :: 0 <= b < |v.addr| ==>
          && v.addr[b] == Mle(OfAll(s.addr[b]), randOps) && v.ts[b] == Mle(OfAll(s.ts[b]), randOps)
          && derefs[b] == Mle(E[b], randOps))
    && v.audit == Mle(OfAll(s.audit), randMem)
  }

  /** The hash checks pin the claims of one memory to the hashed tables, as far as the list of addresses goes. */
  lemma HashesPinClaims(k: Keys, c: Claims, s: Stamped, E: seq<Table>, r: seq<F>, randMem: seq<F>, randOps: seq<F>, v: Values, derefs: seq<F>)
    requires TrueValues(s, E, randMem, randOps, v, derefs) && HashesMatch(k, c, randMem, derefs, v, r)
    ensures |s.audit| == Pow2(|r|)
    ensures c.init == Mle(InitTable(k, EqTable(r)), randMem) && c.audit == Mle(AuditTable(k, EqTable(r), s.audit), randMem)
    ensures forall b :: 0 <= b < |v.addr| ==>
              && c.taken[b] == Mle(Reading(k, s.addr[b], E[b], s.ts[b]), randOps)
              && c.written[b] == Mle(Writing(k, s.addr[b], E[b], s.ts[b]), randOps)
  {
    hide Mle, Hash, HashTable, EqTable, Identity, EqEval, InitTable, AuditTable;
    MemoryHashes(k, r, s.audit, randMem);
    forall b | 0 <= b < |v.addr|
      ensures c.taken[b] == Mle(Reading(k, s.addr[b], E[b], s.ts[b]), randOps)
      ensures c.written[b] == Mle(Writing(k, s.addr[b], E[b], s.ts[b]), randOps)
    {
      MleHash(k, OfAll(s.addr[b]), E[b], OfAll(s.ts[b]), randOps);
      MleHash(k, OfAll(s.addr[b]), E[b], Next(OfAll(s.ts[b])), randOps);
      MleNext(OfAll(s.ts[b]), randOps);
    }
  }

  /** With one address for every instance, all claims are pinned. */
  lemma AllClaimsPinned(k: Keys, c: Claims, s: Stamped, E: seq<Table>, r: seq<F>, randMem: seq<F>, randOps: seq<F>, v: Values, derefs: seq<F>)
    requires Claimed(s, E, |randOps|) && |r| == |randMem| && |s.audit| == Pow2(|r|)
    requires AllSized(OfAlls(s.addr), |randOps|) && AllSized(OfAlls(s.ts), |randOps|) && AllSized(E, |randOps|)
    requires v == ValuesOf(s, randMem, randOps) && derefs == EvalsAt(E, randOps)
    requires |c.taken| == |c.written| == |E| && HashesMatch(k, c, randMem, derefs, v, r)
    ensures c.init == Mle(InitTable(k, EqTable(r)), randMem) && c.audit == Mle(AuditTable(k, EqTable(r), s.audit), randMem)
    ensures ValuesAt(c.taken, Readings(k, s, E, |randOps|), randOps)
    ensures ValuesAt(c.written, Writings(k, s, E, |randOps|), randOps)
  {
    hide Mle, EqTable, InitTable, AuditTable, Reading, Writing, HashesMatch;
    forall b | 0 <= b < |E|
      ensures v.addr[b] == Mle(OfAll(s.addr[b]), randOps) && v.ts[b] == Mle(OfAll(s.ts[b]), randOps)
    {
      assert v.addr[b] == Mle(OfAlls(s.addr)[b], randOps) && v.ts[b] == Mle(OfAlls(s.ts)[b], randOps);
    }
    HashesPinClaims(k, c, s, E, r, randMem, randOps, v, derefs);
  }

  // ---- What an accepted proof shows ----

  /** The verifier's own intermediate results: the keys, and the outcomes of the two product arguments. */
  datatype Outcome = Outcome(k: Keys, log: Log, ops: Verified, mem: Verified)

  function ResultOf(o: Outcome): ProductLayerResult {
    ProductLayerResult(o.mem.claims, o.mem.rand, o.ops.claims, o.ops.dots, o.ops.rand, o.mem.log)
  }

  ghost predicate Shows(o: Outcome, proof: SparseEvalProof, evals: seq<F>, x: seq<F>, y: seq<F>, n: nat) {
    var p, h, m := proof.products, proof.hashes, |evals|;
    && SetsMatch(p.row, m) && SetsMatch(p.col, m) && HalvesMatch(p.left, p.right, evals)
    && VerifyBatch(p.ops, ProductClaims(p.row, p.col), Interleave(p.left, p.right, m), n, o.log) == Some(o.ops)
    && VerifyBatch(p.mem, MemoryClaims(p.row, p.col), [], |x|, o.ops.log) == Some(o.mem)
    && |o.mem.claims| == 4 && |o.ops.claims| == 4 * m && |o.ops.dots| == 3 * m
    && DotsMatch(o.ops.dots, h.rowDerefs, h.colDerefs, h.val)
    && HashesMatch(o.k, RowClaims(ResultOf(o), m), o.mem.rand, h.rowDerefs, h.row, x)
    && HashesMatch(o.k, ColClaims(ResultOf(o), m), o.mem.rand, h.colDerefs, h.col, y)
  }

  ghost function Known(v: Option<Verified>): Verified {
    if v.Some? then v.value else NOTHING
  }

  const NOTHING := Verified([], [], [], [])

  /** These results as a function of the proof and the transcript. */
  ghost function OutcomeOf(proof: SparseEvalProof, evals: seq<F>, cells: nat, n: nat, log: Log): Outcome {
    var log1, p, m := log + SparseEvalLog(proof), proof.products, |evals|;
    if m > |p.left| || m > |p.right| then Outcome(KeysOf(log1), log1, NOTHING, NOTHING)
    else
      var log2 := log1 + Squeezes(HashChallenge, 2) + [Protocol(SparseEvalName)] + ProductLayerLog(p, m);
      var ops := Known(VerifyBatch(p.ops, ProductClaims(p.row, p.col), Interleave(p.left, p.right, m), n, log2));
      Outcome(KeysOf(log1), log2, ops, Known(VerifyBatch(p.mem, MemoryClaims(p.row, p.col), [], cells, ops.log)))
  }

  lemma Accepted(proof: SparseEvalProof, c: Committed, rx: seq<F>, ry: seq<F>, evals: seq<F>, log: Log, n: nat)
    requires VerifySparseEval(proof, c, rx, ry, evals, log).Some? && c.numOps == Pow2(n)
    ensures var (x, y) := Equalize(rx, ry);
            var o := OutcomeOf(proof, evals, |x|, n, log);
            Shows(o, proof, evals, x, y, n) && VerifyOpenings(proof.hashes, c, proof.derefs, o.mem.rand, o.ops.rand, o.mem.log).Some?
  {
    hide VerifyBatch, SetsMatch, VerifyOpenings, HashesMatch, DotsMatch, Equalize, Interleave, ProductClaims, MemoryClaims,
         ProductLayerLog, Challenges, Squeezes, RowClaims, ColClaims, NextPow2, Log2, Pow2;
    Log2OfPow2(n);
    Log2OfPow2(|Equalize(rx, ry).0|);
  }

  lemma PointOf(proof: BatchProof, products: seq<F>, values: seq<F>, n: nat, log: Log, v: Verified)
    requires VerifyBatch(proof, products, values, n, log) == Some(v)
    ensures |v.rand| == n && |v.claims| == |products|
  {
    hide VerifyLayers;
    var b := Batch(proof, products, values, n, log, [], []);
    assert proof.layers[..n] == proof.layers;
    b.Shape(n);
  }

  // ---- Soundness ----

  /** Matrices committed through their dense form d, and the tables the prover committed to as derefs. */
  ghost predicate Setting(Ms: seq<Matrix>, d: Dense, n: nat, x: seq<F>, y: seq<F>, rowE: seq<Table>, colE: seq<Table>) {
    && n >= 1 && |x| == |y| >= 1 && DenseOf(d, Ms, n, |x|)
    && Claimed(d.row, rowE, n) && Claimed(d.col, colE, n) && |rowE| == |colE| == |Ms|
  }

  /** All the hashed operation tables, with the claimed values. */
  ghost function OperationTables(k: Keys, d: Dense, rowE: seq<Table>, colE: seq<Table>, n: nat): (Ts: seq<Table>)
    requires Claimed(d.row, rowE, n) && Claimed(d.col, colE, n)
    ensures |Ts| == 2 * |rowE| + 2 * |colE| && Uniform(Ts, n)
  {
    Readings(k, d.row, rowE, n) + Writings(k, d.row, rowE, n) + Readings(k, d.col, colE, n) + Writings(k, d.col, colE, n)
  }

  ghost function OpsBatch(o: Outcome, p: ProductLayerProof, m: nat, d: Dense, rowE: seq<Table>, colE: seq<Table>, n: nat): Batch
    requires Claimed(d.row, rowE, n) && Claimed(d.col, colE, n) && |rowE| == |colE| == |d.val|
    requires m <= |p.left| && m <= |p.right|
  {
    Batch(p.ops.(dots := Trim(p.ops.dots)), ProductClaims(p.row, p.col), Interleave(p.left, p.right, m), n, o.log,
          OperationTables(o.k, d, rowE, colE, n), Halves(DotsOf(rowE, colE, d.val)))
  }

  ghost function MemBatch(o: Outcome, p: ProductLayerProof, d: Dense, x: seq<F>, y: seq<F>): Batch
    requires Fits(d.row, EqTable(x)) && Fits(d.col, EqTable(y))
  {
    Batch(p.mem.(dots := Trim(p.mem.dots)), MemoryClaims(p.row, p.col), [], |x|, o.ops.log, MemTables(o.k, EqTable(x), EqTable(y), d), [])
  }

  /** The claims of the operation circuits are the values of the hashed tables. */
  lemma OpsClaimsTrue(o: Outcome, proof: SparseEvalProof, evals: seq<F>, x: seq<F>, y: seq<F>, n: nat, d: Dense,
                      rowE: seq<Table>, colE: seq<Table>)
    requires Shows(o, proof, evals, x, y, n) && |o.ops.rand| == n && |x| == |y| == |o.mem.rand|
    requires Claimed(d.row, rowE, n) && Claimed(d.col, colE, n) && |rowE| == |colE| == |evals|
    requires HonestValues(proof.hashes, d, rowE, colE, o.mem.rand, o.ops.rand)
    ensures ValuesAt(o.ops.claims, OperationTables(o.k, d, rowE, colE, n), o.ops.rand)
    ensures Fits(d.row, EqTable(x)) && Fits(d.col, EqTable(y)) ==>
              ValuesAt(o.mem.claims, MemTables(o.k, EqTable(x), EqTable(y), d), o.mem.rand)
  {
    hide Mle, HashesMatch, SetsMatch, HalvesMatch, VerifyBatch, DotsMatch, EqTable, InitTable, AuditTable, EvalsAt, OfAlls,
         Readings, Writings, Interleave, ValuesAt, OperationTables, RowClaims, ColClaims, Claimed, Fits, MemTables;
    var m, h, R := |evals|, proof.hashes, ResultOf(o);
    var row, col, r := RowClaims(R, m), ColClaims(R, m), o.ops.rand;
    ClaimsOf(R, m);
    AllClaimsPinned(o.k, row, d.row, rowE, x, o.mem.rand, r, h.row, h.rowDerefs);
    AllClaimsPinned(o.k, col, d.col, colE, y, o.mem.rand, r, h.col, h.colDerefs);
    OperationValues(o.k, d, rowE, colE, n, row, col, r);
    if Fits(d.row, EqTable(x)) && Fits(d.col, EqTable(y)) {
      FourValues(o, d, x, y, row, col);
    }
  }

  lemma ClaimsOf(R: ProductLayerResult, m: nat)
    requires |R.mem| == 4 && |R.ops| == 4 * m
    ensures var row, col := RowClaims(R, m), ColClaims(R, m);
            && |row.taken| == |row.written| == |col.taken| == |col.written| == m
            && R.ops == row.taken + row.written + col.taken + col.written
            && R.mem == [row.init, row.audit] + [col.init, col.audit]
  {
  }

  lemma OperationValues(k: Keys, d: Dense, rowE: seq<Table>, colE: seq<Table>, n: nat, row: Claims, col: Claims, r: seq<F>)
    requires Claimed(d.row, rowE, n) && Claimed(d.col, colE, n) && |r| == n
    requires ValuesAt(row.taken, Readings(k, d.row, rowE, n), r) && ValuesAt(row.written, Writings(k, d.row, rowE, n), r)
    requires ValuesAt(col.taken, Readings(k, d.col, colE, n), r) && ValuesAt(col.written, Writings(k, d.col, colE, n), r)
    ensures ValuesAt(row.taken + row.written + col.taken + col.written, OperationTables(k, d, rowE, colE, n), r)
  {
    hide ValuesAt, Readings, Writings, Claimed;
    var A, B, C, D := Readings(k, d.row, rowE, n), Writings(k, d.row, rowE, n), Readings(k, d.col, colE, n), Writings(k, d.col, colE, n);
    ValuesAppend(row.taken, A, row.written, B, r);
    ValuesAppend(row.taken + row.written, A + B, col.taken, C, r);
    ValuesAppend(row.taken + row.written + col.taken, A + B + C, col.written, D, r);
  }

  lemma FourValues(o: Outcome, d: Dense, x: seq<F>, y: seq<F>, row: Claims, col: Claims)
    requires |x| == |y| == |o.mem.rand| && Fits(d.row, EqTable(x)) && Fits(d.col, EqTable(y))
    requires o.mem.claims == [row.init, row.audit] + [col.init, col.audit]
    requires row.init == Mle(InitTable(o.k, EqTable(x)), o.mem.rand) && row.audit == Mle(AuditTable(o.k, EqTable(x), d.row.audit), o.mem.rand)
    requires col.init == Mle(InitTable(o.k, EqTable(y)), o.mem.rand) && col.audit == Mle(AuditTable(o.k, EqTable(y), d.col.audit), o.mem.rand)
    ensures ValuesAt(o.mem.claims, MemTables(o.k, EqTable(x), EqTable(y), d), o.mem.rand)
  {
    hide Mle, EqTable, InitTable, AuditTable;
  }

  /** The claims about the halves of the dot products are wrong, but joined at the challenge they are right. */
  ghost predicate UnluckyHalves(o: Outcome, p: ProductLayerProof, ds: seq<DotCircuit>) {
    o.ops.rand != [] && DotEvals(o.ops.dots, ds, o.ops.rand) && !DotsAt(Trim(p.ops.dots), Halves(ds), o.ops.rand[1..])
  }

  lemma HalvesAreLines(d: DotClaims, ds: seq<DotCircuit>, t: F, r: seq<F>, i: nat)
    requires |d.left| == |d.right| == |d.weight| == 2 * |ds| && i < |ds| && DotEvals(CombineDots(d, |ds|, t), ds, [t] + r)
    ensures var a, b := LeftHalf(ds[i]), RightHalf(ds[i]);
            && |a.left| == |a.right| == |a.weight| == |b.left| == |b.right| == |b.weight| == Pow2(|r|)
            && Interp(d.left[2 * i], d.left[2 * i + 1], t) == Interp(Mle(a.left, r), Mle(b.left, r), t)
            && Interp(d.right[2 * i], d.right[2 * i + 1], t) == Interp(Mle(a.right, r), Mle(b.right, r), t)
            && Interp(d.weight[2 * i], d.weight[2 * i + 1], t) == Interp(Mle(a.weight, r), Mle(b.weight, r), t)
  {
    hide CombineDots, Lo, Hi, Interp, Pow2;
    CombineDotsEntry(d, |ds|, t, i);
    assert DotEval(CombineDots(d, |ds|, t), i, ds[i], [t] + r);
    assert ([t] + r)[1..] == r;
    MleStep(ds[i].left, [t] + r);
    MleStep(ds[i].right, [t] + r);
    MleStep(ds[i].weight, [t] + r);
  }

  lemma WrongHalf(d: DotClaims, ds: seq<DotCircuit>, r: seq<F>) returns (i: nat)
    requires |d.left| == |d.right| == |d.weight| == 2 * |ds| && DotsUniform(Halves(ds), |r|) && !DotsAt(d, Halves(ds), r)
    ensures i < |ds|
    ensures var a, b := LeftHalf(ds[i]), RightHalf(ds[i]);
            && |a.left| == |a.right| == |a.weight| == |b.left| == |b.right| == |b.weight| == Pow2(|r|)
            && (|| d.left[2 * i] != Mle(a.left, r) || d.left[2 * i + 1] != Mle(b.left, r)
                || d.right[2 * i] != Mle(a.right, r) || d.right[2 * i + 1] != Mle(b.right, r)
                || d.weight[2 * i] != Mle(a.weight, r) || d.weight[2 * i + 1] != Mle(b.weight, r))
  {
    hide Mle, Interleave, LeftHalf, RightHalf, Pow2;
    var hs := Halves(ds);
    assert Uniform(Lefts(hs), |r|) && Uniform(Rights(hs), |r|) && Uniform(Weights(hs), |r|);
    var q :| 0 <= q < 2 * |ds| && (d.left[q] != Mle(hs[q].left, r) || d.right[q] != Mle(hs[q].right, r) || d.weight[q] != Mle(hs[q].weight, r));
    i := q / 2;
    InterleaveEntry(FirstHalves(ds), SecondHalves(ds), |ds|, i);
    assert hs[2 * i] == LeftHalf(ds[i]) && hs[2 * i + 1] == RightHalf(ds[i]);
    assert |hs[2 * i].left| == |hs[2 * i + 1].left| == Pow2(|r|);
  }

  /** Wrong halves are hidden by one joining challenge at most, given the point below. */
  lemma OneUnluckyHalves(d: DotClaims, ds: seq<DotCircuit>, t: F, t': F, r: seq<F>)
    requires |d.left| == |d.right| == |d.weight| == 2 * |ds| && DotsUniform(Halves(ds), |r|) && !DotsAt(d, Halves(ds), r)
    requires DotEvals(CombineDots(d, |ds|, t), ds, [t] + r) && DotEvals(CombineDots(d, |ds|, t'), ds, [t'] + r)
    ensures t == t'
  {
    hide Mle, CombineDots, LeftHalf, RightHalf, Halves, DotsAt, DotEvals, Interp, Pow2;
    var i := WrongHalf(d, ds, r);
    var a, b := LeftHalf(ds[i]), RightHalf(ds[i]);
    HalvesAreLines(d, ds, t, r, i);
    HalvesAreLines(d, ds, t', r, i);
    if d.left[2 * i] != Mle(a.left, r) || d.left[2 * i + 1] != Mle(b.left, r) {
      LinesMeetOnce(d.left[2 * i], d.left[2 * i + 1], Mle(a.left, r), Mle(b.left, r), t, t');
    } else if d.right[2 * i] != Mle(a.right, r) || d.right[2 * i + 1] != Mle(b.right, r) {
      LinesMeetOnce(d.right[2 * i], d.right[2 * i + 1], Mle(a.right, r), Mle(b.right, r), t, t');
    } else {
      LinesMeetOnce(d.weight[2 * i], d.weight[2 * i + 1], Mle(a.weight, r), Mle(b.weight, r), t, t');
    }
  }

  /** Something went wrong in the product argument of the operations. */
  ghost predicate OpsAccident(o: Outcome, p: ProductLayerProof, m: nat, d: Dense, rowE: seq<Table>, colE: seq<Table>, n: nat) {
    && Claimed(d.row, rowE, n) && Claimed(d.col, colE, n) && |rowE| == |colE| == |d.val| && m <= |p.left| && m <= |p.right|
    && (|| UnluckyHalves(o, p, DotsOf(rowE, colE, d.val))
        || (OpsBatch(o, p, m, d, rowE, colE, n).Valid() && exists i: nat :: OpsBatch(o, p, m, d, rowE, colE, n).AccidentAt(i)))
  }

  /** Something went wrong in the product argument of the memories. */
  ghost predicate MemAccident(o: Outcome, p: ProductLayerProof, d: Dense, x: seq<F>, y: seq<F>) {
    && Fits(d.row, EqTable(x)) && Fits(d.col, EqTable(y))
    && MemBatch(o, p, d, x, y).Valid() && exists i: nat :: MemBatch(o, p, d, x, y).AccidentAt(i)
  }

  /** Everything that can go wrong after the openings. */
  ghost predicate NetworkAccident(o: Outcome, proof: SparseEvalProof, m: nat, d: Dense, x: seq<F>, y: seq<F>, rowE: seq<Table>,
                                  colE: seq<Table>, n: nat)
  {
    || OpsAccident(o, proof.products, m, d, rowE, colE, n)
    || MemAccident(o, proof.products, d, x, y)
    || UnluckyKeys(o.k, EqTable(x), d.row, rowE, n)
    || UnluckyKeys(o.k, EqTable(y), d.col, colE, n)
  }

  lemma DotsAreEvals(dots: seq<F>, rows: seq<Table>, cols: seq<Table>, vals: seq<Table>, r: seq<F>)
    requires |rows| == |cols| == |vals| && AllSized(rows, |r|) && AllSized(cols, |r|) && AllSized(vals, |r|)
    requires DotsMatch(dots, EvalsAt(rows, r), EvalsAt(cols, r), EvalsAt(vals, r))
    ensures DotEvals(dots, DotsOf(rows, cols, vals), r)
  {
    hide Mle;
    var ds := DotsOf(rows, cols, vals);
    forall i | 0 <= i < |rows|
      ensures DotEval(dots, i, ds[i], r)
    {
      assert EvalsAt(rows, r)[i] == Mle(rows[i], r);
      assert EvalsAt(cols, r)[i] == Mle(cols[i], r);
      assert EvalsAt(vals, r)[i] == Mle(vals[i], r);
    }
  }

  /** True products give the four products of each memory. */
  lemma ProductsByMemory(k: Keys, d: Dense, x: seq<F>, y: seq<F>, rowE: seq<Table>, colE: seq<Table>, n: nat, row: Claims, col: Claims)
    requires Claimed(d.row, rowE, n) && Claimed(d.col, colE, n) && |rowE| == |colE|
    requires Fits(d.row, EqTable(x)) && Fits(d.col, EqTable(y))
    requires |row.taken| == |row.written| == |col.taken| == |col.written| == |rowE|
    requires ProductClaims(row, col) == ProductsOf(OperationTables(k, d, rowE, colE, n))
    requires MemoryClaims(row, col) == ProductsOf(MemTables(k, EqTable(x), EqTable(y), d))
    ensures row == Claims(Prod(InitTable(k, EqTable(x))), ProductsOf(Readings(k, d.row, rowE, n)), ProductsOf(Writings(k, d.row, rowE, n)),
                          Prod(AuditTable(k, EqTable(x), d.row.audit)))
    ensures col == Claims(Prod(InitTable(k, EqTable(y))), ProductsOf(Readings(k, d.col, colE, n)), ProductsOf(Writings(k, d.col, colE, n)),
                          Prod(AuditTable(k, EqTable(y), d.col.audit)))
  {
    hide Prod, EqTable, InitTable, AuditTable, Readings, Writings;
    var A, B, C, D := Readings(k, d.row, rowE, n), Writings(k, d.row, rowE, n), Readings(k, d.col, colE, n), Writings(k, d.col, colE, n);
    ProductsAppend(A, B);
    ProductsAppend(A + B, C);
    ProductsAppend(A + B + C, D);
    var m := |rowE|;
    FourSlices(row.taken, row.written, col.taken, col.written, ProductClaims(row, col), m);
    FourSlices(ProductsOf(A), ProductsOf(B), ProductsOf(C), ProductsOf(D), ProductsOf(OperationTables(k, d, rowE, colE, n)), m);
    var v := ProductsOf(MemTables(k, EqTable(x), EqTable(y), d));
    assert v[0] == row.init && v[1] == row.audit && v[2] == col.init && v[3] == col.audit;
  }

  /** True dot products add up to the claimed evaluations. */
  lemma EvalsAreDots(left: seq<F>, right: seq<F>, evals: seq<F>, ds: seq<DotCircuit>, n: nat, b: nat)
    requires n >= 1 && DotsUniform(ds, n) && |ds| == |evals| && HalvesMatch(left, right, evals) && b < |ds|
    requires DotsUniform(Halves(ds), n - 1) && Interleave(left, right, |evals|) == DotValues(Halves(ds), n - 1)
    ensures evals[b] == DotValue(ds[b], n)
  {
    hide DotValue, Interleave;
    var hs, m := Halves(ds), |evals|;
    InterleaveEntry(left, right, m, b);
    InterleaveEntry(FirstHalves(ds), SecondHalves(ds), m, b);
    HalvesOfDot(ds[b], n);
    assert DotValues(hs, n - 1)[2 * b] == DotValue(hs[2 * b], n - 1);
    assert DotValues(hs, n - 1)[2 * b + 1] == DotValue(hs[2 * b + 1], n - 1);
  }

  /** An accepted proof, its outcome, and opened values that are true of the tables. */
  ghost predicate Truthful(o: Outcome, proof: SparseEvalProof, evals: seq<F>, Ms: seq<Matrix>, d: Dense, x: seq<F>, y: seq<F>,
                           rowE: seq<Table>, colE: seq<Table>, n: nat)
  {
    && Setting(Ms, d, n, x, y, rowE, colE) && |evals| == |Ms| >= 1
    && Shows(o, proof, evals, x, y, n) && |o.ops.rand| == n && |o.mem.rand| == |x|
    && HonestValues(proof.hashes, d, rowE, colE, o.mem.rand, o.ops.rand)
    && Fits(d.row, EqTable(x)) && Fits(d.col, EqTable(y))
  }

  lemma DotsOfClaims(d: Dense, rowE: seq<Table>, colE: seq<Table>, n: nat)
    requires Claimed(d.row, rowE, n) && Claimed(d.col, colE, n) && |rowE| == |colE| == |d.val| && AllSized(d.val, n) && n >= 1
    ensures DotsUniform(DotsOf(rowE, colE, d.val), n) && DotsUniform(Halves(DotsOf(rowE, colE, d.val)), n - 1)
  {
    hide Interleave, DotValue;
    var ds := DotsOf(rowE, colE, d.val);
    HalvesUniform(ds, n);
    var a, b := FirstHalves(ds), SecondHalves(ds);
    var l := seq<F>(|ds|, i requires 0 <= i < |ds| => DotValue(a[i], n - 1));
    var r := seq<F>(|ds|, i requires 0 <= i < |ds| => DotValue(b[i], n - 1));
    InterleavedValues(a, b, l, r, |ds|, n - 1);
  }

  /** The claimed products are those of the hashed tables, the claimed halves those of the dot products. */
  ghost predicate OpsHold(o: Outcome, p: ProductLayerProof, m: nat, d: Dense, rowE: seq<Table>, colE: seq<Table>, n: nat) {
    && n >= 1 && Claimed(d.row, rowE, n) && Claimed(d.col, colE, n) && |rowE| == |colE| == |d.val| && m <= |p.left| && m <= |p.right|
    && DotsUniform(Halves(DotsOf(rowE, colE, d.val)), n - 1)
    && ProductClaims(p.row, p.col) == ProductsOf(OperationTables(o.k, d, rowE, colE, n))
    && Interleave(p.left, p.right, m) == DotValues(Halves(DotsOf(rowE, colE, d.val)), n - 1)
  }

  /** The operation products and the dot products are true, or there was an accident. */
  lemma OpsTrue(o: Outcome, proof: SparseEvalProof, evals: seq<F>, Ms: seq<Matrix>, d: Dense, x: seq<F>, y: seq<F>,
                rowE: seq<Table>, colE: seq<Table>, n: nat)
    requires Truthful(o, proof, evals, Ms, d, x, y, rowE, colE, n)
    ensures || OpsAccident(o, proof.products, |evals|, d, rowE, colE, n)
            || OpsHold(o, proof.products, |evals|, d, rowE, colE, n)
  {
    hide VerifyBatch, SetsMatch, HashesMatch, EqTable, Interleave, ProductClaims, MemoryClaims, ValuesAt, DotsAt, DotEvals,
         OperationTables, ProductsOf, DotValues, EvalsAt, MemTables, RowClaims, ColClaims, Fits, HonestStamps, UnluckyKeys, Halves,
         DotsMatch, OpsAccident, OpsHold;
    var p := proof.products;
    DotsOfClaims(d, rowE, colE, n);
    OpsClaimsTrue(o, proof, evals, x, y, n, d, rowE, colE);
    DotsAreEvals(o.ops.dots, rowE, colE, d.val, o.ops.rand);
    OpsTrueFrom(o, p, |evals|, d, rowE, colE, n);
  }

  lemma OpsTrueFrom(o: Outcome, p: ProductLayerProof, m: nat, d: Dense, rowE: seq<Table>, colE: seq<Table>, n: nat)
    requires n >= 1 && Claimed(d.row, rowE, n) && Claimed(d.col, colE, n) && |rowE| == |colE| == |d.val| == m
    requires m <= |p.left| && m <= |p.right| && |o.ops.rand| == n
    requires DotsUniform(Halves(DotsOf(rowE, colE, d.val)), n - 1) && DotEvals(o.ops.dots, DotsOf(rowE, colE, d.val), o.ops.rand)
    requires VerifyBatch(p.ops, ProductClaims(p.row, p.col), Interleave(p.left, p.right, m), n, o.log) == Some(o.ops)
    requires ValuesAt(o.ops.claims, OperationTables(o.k, d, rowE, colE, n), o.ops.rand)
    ensures || OpsAccident(o, p, m, d, rowE, colE, n)
            || OpsHold(o, p, m, d, rowE, colE, n)
  {
    hide VerifyBatch, Interleave, ProductClaims, ValuesAt, DotsAt, DotEvals, OperationTables, ProductsOf, DotValues, Halves,
         Batch.Valid, Batch.AccidentAt, Trim, Claimed, Uniform, DotsUniform;
    var ds, r, values := DotsOf(rowE, colE, d.val), o.ops.rand, Interleave(p.left, p.right, m);
    TrimmedBatch(p.ops, ProductClaims(p.row, p.col), values, n, o.log, o.ops, m);
    if DotsAt(Trim(p.ops.dots), Halves(ds), r[1..]) {
      PointOf(p.ops, ProductClaims(p.row, p.col), values, n, o.log, o.ops);
      SameLength(o.ops.claims, OperationTables(o.k, d, rowE, colE, n), r);
      ProductSoundness.Soundness(OpsBatch(o, p, m, d, rowE, colE, n), o.ops);
    } else {
      assert UnluckyHalves(o, p, ds);
    }
  }

  /** The memory products are true, or there was an accident. */
  lemma MemTrue(o: Outcome, proof: SparseEvalProof, evals: seq<F>, Ms: seq<Matrix>, d: Dense, x: seq<F>, y: seq<F>,
                rowE: seq<Table>, colE: seq<Table>, n: nat)
    requires Truthful(o, proof, evals, Ms, d, x, y, rowE, colE, n)
    ensures || MemAccident(o, proof.products, d, x, y)
            || MemoryClaims(proof.products.row, proof.products.col) == ProductsOf(MemTables(o.k, EqTable(x), EqTable(y), d))
  {
    hide VerifyBatch, SetsMatch, HashesMatch, EqTable, Interleave, ProductClaims, ValuesAt, DotsAt, DotEvals,
         OperationTables, ProductsOf, DotValues, EvalsAt, RowClaims, ColClaims, HonestStamps, UnluckyKeys, Halves,
         Batch.Valid, Batch.AccidentAt, DotsMatch, OpsBatch, UnluckyHalves, InitTable, AuditTable;
    var p, r := proof.products, o.mem.rand;
    OpsClaimsTrue(o, proof, evals, x, y, n, d, rowE, colE);
    TrimmedBatch(p.mem, MemoryClaims(p.row, p.col), [], |x|, o.ops.log, o.mem, 0);
    EmptyDots(r[1..]);
    assert Trim(p.mem.dots) == NO_DOTS;
    var b := MemBatch(o, p, d, x, y);
    ProductSoundness.Soundness(b, o.mem);
  }

  /** True products and balanced memories: the claimed values are the dereferenced ones. */
  lemma ValuesAreDerefs(o: Outcome, proof: SparseEvalProof, evals: seq<F>, Ms: seq<Matrix>, d: Dense, x: seq<F>, y: seq<F>,
                        rowE: seq<Table>, colE: seq<Table>, n: nat, b: nat)
    requires Truthful(o, proof, evals, Ms, d, x, y, rowE, colE, n) && b < |Ms|
    requires ProductClaims(proof.products.row, proof.products.col) == ProductsOf(OperationTables(o.k, d, rowE, colE, n))
    requires MemoryClaims(proof.products.row, proof.products.col) == ProductsOf(MemTables(o.k, EqTable(x), EqTable(y), d))
    requires !UnluckyKeys(o.k, EqTable(x), d.row, rowE, n) && !UnluckyKeys(o.k, EqTable(y), d.col, colE, n)
    ensures rowE[b] == Deref(d.row.addr[b], EqTable(x)) && colE[b] == Deref(d.col.addr[b], EqTable(y))
  {
    hide VerifyBatch, HashesMatch, EqTable, Interleave, ProductClaims, MemoryClaims, OperationTables, ProductsOf, EvalsAt, MemTables,
         RowClaims, ColClaims, DotsMatch, HalvesMatch, ProductCheck, Balanced, InitTable, AuditTable, Readings, Writings, Prod, AllAccesses,
         Deref, HonestStamps;
    var p := proof.products;
    ProductsByMemory(o.k, d, x, y, rowE, colE, n, p.row, p.col);
    SetsMatchIsProductCheck(o.k, EqTable(x), d.row, rowE, n, p.row);
    SetsMatchIsProductCheck(o.k, EqTable(y), d.col, colE, n, p.col);
    BalancedMeansDeref(EqTable(x), d.row, rowE, n, b);
    BalancedMeansDeref(EqTable(y), d.col, colE, n, b);
  }

  lemma SoundFrom(o: Outcome, proof: SparseEvalProof, evals: seq<F>, Ms: seq<Matrix>, d: Dense, rx: seq<F>, ry: seq<F>, x: seq<F>,
                  y: seq<F>, rowE: seq<Table>, colE: seq<Table>, n: nat, b: nat)
    requires (x, y) == Equalize(rx, ry) && AllInRange(Ms, Pow2(|rx|), Pow2(|ry|)) && b < |Ms|
    requires Truthful(o, proof, evals, Ms, d, x, y, rowE, colE, n)
    ensures NetworkAccident(o, proof, |evals|, d, x, y, rowE, colE, n) || evals[b] == EvaluateAt(Ms[b], rx, ry)
  {
    hide VerifyBatch, HashesMatch, EqTable, Interleave, ProductClaims, MemoryClaims, OperationTables, ProductsOf, EvalsAt, MemTables,
         RowClaims, ColClaims, DotsMatch, SetsMatch, Deref, Equalize, UnluckyKeys, OpsAccident, MemAccident, DotValue, DotValues, Halves,
         EvaluateAt, RowsOf, ColsOf, ValsOf, Fits, HonestValues, HonestStamps, DotsUniform;
    OpsTrue(o, proof, evals, Ms, d, x, y, rowE, colE, n);
    MemTrue(o, proof, evals, Ms, d, x, y, rowE, colE, n);
    if !NetworkAccident(o, proof, |evals|, d, x, y, rowE, colE, n) {
      ValuesAreDerefs(o, proof, evals, Ms, d, x, y, rowE, colE, n, b);
      DotsOfClaims(d, rowE, colE, n);
      EvalsAreDots(proof.products.left, proof.products.right, evals, DotsOf(rowE, colE, d.val), n, b);
      DotOfMatrix(Ms[b], n, rx, ry);
    }
  }

  // ---- The openings ----

  /** The challenges that combine the values of the derefs, of the operations and of the audits. */
  datatype Joints = Joints(derefs: seq<F>, ops: seq<F>, mem: seq<F>)

  ghost function CombiningPoint(joint: Joint, evals: seq<F>, log: Log): seq<F> {
    Challenges(log + [Scalars(JointEvals(joint), evals)], Combining(joint), Log2(|evals|))
  }

  ghost function KnownLog(v: Option<Log>): Log {
    if v.Some? then v.value else []
  }

  /** These challenges as a function of the proof and what the verifier computed before. */
  ghost function JointsOf(proof: SparseEvalProof, c: Committed, o: Outcome): Joints {
    var h, r := proof.hashes, o.ops.rand;
    var derefs, ops := PadPow2(h.rowDerefs + h.colDerefs), PadPow2(OperationEvals(h));
    var log1 := o.mem.log + [Protocol(HashLayerName), Protocol(DerefsName)];
    var log2 := KnownLog(VerifyJoint(DerefsPoly, proof.derefs, h.openDerefs, derefs, r, log1));
    var log3 := KnownLog(VerifyJoint(OpsPoly, c.ops, h.openOps, ops, r, log2));
    Joints(CombiningPoint(DerefsPoly, derefs, log1), CombiningPoint(OpsPoly, ops, log2),
           CombiningPoint(MemPoly, [h.row.audit, h.col.audit], log3))
  }

  /** The three joint values are true of the tables: the prover's derefs, and the encoded matrices. */
  ghost predicate OpeningsTrue(h: HashLayerProof, d: Dense, rowE: seq<Table>, colE: seq<Table>, o: Outcome, j: Joints) {
    && OpenedTruly(PadPow2(Flat(rowE + colE)), h.rowDerefs + h.colDerefs, j.derefs, o.ops.rand)
    && OpenedTruly(CombOps(d), OperationEvals(h), j.ops, o.ops.rand)
    && OpenedTruly(CombMem(d), [h.row.audit, h.col.audit], j.mem, o.mem.rand)
  }

  ghost function AuditPolys(d: Dense): seq<Table> {
    [OfAll(d.row.audit), OfAll(d.col.audit)]
  }

  /** A wrong list has a right joint value, because of the combining challenges. */
  ghost predicate UnluckyJoints(h: HashLayerProof, d: Dense, rowE: seq<Table>, colE: seq<Table>, o: Outcome, j: Joints) {
    || UnluckyJoint(rowE + colE, h.rowDerefs + h.colDerefs, j.derefs, o.ops.rand)
    || UnluckyJoint(OpsPolys(d), OperationEvals(h), j.ops, o.ops.rand)
    || UnluckyJoint(AuditPolys(d), [h.row.audit, h.col.audit], j.mem, o.mem.rand)
  }

  /** The address and timestamp lists hold one value for each of the m matrices. The source does not check this. */
  predicate WellCut(h: HashLayerProof, m: nat) {
    |h.row.addr| == |h.row.ts| == |h.col.addr| == |h.col.ts| == m
  }

  /** Values beyond the first m are never read. */
  ghost function Cut(proof: SparseEvalProof, m: nat): SparseEvalProof
    requires m <= |proof.hashes.val|
  {
    proof.(hashes := proof.hashes.(val := proof.hashes.val[..m]))
  }

  lemma FiveSlices(a: seq<F>, b: seq<F>, c: seq<F>, d: seq<F>, e: seq<F>, a': seq<F>, b': seq<F>, c': seq<F>, d': seq<F>, e': seq<F>, m: nat)
    requires |a| == |b| == |c| == |d| == m <= |e| && |a'| == |b'| == |c'| == |d'| == |e'| == m
    requires (a + b + c + d + e)[..5 * m] == a' + b' + c' + d' + e'
    ensures a == a' && b == b' && c == c' && d == d' && e[..m] == e'
  {
    var s, t := a + b + c + d + e, a' + b' + c' + d' + e';
    assert s[..5 * m] == a + b + c + d + e[..m];
    assert a == s[..5 * m][..m] && a' == t[..m];
    assert b == s[..5 * m][m..2 * m] && b' == t[m..2 * m];
    assert c == s[..5 * m][2 * m..3 * m] && c' == t[2 * m..3 * m];
    assert d == s[..5 * m][3 * m..4 * m] && d' == t[3 * m..4 * m];
    assert e[..m] == s[..5 * m][4 * m..] && e' == t[4 * m..];
  }

  lemma OperationListsTrue(h: HashLayerProof, d: Dense, m: nat, c: seq<F>, r: seq<F>)
    requires WellCut(h, m) && m <= |h.val| && m >= 1
    requires |d.row.addr| == |d.row.ts| == |d.col.addr| == |d.col.ts| == |d.val| == m
    requires AllSized(OfAlls(d.row.addr), |r|) && AllSized(OfAlls(d.row.ts), |r|)
    requires AllSized(OfAlls(d.col.addr), |r|) && AllSized(OfAlls(d.col.ts), |r|) && AllSized(d.val, |r|)
    requires OpenedTruly(CombOps(d), OperationEvals(h), c, r)
    ensures || UnluckyJoint(OpsPolys(d), OperationEvals(h), c, r)
            || (&& h.row.addr == EvalsAt(OfAlls(d.row.addr), r) && h.row.ts == EvalsAt(OfAlls(d.row.ts), r)
                && h.col.addr == EvalsAt(OfAlls(d.col.addr), r) && h.col.ts == EvalsAt(OfAlls(d.col.ts), r)
                && h.val[..m] == EvalsAt(d.val, r))
  {
    assert |OpsPolys(d)| == 5 * m && |OperationEvals(h)| >= 5 * m;
    hide OpenedTruly, UnluckyJoint, PadPow2, Mle, AllSized, OfAlls, Flat, OpsPolys;
    OpsEvals(d, r);
    JointSoundness(OpsPolys(d), OperationEvals(h), c, r);
    if PadPow2(OperationEvals(h)) == PadPow2(EvalsAt(OpsPolys(d), r)) {
      PaddedPrefix(OperationEvals(h), EvalsAt(OpsPolys(d), r), 5 * m);
      FiveSlices(h.row.addr, h.row.ts, h.col.addr, h.col.ts, h.val,
                 EvalsAt(OfAlls(d.row.addr), r), EvalsAt(OfAlls(d.row.ts), r), EvalsAt(OfAlls(d.col.addr), r),
                 EvalsAt(OfAlls(d.col.ts), r), EvalsAt(d.val, r), m);
    }
  }

  lemma DerefListsTrue(h: HashLayerProof, rowE: seq<Table>, colE: seq<Table>, m: nat, c: seq<F>, r: seq<F>)
    requires |h.rowDerefs| == |h.colDerefs| == |rowE| == |colE| == m >= 1 && AllSized(rowE, |r|) && AllSized(colE, |r|)
    requires OpenedTruly(PadPow2(Flat(rowE + colE)), h.rowDerefs + h.colDerefs, c, r)
    ensures || UnluckyJoint(rowE + colE, h.rowDerefs + h.colDerefs, c, r)
            || (h.rowDerefs == EvalsAt(rowE, r) && h.colDerefs == EvalsAt(colE, r))
  {
    hide OpenedTruly, UnluckyJoint, PadPow2, Mle, AllSized, Flat;
    EvalsAppend(rowE, colE, r);
    var a, b := h.rowDerefs + h.colDerefs, EvalsAt(rowE, r) + EvalsAt(colE, r);
    JointSoundness(rowE + colE, a, c, r);
    if PadPow2(a) == PadPow2(b) {
      PaddedPrefix(a, b, 2 * m);
      assert a[..2 * m] == a && b[..2 * m] == b;
      assert a[..m] == h.rowDerefs && a[m..] == h.colDerefs && b[..m] == EvalsAt(rowE, r) && b[m..] == EvalsAt(colE, r);
    }
  }

  lemma AuditsTrue(h: HashLayerProof, d: Dense, c: seq<F>, r: seq<F>)
    requires |d.row.audit| == |d.col.audit| == Pow2(|r|)
    requires OpenedTruly(CombMem(d), [h.row.audit, h.col.audit], c, r)
    ensures || UnluckyJoint(AuditPolys(d), [h.row.audit, h.col.audit], c, r)
            || (h.row.audit == Mle(OfAll(d.row.audit), r) && h.col.audit == Mle(OfAll(d.col.audit), r))
  {
    hide OpenedTruly, UnluckyJoint, Mle, Flat;
    var A, B, a := OfAll(d.row.audit), OfAll(d.col.audit), [h.row.audit, h.col.audit];
    PairMerged(A, B, r);
    JointSoundness([A, B], a, c, r);
    PadPair(h.row.audit, h.col.audit);
    assert PadPow2(a) == a;
    assert PadPow2(a) == [Mle(A, r), Mle(B, r)] ==> a[0] == Mle(A, r) && a[1] == Mle(B, r);
  }

  lemma PadPair(a: F, b: F)
    ensures PadPow2([a, b]) == [a, b]
  {
    assert Pow2(1) == 2;
    Log2OfPow2(1);
  }

  /** The values behind true joint openings are true, cut where the source cuts them, or there was an accident. */
  lemma ListsTrue(o: Outcome, proof: SparseEvalProof, evals: seq<F>, Ms: seq<Matrix>, d: Dense, x: seq<F>, y: seq<F>,
                  rowE: seq<Table>, colE: seq<Table>, n: nat, j: Joints)
    requires Setting(Ms, d, n, x, y, rowE, colE) && |evals| == |Ms| >= 1
    requires Shows(o, proof, evals, x, y, n) && |o.ops.rand| == n && |o.mem.rand| == |x|
    requires WellCut(proof.hashes, |evals|) && OpeningsTrue(proof.hashes, d, rowE, colE, o, j)
    ensures |evals| <= |proof.hashes.val|
    ensures || UnluckyJoints(proof.hashes, d, rowE, colE, o, j)
            || HonestValues(Cut(proof, |evals|).hashes, d, rowE, colE, o.mem.rand, o.ops.rand)
  {
    hide VerifyBatch, SetsMatch, HashesMatch, HalvesMatch, Interleave, ProductClaims, MemoryClaims, RowClaims, ColClaims,
         OpenedTruly, UnluckyJoint, PadPow2, Mle, Flat, OfAlls, EqTable, CombOps, CombMem, OperationEvals, EvalsAt;
    var h, m, r := proof.hashes, |evals|, o.ops.rand;
    StampsSized(d.row, n, EqTable(x));
    StampsSized(d.col, n, EqTable(y));
    DerefListsTrue(h, rowE, colE, m, j.derefs, r);
    OperationListsTrue(h, d, m, j.ops, r);
    AuditsTrue(h, d, j.mem, o.mem.rand);
  }

  /** Surplus values change nothing of what the verifier checked. */
  lemma CutShows(o: Outcome, proof: SparseEvalProof, evals: seq<F>, x: seq<F>, y: seq<F>, n: nat)
    requires Shows(o, proof, evals, x, y, n)
    ensures |evals| <= |proof.hashes.val| && Shows(o, Cut(proof, |evals|), evals, x, y, n)
  {
    hide VerifyBatch, SetsMatch, HashesMatch, HalvesMatch, Interleave, ProductClaims, MemoryClaims, RowClaims, ColClaims;
  }

  /** Everything that can go wrong. */
  ghost predicate Accident(o: Outcome, proof: SparseEvalProof, m: nat, d: Dense, x: seq<F>, y: seq<F>, rowE: seq<Table>,
                           colE: seq<Table>, n: nat, j: Joints)
  {
    UnluckyJoints(proof.hashes, d, rowE, colE, o, j) || NetworkAccident(o, proof, m, d, x, y, rowE, colE, n)
  }

  /** Soundness of sparse matrix evaluation, for every prover and every transcript. (x, y) are the equalized
      points, o and j what the verifier computed on the way. */
  lemma Soundness(proof: SparseEvalProof, c: Committed, rx: seq<F>, ry: seq<F>, evals: seq<F>, log: Log, Ms: seq<Matrix>, d: Dense,
                  x: seq<F>, y: seq<F>, rowE: seq<Table>, colE: seq<Table>, n: nat, o: Outcome, j: Joints)
    requires (x, y) == Equalize(rx, ry) && o == OutcomeOf(proof, evals, |x|, n, log) && j == JointsOf(proof, c, o)
    requires AllInRange(Ms, Pow2(|rx|), Pow2(|ry|)) && |evals| == |Ms| >= 1 && c.numOps == Pow2(n)
    requires Setting(Ms, d, n, x, y, rowE, colE) && WellCut(proof.hashes, |evals|)
    requires OpeningsTrue(proof.hashes, d, rowE, colE, o, j)
    requires VerifySparseEval(proof, c, rx, ry, evals, log).Some?
    ensures Accident(o, proof, |evals|, d, x, y, rowE, colE, n, j) || evals == MatrixEvals(Ms, rx, ry)
  {
    hide VerifySparseEval, EqTable, EvalsAt, HalvesMatch, Equalize, EvaluateAt, HonestValues, NetworkAccident, OutcomeOf, JointsOf, Setting,
         Truthful, Shows, Pow2, UnluckyJoints, OpeningsTrue;
    Accepted(proof, c, rx, ry, evals, log, n);
    OutcomeSizes(o, proof, evals, x, y, n);
    ListsTrue(o, proof, evals, Ms, d, x, y, rowE, colE, n, j);
    if HonestValues(Cut(proof, |evals|).hashes, d, rowE, colE, o.mem.rand, o.ops.rand) {
      var cut := Cut(proof, |evals|);
      CutShows(o, proof, evals, x, y, n);
      OutcomeIsTruthful(o, cut, evals, Ms, d, x, y, rowE, colE, n);
      forall b | 0 <= b < |Ms|
        ensures NetworkAccident(o, cut, |evals|, d, x, y, rowE, colE, n) || evals[b] == EvaluateAt(Ms[b], rx, ry)
      {
        SoundFrom(o, cut, evals, Ms, d, rx, ry, x, y, rowE, colE, n, b);
      }
      SameAccidents(o, proof, cut, |evals|, d, x, y, rowE, colE, n);
    }
  }

  /** The digests the three openings are checked against belong to the derefs and to the encoded matrices. */
  ghost predicate Bound(proof: SparseEvalProof, c: Committed, d: Dense, rowE: seq<Table>, colE: seq<Table>) {
    BelongsTo(proof.derefs, PadPow2(Flat(rowE + colE))) && BelongsTo(c.ops, CombOps(d)) && BelongsTo(c.mem, CombMem(d))
  }

  lemma JointAccepted(joint: Joint, digest: Digest, opening: Opening, evals: seq<F>, r: seq<F>, log: Log, Z: Table)
    requires VerifyJoint(joint, digest, opening, PadPow2(evals), r, log).Some? && BelongsTo(digest, Z)
    ensures OpenedTruly(Z, evals, CombiningPoint(joint, PadPow2(evals), log), r)
  {
    hide Mle, PadPow2, Log2, Challenges, Squeezes;
  }

  /** Accepted openings of such digests are true. */
  lemma AcceptedOpeningsTrue(proof: SparseEvalProof, c: Committed, d: Dense, rowE: seq<Table>, colE: seq<Table>, o: Outcome)
    requires VerifyOpenings(proof.hashes, c, proof.derefs, o.mem.rand, o.ops.rand, o.mem.log).Some? && Bound(proof, c, d, rowE, colE)
    ensures OpeningsTrue(proof.hashes, d, rowE, colE, o, JointsOf(proof, c, o))
  {
    hide VerifyJoint, BelongsTo, OpenedTruly, PadPow2, CombiningPoint, OperationEvals, CombOps, CombMem, Flat;
    var h, r := proof.hashes, o.ops.rand;
    var log1 := o.mem.log + [Protocol(HashLayerName), Protocol(DerefsName)];
    var log2 := VerifyJoint(DerefsPoly, proof.derefs, h.openDerefs, PadPow2(h.rowDerefs + h.colDerefs), r, log1).value;
    var log3 := VerifyJoint(OpsPoly, c.ops, h.openOps, PadPow2(OperationEvals(h)), r, log2).value;
    PadPair(h.row.audit, h.col.audit);
    JointAccepted(DerefsPoly, proof.derefs, h.openDerefs, h.rowDerefs + h.colDerefs, r, log1, PadPow2(Flat(rowE + colE)));
    JointAccepted(OpsPoly, c.ops, h.openOps, OperationEvals(h), r, log2, CombOps(d));
    JointAccepted(MemPoly, c.mem, h.openMem, [h.row.audit, h.col.audit], o.mem.rand, log3, CombMem(d));
  }

  lemma SameAccidents(o: Outcome, proof: SparseEvalProof, cut: SparseEvalProof, m: nat, d: Dense, x: seq<F>, y: seq<F>,
                      rowE: seq<Table>, colE: seq<Table>, n: nat)
    requires cut.products == proof.products
    ensures NetworkAccident(o, cut, m, d, x, y, rowE, colE, n) == NetworkAccident(o, proof, m, d, x, y, rowE, colE, n)
  {
    hide OpsAccident, MemAccident, UnluckyKeys, EqTable;
  }

  lemma OutcomeSizes(o: Outcome, proof: SparseEvalProof, evals: seq<F>, x: seq<F>, y: seq<F>, n: nat)
    requires Shows(o, proof, evals, x, y, n)
    ensures |o.ops.rand| == n && |o.mem.rand| == |x|
  {
    hide VerifyBatch, HashesMatch, Interleave, ProductClaims, MemoryClaims, RowClaims, ColClaims, DotsMatch, SetsMatch;
    var p := proof.products;
    PointOf(p.ops, ProductClaims(p.row, p.col), Interleave(p.left, p.right, |evals|), n, o.log, o.ops);
    PointOf(p.mem, MemoryClaims(p.row, p.col), [], |x|, o.ops.log, o.mem);
  }

  lemma OutcomeIsTruthful(o: Outcome, proof: SparseEvalProof, evals: seq<F>, Ms: seq<Matrix>, d: Dense, x: seq<F>, y: seq<F>,
                          rowE: seq<Table>, colE: seq<Table>, n: nat)
    requires Setting(Ms, d, n, x, y, rowE, colE) && |evals| == |Ms| >= 1
    requires Shows(o, proof, evals, x, y, n) && HonestValues(proof.hashes, d, rowE, colE, o.mem.rand, o.ops.rand)
    ensures Truthful(o, proof, evals, Ms, d, x, y, rowE, colE, n)
  {
    hide VerifyBatch, HashesMatch, EqTable, Interleave, ProductClaims, MemoryClaims, EvalsAt, RowClaims, ColClaims, DotsMatch, SetsMatch,
         HonestValues, HonestStamps, Pow2;
    OutcomeSizes(o, proof, evals, x, y, n);
    StampsFit(d.row, n, EqTable(x));
    StampsFit(d.col, n, EqTable(y));
  }
}
