/** What the lengths of the opened lists decide (`HashLayerProof::verify_helper` in spartan/src/sparse_mlpoly.rs).

    The helper compares as many hashes as there are addresses in the proof, and the joint opening sees only the
    concatenation of the lists. Nothing fixes where the list of addresses ends. A proof whose row (or column)
    addresses are all moved into the list of timestamps opens like before, but none of its row (or column) reads and
    writes is compared: the verifier then accepts evaluations computed from any values in place of the dereferenced
    rows (or columns). */
module UncheckedLengths {
  import opened Wrappers
  import opened Field
  import opened Vectors
  import opened Powers
  import opened Multilinear
  import opened Transcript
  import opened DensePolynomial
  import opened Merging
  import opened Sumcheck
  import opened Combiners
  import opened ProductCircuit
  import opened ProductArgument
  import opened ProductProver
  import opened SparseMatrix
  import opened MemoryChecking
  import opened Fingerprint
  import opened SparseNetwork
  import opened Commitments
  import opened SparseEvalVerifier
  import opened SparseEvalProver
  import opened JointOpenings
  import opened SparseEvalSoundness

  /** A claimed read or write is checked if and only if its index is below the number of addresses. */
  lemma ComparedIffAddressed(k: Keys, c: Claims, randMem: seq<F>, derefs: seq<F>, v: Values, r: seq<F>, b: nat, x: F)
    requires HashesMatch(k, c, randMem, derefs, v, r) && b < |c.taken| && b < |c.written|
    ensures x != c.taken[b] ==>
              (HashesMatch(k, c.(taken := c.taken[b := x]), randMem, derefs, v, r) <==> b >= |v.addr|)
    ensures x != c.written[b] ==>
              (HashesMatch(k, c.(written := c.written[b := x]), randMem, derefs, v, r) <==> b >= |v.addr|)
  {
    hide Hash, Identity, EqEval;
    if b < |v.addr| {
      assert Hash(k, v.addr[b], derefs[b], v.ts[b]) == c.taken[b];
      assert Hash(k, v.addr[b], derefs[b], Add(v.ts[b], 1)) == c.written[b];
      assert c.taken[b := x][b] == x && c.written[b := x][b] == x;
    }
  }

  lemma HashPinsStamp(k: Keys, a: F, v: F, t: F, u: F)
    ensures Hash(k, a, v, t) == Hash(k, a, v, u) <==> t == u || k.base == 0
  {
    hide Mul, Add, Sub;
    var s, w := Mul(k.base, k.base), Mul(v, k.base);
    if Hash(k, a, v, t) == Hash(k, a, v, u) {
      SubThenAdd(Add(Add(Mul(t, s), w), a), k.point);
      SubThenAdd(Add(Add(Mul(u, s), w), a), k.point);
      AddThenSub(Add(Mul(t, s), w), a);
      AddThenSub(Add(Mul(u, s), w), a);
      AddThenSub(Mul(t, s), w);
      AddThenSub(Mul(u, s), w);
      MulCommutes(t, s);
      MulCommutes(u, s);
      DistributesSub(s, t, u);
      SubIsZero(Mul(s, t), Mul(s, u));
      NoZeroDivisors(s, Sub(t, u));
      SubIsZero(t, u);
      if s == 0 {
        NoZeroDivisors(k.base, k.base);
      }
    }
    if k.base == 0 {
      MulZero(0);
      MulZero(t);
      MulZero(u);
    }
  }

  /** The same addresses and timestamps, cut after the first a values instead. */
  function CutAt(v: Values, a: nat): Values
    requires a <= |v.addr + v.ts|
  {
    Values((v.addr + v.ts)[..a], (v.addr + v.ts)[a..], v.audit)
  }

  /** What an earlier cut does to the checks of one memory. From the new cut on nothing is compared, so the claims and
      the dereferenced values there may be any others. Before it the addresses are the same but the timestamps have
      moved: the checks pass exactly when the values in their places happen to be equal, or the base is 0. With no
      addresses left they always pass. */
  lemma EarlierCutPasses(k: Keys, c: Claims, c': Claims, randMem: seq<F>, derefs: seq<F>, derefs': seq<F>, v: Values, r: seq<F>, a: nat)
    requires HashesMatch(k, c, randMem, derefs, v, r) && |v.addr| == |v.ts| && a <= |v.addr|
    requires a <= |derefs'| && derefs'[..a] == derefs[..a] && c'.init == c.init && c'.audit == c.audit
    requires a <= |c'.taken| && a <= |c'.written| && c'.taken[..a] == c.taken[..a] && c'.written[..a] == c.written[..a]
    ensures HashesMatch(k, c', randMem, derefs', CutAt(v, a), r)
       <==> k.base == 0 || forall b :: 0 <= b < a ==> CutAt(v, a).ts[b] == v.ts[b]
  {
    hide Hash, Identity, EqEval, Add;
    var w := CutAt(v, a);
    forall b | 0 <= b < a
      ensures derefs'[b] == derefs[b] && c'.taken[b] == c.taken[b] && c'.written[b] == c.written[b] && w.addr[b] == v.addr[b]
      ensures Hash(k, w.addr[b], derefs'[b], w.ts[b]) == c'.taken[b] <==> w.ts[b] == v.ts[b] || k.base == 0
      ensures w.ts[b] == v.ts[b] || k.base == 0 ==> Hash(k, w.addr[b], derefs'[b], Add(w.ts[b], 1)) == c'.written[b]
    {
      assert derefs'[..a][b] == derefs[..a][b] && c'.taken[..a][b] == c.taken[..a][b] && c'.written[..a][b] == c.written[..a][b];
      HashPinsStamp(k, v.addr[b], derefs[b], w.ts[b], v.ts[b]);
      HashPinsStamp(k, v.addr[b], derefs[b], Add(w.ts[b], 1), Add(v.ts[b], 1));
    }
  }

  /** Which of the two memories lose their addresses. */
  datatype Cuts = Cuts(rows: bool, cols: bool)

  /** The same values with the row addresses, the column addresses or both moved into the timestamps. */
  function Recut(h: HashLayerProof, cut: Cuts): HashLayerProof {
    h.(row := if cut.rows then CutAt(h.row, 0) else h.row, col := if cut.cols then CutAt(h.col, 0) else h.col)
  }

  lemma RecutOpensAlike(h: HashLayerProof, cut: Cuts)
    ensures OperationEvals(Recut(h, cut)) == OperationEvals(h)
  {
    RestOfCut(h.row);
    RestOfCut(h.col);
  }

  lemma RestOfCut(v: Values)
    ensures CutAt(v, 0) == Values([], v.addr + v.ts, v.audit)
  {
  }

  /** The inputs of the network prover, except that the tables on a side without addresses may be any. */
  ghost predicate AnyTables(cut: Cuts, d: Dense, x: seq<F>, y: seq<F>, rows: seq<Table>, cols: seq<Table>, evals: seq<F>, n: nat) {
    && n >= 1 && |x| == |y| >= 1 && |evals| >= 1
    && HonestDense(d, |evals|, n, |x|)
    && Fits(d.row, EqTable(x)) && Fits(d.col, EqTable(y))
    && (!cut.rows ==> rows == DerefAll(d.row.addr, EqTable(x)))
    && (!cut.cols ==> cols == DerefAll(d.col.addr, EqTable(y)))
    && |rows| == |cols| == |evals| && AllSized(rows, n) && AllSized(cols, n)
    && EvalsOfDots(DotsOf(rows, cols, d.val), n, evals)
  }

  /** Without addresses the check of a memory compares its initial and its final state only. */
  lemma NoAddressesNoComparison(k: Keys, c: Claims, randMem: seq<F>, derefs: seq<F>, ts: seq<F>, s: Stamped, r: seq<F>)
    requires |r| == |randMem| && |s.audit| == Pow2(|r|)
    requires c.init == Mle(InitTable(k, EqTable(r)), randMem) && c.audit == Mle(AuditTable(k, EqTable(r), s.audit), randMem)
    ensures HashesMatch(k, c, randMem, derefs, Values([], ts, Mle(OfAll(s.audit), randMem)), r)
  {
    hide Mle, Hash, EqTable, Identity, EqEval, InitTable, AuditTable;
    MemoryHashes(k, r, s.audit, randMem);
  }

  /** The checks of one memory pass, for honest tables or without addresses. */
  lemma CutHashesMatch(cut: bool, k: Keys, s: Stamped, r: seq<F>, v: ProductLayerResult, c: Claims, Ts: seq<Table>)
    requires |r| == |v.randMem| && HonestStamps(s, |v.randOps|, Pow2(|r|)) && Fits(s, EqTable(r)) && AllSized(Ts, |v.randOps|)
    requires AllSized(OfAlls(s.addr), |v.randOps|) && AllSized(OfAlls(s.ts), |v.randOps|) && |s.audit| == Pow2(|v.randMem|)
    requires c.init == Mle(InitTable(k, EqTable(r)), v.randMem) && c.audit == Mle(AuditTable(k, EqTable(r), s.audit), v.randMem)
    requires ValuesAt(c.taken, ReadTables(k, EqTable(r), s), v.randOps)
    requires ValuesAt(c.written, WriteTables(k, EqTable(r), s), v.randOps)
    requires !cut ==> Ts == DerefAll(s.addr, EqTable(r))
    ensures var w := ValuesOf(s, v.randMem, v.randOps);
            HashesMatch(k, c, v.randMem, EvalsAt(Ts, v.randOps), if cut then CutAt(w, 0) else w, r)
  {
    hide EqTable, HonestStamps, HashesMatch, EvalsAt, ValuesAt, DerefAll, InitTable, AuditTable, ReadTables, WriteTables, Mle, AllSized, Fits,
         CutAt, OfAlls;
    if cut {
      var w := ValuesOf(s, v.randMem, v.randOps);
      RestOfCut(w);
      NoAddressesNoComparison(k, c, v.randMem, EvalsAt(Ts, v.randOps), w.addr + w.ts, s, r);
    } else {
      HonestHashesMatch(k, s, r, v.randMem, v.randOps, c);
    }
  }

  /** All checks of the hash layer pass, although the tables are not what the memories hold. */
  lemma RecutPasses(cut: Cuts, p: HashLayerProof, v: ProductLayerResult, k: Keys, x: seq<F>, y: seq<F>, d: Dense, rows: seq<Table>, cols: seq<Table>,
                    evals: seq<F>, n: nat)
    requires AnyTables(cut, d, x, y, rows, cols, evals, n)
    requires LeftForHashing(v, k, EqTable(x), EqTable(y), d, DotsOf(rows, cols, d.val), n, |x|)
    requires HonestValues(p, d, rows, cols, v.randMem, v.randOps)
    ensures var m, h := |evals|, Recut(p, cut);
            && |v.mem| == 4 && |v.ops| == 4 * m && |v.dots| == 3 * m
            && DotsMatch(v.dots, h.rowDerefs, h.colDerefs, h.val)
            && HashesMatch(k, RowClaims(v, m), v.randMem, h.rowDerefs, h.row, x)
            && HashesMatch(k, ColClaims(v, m), v.randMem, h.colDerefs, h.col, y)
  {
    hide EqTable, HonestStamps, HashesMatch, DotsMatch, DotEvals, EvalsAt, ValuesAt, DerefAll, InitTable, AuditTable,
         ReadTables, WriteTables, Mle, OpsTables, MemTables, AllSized, Fits, EvalsOfDots, CutAt;
    var X, Y, m := EqTable(x), EqTable(y), |evals|;
    var ds := DotsOf(rows, cols, d.val);
    ClaimsByMemory(v, k, X, Y, d, ds, m, n, |x|);
    MemoryClaimsAt(v, k, X, Y, d, ds, m, n, |x|);
    DotCount(v.dots, ds, v.randOps);
    HonestDotsMatch(v.dots, rows, cols, d.val, v.randOps);
    CutHashesMatch(cut.rows, k, d.row, x, v, RowClaims(v, m), rows);
    CutHashesMatch(cut.cols, k, d.col, y, v, ColClaims(v, m), cols);
  }

  /** The network proof with any tables and recut values: accepted, and everything opened is true. */
  method ProveRecut(cut: Cuts, d: Dense, x: seq<F>, y: seq<F>, X: Table, Y: Table, rows: seq<Table>, cols: seq<Table>, merged: Table, c: Committed,
                    ops: Table, mem: Table, k: Keys, evals: seq<F>, ghost n: nat, transcript: Transcript)
    returns (products: ProductLayerProof, hashes: HashLayerProof, ghost v: ProductLayerResult)
    requires AnyTables(cut, d, x, y, rows, cols, evals, n) && X == EqTable(x) && Y == EqTable(y)
    requires merged == PadPow2(Flat(rows + cols)) && ops == CombOps(d) && mem == CombMem(d)
    requires c == Committed(Pow2(n), Pow2(|x|), PCS.commit(ops), PCS.commit(mem))
    modifies transcript
    ensures VerifyNetwork(SparseEvalProof(PCS.commit(merged), products, hashes), c, evals, x, y, k, old(transcript.log))
         == Some(transcript.log)
    ensures VerifyProductLayer(products, Pow2(n), Pow2(|x|), evals, old(transcript.log) + [Protocol(SparseEvalName)]) == Some(v)
    ensures TrueLists(hashes, d, rows, cols, v.randMem, v.randOps)
    ensures (cut.rows ==> hashes.row.addr == []) && (cut.cols ==> hashes.col.addr == [])
  {
    hide EqTable, HonestStamps, Fits, EvalsOfDots, DerefAll, VerifyProductLayer, VerifyOpenings, Log2, NextPow2,
         CombOps, CombMem, DotsMatch, HashesMatch, RowClaims, ColClaims, LeftForHashing, HonestValues, TrueLists, PadPow2, AllSized, Recut;
    transcript.Append(Protocol(SparseEvalName));
    Log2OfPow2(n);
    var randMem, randOps, ds := [], [], DotsOf(rows, cols, d.val);
    products, randMem, randOps, v := ProveProductLayer(d, X, Y, k, ds, evals, Log2(c.numOps), |x|, transcript);
    PointSizes(v, k, X, Y, d, ds, n, |x|);
    var p := EvaluateDense(d, rows, cols, X, randMem, randOps);
    RecutLists(cut, p, d, rows, cols, randMem, randOps);
    hashes := OpenAll(Recut(p, cut), d, rows, cols, merged, ops, mem, randMem, randOps, transcript);
    RecutPasses(cut, p, v, k, x, y, d, rows, cols, evals, n);
    SameLists(cut, p, hashes, d, rows, cols, randMem, randOps);
  }

  lemma RecutLists(cut: Cuts, p: HashLayerProof, d: Dense, rows: seq<Table>, cols: seq<Table>, randMem: seq<F>, randOps: seq<F>)
    requires HonestValues(p, d, rows, cols, randMem, randOps)
    ensures TrueLists(Recut(p, cut), d, rows, cols, randMem, randOps)
  {
    hide HonestValues, OperationEvals, EvalsAt, AllSized, Mle;
    HonestLists(p, d, rows, cols, randMem, randOps);
    RecutOpensAlike(p, cut);
  }

  lemma SameLists(cut: Cuts, p: HashLayerProof, q: HashLayerProof, d: Dense, rows: seq<Table>, cols: seq<Table>, randMem: seq<F>,
                  randOps: seq<F>)
    requires TrueLists(Recut(p, cut), d, rows, cols, randMem, randOps)
    requires q == Recut(p, cut).(openDerefs := q.openDerefs, openOps := q.openOps, openMem := q.openMem)
    ensures TrueLists(q, d, rows, cols, randMem, randOps)
    ensures q.row == Recut(p, cut).row && q.col == Recut(p, cut).col && q.val == p.val
    ensures q.rowDerefs == p.rowDerefs && q.colDerefs == p.colDerefs
    ensures (cut.rows ==> q.row.addr == []) && (cut.cols ==> q.col.addr == [])
  {
    hide EvalsAt, AllSized, Mle;
    RestOfCut(p.row);
    RestOfCut(p.col);
    SameOperations(Recut(p, cut), q);
  }

  lemma PaddedLog(k: nat)
    ensures Log2(NextPow2(k)) == Log2(k)
  {
    hide Log2, NextPow2;
    NextPow2IsLeast(k);
    Log2OfPow2(Log2(k));
  }

  /** True lists have true joint values, wherever they are cut. */
  lemma TrueListsOpenTruly(h: HashLayerProof, d: Dense, rows: seq<Table>, cols: seq<Table>, o: Outcome, j: Joints)
    requires |rows| >= 1 && |d.val| >= 1 && TrueLists(h, d, rows, cols, o.mem.rand, o.ops.rand)
    requires |j.derefs| == Log2(|PadPow2(h.rowDerefs + h.colDerefs)|) && |j.ops| == Log2(|PadPow2(OperationEvals(h))|) && |j.mem| == Log2(2)
    ensures OpeningsTrue(h, d, rows, cols, o, j)
  {
    assert OpsPolys(d) != [];
    hide OpenedTruly, EvalsAt, AllSized, Mle, PadPow2, Flat, Log2, NextPow2, OpsPolys, OperationEvals;
    var A, B, r := OfAll(d.row.audit), OfAll(d.col.audit), o.mem.rand;
    PaddedLog(|rows + cols|);
    PaddedLog(|OpsPolys(d)|);
    TrueListOpensTruly(rows + cols, j.derefs, o.ops.rand);
    TrueListOpensTruly(OpsPolys(d), j.ops, o.ops.rand);
    PairMerged(A, B, r);
    assert EvalsAt([A, B], r) == [h.row.audit, h.col.audit] by {
      PairEvals(A, B, r);
    }
    TrueListOpensTruly([A, B], j.mem, r);
  }

  lemma PairEvals(A: Table, B: Table, r: seq<F>)
    requires |A| == |B| == Pow2(|r|) && AllSized([A, B], |r|)
    ensures EvalsAt([A, B], r) == [Mle(A, r), Mle(B, r)]
  {
    hide Mle;
  }

  lemma PointsOfOutcome(proof: SparseEvalProof, evals: seq<F>, cells: nat, n: nat, log: Log, v: ProductLayerResult)
    requires VerifyProductLayer(proof.products, Pow2(n), Pow2(cells), evals,
                                log + SparseEvalLog(proof) + Squeezes(HashChallenge, 2) + [Protocol(SparseEvalName)]) == Some(v)
    ensures var o := OutcomeOf(proof, evals, cells, n, log);
            o.mem.rand == v.randMem && o.ops.rand == v.randOps
  {
    hide VerifyBatch, SetsMatch, Interleave, ProductClaims, MemoryClaims, ProductLayerLog, Challenges, Squeezes, Log2, Pow2;
    Log2OfPow2(n);
    Log2OfPow2(cells);
  }

  /** For any row tables, any column tables or any tables at all there is a proof that the verifier accepts, whatever
      the challenges, for the evaluations computed with these tables in place of the dereferenced ones. Every joint
      value opened is true of the encoded matrices and of the committed tables; only the addresses are not where the
      source puts them. */
  method AcceptsAnyTables(cut: Cuts, ghost Ms: seq<Matrix>, d: Dense, c: Committed, ops: Table, mem: Table, rx: seq<F>, ry: seq<F>,
                          rows: seq<Table>, cols: seq<Table>, evals: seq<F>, ghost n: nat, transcript: Transcript)
    returns (proof: SparseEvalProof)
    requires Ms != [] && |evals| == |Ms| && DenseOf(d, Ms, n, |Equalize(rx, ry).0|)
    requires var (x, y) := Equalize(rx, ry); AnyTables(cut, d, x, y, rows, cols, evals, n)
    requires ops == CombOps(d) && mem == CombMem(d)
    requires c == Committed(Pow2(n), Pow2(|Equalize(rx, ry).0|), PCS.commit(ops), PCS.commit(mem))
    modifies transcript
    ensures VerifySparseEval(proof, c, rx, ry, evals, old(transcript.log)) == Some(transcript.log)
    ensures var o := OutcomeOf(proof, evals, |Equalize(rx, ry).0|, n, old(transcript.log));
            OpeningsTrue(proof.hashes, d, rows, cols, o, JointsOf(proof, c, o))
    ensures cut.rows || cut.cols ==> !WellCut(proof.hashes, |evals|)
  {
    hide Challenges, Squeezes, CombOps, CombMem, VerifyNetwork, VerifyProductLayer, EvalsOfDots, EqTable, PadPow2, Pow2, HonestStamps,
         TrueLists, OperationEvals, OutcomeOf, OpeningsTrue, JointsOf, Log2, DotsOf, Equalize, AllSized, Fits, DerefAll, AnyTables;
    var (x, y) := Equalize(rx, ry);
    var X := EqEvals(x);
    var Y := EqEvals(y);
    TableCounts(cut, d, x, y, rows, cols, evals, n);
    var merged := Merge(rows + cols);
    var derefs := PCS.commit(merged);
    transcript.Append(Protocol(SparseEvalName));
    transcript.Append(Commitment(CommitDerefs, derefs));
    ghost var log1 := transcript.log;
    var cs := transcript.ChallengeVector(HashChallenge, 2);
    var products, hashes;
    ghost var v;
    products, hashes, v := ProveRecut(cut, d, x, y, X, Y, rows, cols, merged, c, ops, mem, Keys(cs[0], cs[1]), evals, n, transcript);
    proof := SparseEvalProof(derefs, products, hashes);
    assert log1 == old(transcript.log) + SparseEvalLog(proof);
    RecutOpeningsTrue(proof, c, d, rows, cols, evals, |x|, n, old(transcript.log), v);
  }

  lemma TableCounts(cut: Cuts, d: Dense, x: seq<F>, y: seq<F>, rows: seq<Table>, cols: seq<Table>, evals: seq<F>, n: nat)
    requires AnyTables(cut, d, x, y, rows, cols, evals, n)
    ensures |rows| == |cols| == |d.val| == |evals| >= 1
  {
  }

  lemma RecutOpeningsTrue(proof: SparseEvalProof, c: Committed, d: Dense, rows: seq<Table>, cols: seq<Table>, evals: seq<F>, cells: nat,
                          n: nat, log: Log, v: ProductLayerResult)
    requires VerifyProductLayer(proof.products, Pow2(n), Pow2(cells), evals,
                                log + SparseEvalLog(proof) + Squeezes(HashChallenge, 2) + [Protocol(SparseEvalName)]) == Some(v)
    requires TrueLists(proof.hashes, d, rows, cols, v.randMem, v.randOps) && |rows| >= 1 && |d.val| >= 1
    ensures var o := OutcomeOf(proof, evals, cells, n, log);
            OpeningsTrue(proof.hashes, d, rows, cols, o, JointsOf(proof, c, o))
  {
    hide VerifyProductLayer, TrueLists, OutcomeOf, OpeningsTrue, VerifyJoint, OperationEvals, PadPow2, Challenges, Squeezes, Pow2, Log2;
    PointsOfOutcome(proof, evals, cells, n, log, v);
    var o := OutcomeOf(proof, evals, cells, n, log);
    TrueListsOpenTruly(proof.hashes, d, rows, cols, o, JointsOf(proof, c, o));
  }

  lemma ZeroRowDot(B: Table, C: Table, n: nat)
    requires |B| == |C| == Pow2(n)
    ensures DotValue(DotCircuit(Zeros(Pow2(n)), B, C), n) == 0
  {
    hide Dot;
    var Z := Zeros(Pow2(n));
    HypercubeDot(Z, B, C, n);
    forall i | 0 <= i < |Z|
      ensures Hadamard(Z, B)[i] == Z[i]
    {
      MulZero(B[i]);
    }
    assert Hadamard(Z, B) == Z;
    DotZeros(Pow2(n), C);
  }

  /** Zero rows give the value 0 for every matrix. */
  lemma ZeroRowsGiveZero(d: Dense, cols: seq<Table>, n: nat)
    requires |cols| == |d.val| && AllSized(cols, n) && AllSized(d.val, n)
    ensures EvalsOfDots(DotsOf(seq<Table>(|d.val|, _ => Zeros(Pow2(n))), cols, d.val), n, Zeros(|d.val|))
  {
    hide DotValue;
    forall b | 0 <= b < |d.val|
      ensures DotValue(DotCircuit(Zeros(Pow2(n)), cols[b], d.val[b]), n) == 0
    {
      ZeroRowDot(cols[b], d.val[b], n);
    }
  }

  ghost predicate Encodes(c: Committed, d: Dense, Ms: seq<Matrix>, n: nat, cells: nat) {
    DenseOf(d, Ms, n, cells) && c == Committed(Pow2(n), Pow2(cells), PCS.commit(CombOps(d)), PCS.commit(CombMem(d)))
  }

  /** The matrices encoded as the source does it. */
  method EncodeBatch(Ms: seq<Matrix>, cells: nat) returns (c: Committed, d: Dense, ops: Table, mem: Table, ghost n: nat)
    requires Ms != [] && AllInRange(Ms, Pow2(cells), Pow2(cells)) && exists b :: 0 <= b < |Ms| && |Ms[b]| >= 2
    ensures n >= 1 && Encodes(c, d, Ms, n, cells) && ops == CombOps(d) && mem == CombMem(d)
  {
    hide CombOps, CombMem, DenseOf;
    var N;
    N, n := SparseEvalProver.NumOps(Ms);
    d := BuildDense(Ms, N, n, cells, Pow2(cells));
    c, ops, mem := CommitDense(d, N, Pow2(cells));
  }

  lemma LargerRange(Ms: seq<Matrix>, rows: nat, cols: nat, cells: nat)
    requires AllInRange(Ms, Pow2(rows), Pow2(cols)) && rows <= cells && cols <= cells
    ensures AllInRange(Ms, Pow2(cells), Pow2(cells))
  {
    hide Pow2;
    if rows < cells {
      Pow2Monotone(rows, cells);
    }
    if cols < cells {
      Pow2Monotone(cols, cells);
    }
  }

  lemma ZeroTables(d: Dense, Ms: seq<Matrix>, x: seq<F>, y: seq<F>, X: Table, Y: Table, rows: seq<Table>, n: nat)
    requires Ms != [] && n >= 1 && |x| == |y| >= 1 && DenseOf(d, Ms, n, |x|) && X == EqTable(x) && Y == EqTable(y)
    requires rows == seq<Table>(|Ms|, _ => Zeros(Pow2(n)))
    ensures Fits(d.col, Y) && AnyTables(Cuts(true, false), d, x, y, rows, DerefAll(d.col.addr, Y), Zeros(|Ms|), n)
  {
    hide HonestStamps, Fits, DerefAll, EqTable, EvalsOfDots, Pow2;
    DenseSized(d, n, X, Y);
    ZeroRowsGiveZero(d, DerefAll(d.col.addr, Y), n);
  }

  /** Whatever the matrices and the point, the verifier can be made to accept 0 as the value of all of them. */
  method AcceptsZero(Ms: seq<Matrix>, rx: seq<F>, ry: seq<F>, transcript: Transcript)
    returns (c: Committed, proof: SparseEvalProof, ghost d: Dense, ghost n: nat)
    requires Ms != [] && AllInRange(Ms, Pow2(|rx|), Pow2(|ry|)) && (rx != [] || ry != [])
    requires exists b :: 0 <= b < |Ms| && |Ms[b]| >= 2
    modifies transcript
    ensures Encodes(c, d, Ms, n, |Equalize(rx, ry).0|)
    ensures VerifySparseEval(proof, c, rx, ry, Zeros(|Ms|), old(transcript.log)) == Some(transcript.log)
  {
    hide CombOps, CombMem, DenseOf, AllInRange, AnyTables, EqTable, VerifySparseEval, OpeningsTrue, Pow2, Log2, Equalize, DerefAll;
    var (x, y) := Equalize(rx, ry);
    LargerRange(Ms, |rx|, |ry|, |x|);
    var dense, ops, mem;
    c, dense, ops, mem, n := EncodeBatch(Ms, |x|);
    d := dense;
    var X := EqEvals(x);
    var Y := EqEvals(y);
    var rows := seq<Table>(|Ms|, _ => Zeros(c.numOps));
    ZeroTables(dense, Ms, x, y, X, Y, rows, n);
    proof := AcceptsAnyTables(Cuts(true, false), Ms, dense, c, ops, mem, rx, ry, rows, DerefAll(dense.col.addr, Y), Zeros(|Ms|), n,
                              transcript);
  }

  /** A matrix of two entries, a 1 at the top left. */
  const UNIT: Matrix := [Entry(0, 0, 1), Entry(1, 1, 0)]

  lemma UnitIsOne()
    ensures AllInRange([UNIT], Pow2(1), Pow2(1)) && MatrixEvals([UNIT], [0], [0]) == [1]
  {
    assert Pow2(0) == 1 && Pow2(1) == 2;
    var x := EqTable([0]);
    OneAtZero();
    var first := [Entry(0, 0, 1)];
    assert UNIT[..1] == first && first[..0] == [];
    MulOne(1);
    AddZero(1);
    MulZero(Mul(x[1], x[1]));
    assert Form(first, x, x) == 1;
    assert Form(UNIT, x, x) == 1;
  }

  lemma OneAtZero()
    ensures |EqTable([0])| == 2 && EqTable([0])[0] == 1
  {
    assert Pow2(0) == 1 && Pow2(1) == 2;
    EqTableEmpty();
    EqTableEntry([0], 0, false);
    SubZero(1);
    MulOne(1);
  }

  /** The concrete failure: a matrix whose value at the origin is 1, and an accepted proof that it is 0. */
  method AcceptsWrongValue(transcript: Transcript) returns (c: Committed, proof: SparseEvalProof, ghost d: Dense, ghost n: nat)
    modifies transcript
    ensures AllInRange([UNIT], Pow2(1), Pow2(1)) && MatrixEvals([UNIT], [0], [0]) == [1] && Encodes(c, d, [UNIT], n, 1)
    ensures VerifySparseEval(proof, c, [0], [0], [0], old(transcript.log)) == Some(transcript.log)
  {
    hide AllInRange, MatrixEvals, Encodes, VerifySparseEval, Pow2;
    UnitIsOne();
    assert |[UNIT][0]| >= 2;
    c, proof, d, n := AcceptsZero([UNIT], [0], [0], transcript);
    assert Zeros(1) == [0];
  }
}
