/** The prover of sparse matrix evaluation proofs (`SparseMatPolyEvalProof::prove` and the proofs below
    it in spartan/src/sparse_mlpoly.rs) and its completeness. */
module SparseEvalProver {
  import opened Wrappers
  import opened Field
  import opened Vectors
  import opened Powers
  import opened Multilinear
  import opened Transcript
  import opened DensePolynomial
  import opened Merging
  import opened Sumcheck
  import opened Combiners
  import opened ProductCircuit
  import opened ProductArgument
  import opened ProductProver
  import opened SparseMatrix
  import opened MemoryChecking
  import opened Fingerprint
  import opened SparseNetwork
  import opened Commitments
  import opened SparseEvalVerifier

  // ---- The dense form of a batch ----

  /** `AddrTimestamps`: the addresses of every instance, their read timestamps, and the audit. */
  datatype Stamped = Stamped(addr: seq<seq<nat>>, ts: seq<seq<nat>>, audit: seq<nat>)

  datatype Dense = Dense(row: Stamped, col: Stamped, val: seq<Table>)

  /** Honest timestamps for a batch of instances of 2^n operations on the given number of cells. */
  ghost predicate HonestStamps(s: Stamped, n: nat, cells: nat) {
    && |s.addr| == |s.ts|
    && (forall b :: 0 <= b < |s.addr| ==> |s.addr[b]| == |s.ts[b]| == Pow2(n) && Addresses(s.addr[b], cells))
    && Flat(s.ts) == Stamps(Flat(s.addr))
    && s.audit == Counts(Flat(s.addr), cells)
  }

  ghost predicate HonestDense(d: Dense, batch: nat, n: nat, c: nat) {
    && HonestStamps(d.row, n, Pow2(c)) && HonestStamps(d.col, n, Pow2(c))
    && |d.row.addr| == |d.col.addr| == |d.val| == batch
    && AllSized(d.val, n)
  }

  function OfAlls(ss: seq<seq<nat>>): (Ts: seq<Table>)
    ensures |Ts| == |ss|
    ensures forall b :: 0 <= b < |ss| ==> Ts[b] == OfAll(ss[b])
  {
    seq<Table>(|ss|, b requires 0 <= b < |ss| => OfAll(ss[b]))
  }

  function DerefAll(ss: seq<seq<nat>>, mem: Table): (Ts: seq<Table>)
    requires forall b :: 0 <= b < |ss| ==> Addresses(ss[b], |mem|)
    ensures |Ts| == |ss|
    ensures forall b :: 0 <= b < |ss| ==> Ts[b] == Deref(ss[b], mem)
  {
    seq<Table>(|ss|, b requires 0 <= b < |ss| => Deref(ss[b], mem))
  }

  /** The polynomials merged into `comb_ops`. */
  function OpsPolys(d: Dense): seq<Table> {
    OfAlls(d.row.addr) + OfAlls(d.row.ts) + OfAlls(d.col.addr) + OfAlls(d.col.ts) + d.val
  }

  ghost function CombOps(d: Dense): Table {
    PadPow2(Flat(OpsPolys(d)))
  }

  ghost function CombMem(d: Dense): Table {
    OfAll(d.row.audit) + OfAll(d.col.audit)
  }

  // ---- n-to-1 openings ----

  /** Opening a merged polynomial at the combination of its parts' values. */
  method ProveJoint(joint: Joint, Z: Table, ghost ps: seq<Table>, evals: seq<F>, r: seq<F>, transcript: Transcript)
    returns (opening: Opening)
    requires ps != [] && AllSized(ps, |r|) && Z == PadPow2(Flat(ps)) && evals == PadPow2(EvalsAt(ps, r))
    modifies transcript
    ensures VerifyJoint(joint, PCS.commit(Z), opening, evals, r, old(transcript.log)) == Some(transcript.log)
  {
    hide Mle, Challenges, Squeezes, Log2, Flat, PadPow2, EvalsAt;
    NextPow2IsLeast(|ps|);
    var k := Log2(|evals|);
    Log2OfPow2(Log2(|ps|));
    transcript.Append(Scalars(JointEvals(joint), evals));
    var cs := transcript.ChallengeVector(Combining(joint), k);
    var v := BindReverse(evals, cs);
    transcript.Append(Scalar(JointClaim(joint), v));
    MergedAt(ps, cs, r);
    HonestOpening(Z, cs + r, transcript.log);
    opening := Open(Z, cs + r, v, transcript);
  }

  lemma PairMerged(a: Table, b: Table, r: seq<F>)
    requires |a| == |b| == Pow2(|r|)
    ensures AllSized([a, b], |r|)
    ensures PadPow2(Flat([a, b])) == a + b
    ensures PadPow2(EvalsAt([a, b], r)) == [Mle(a, r), Mle(b, r)]
  {
    hide Mle, Log2, NextPow2;
    Log2OfPow2(|r| + 1);
    Log2OfPow2(1);
    assert |a + b| == Pow2(|r| + 1) && Pow2(1) == 2;
    hide Pow2;
    FlatTwo(a, b);
    assert EvalsAt([a, b], r) == [Mle(a, r), Mle(b, r)];
  }

  lemma FlatTwo(a: Table, b: Table)
    ensures Flat([a, b]) == a + b
  {
    assert [a, b][..1] == [a];
    FlatOne([a]);
  }

  // ---- The product layer ----

  ghost predicate Fits(s: Stamped, mem: Table) {
    |s.addr| == |s.ts| && |s.audit| == |mem|
    && forall b :: 0 <= b < |s.addr| ==> Addresses(s.addr[b], |mem|) && |s.ts[b]| == |s.addr[b]|
  }

  function ReadTables(k: Keys, mem: Table, s: Stamped): (Ts: seq<Table>)
    requires Fits(s, mem)
    ensures |Ts| == |s.addr|
    ensures forall b :: 0 <= b < |Ts| ==> Ts[b] == ReadTable(k, mem, s.addr[b], s.ts[b])
  {
    seq<Table>(|s.addr|, b requires 0 <= b < |s.addr| => ReadTable(k, mem, s.addr[b], s.ts[b]))
  }

  function WriteTables(k: Keys, mem: Table, s: Stamped): (Ts: seq<Table>)
    requires Fits(s, mem)
    ensures |Ts| == |s.addr|
    ensures forall b :: 0 <= b < |Ts| ==> Ts[b] == WriteTable(k, mem, s.addr[b], s.ts[b])
  {
    seq<Table>(|s.addr|, b requires 0 <= b < |s.addr| => WriteTable(k, mem, s.addr[b], s.ts[b]))
  }

  /** The products of the tables of one memory. */
  ghost function HonestClaimsOf(k: Keys, mem: Table, s: Stamped): Claims
    requires Fits(s, mem)
  {
    Claims(Prod(InitTable(k, mem)), ProductsOf(ReadTables(k, mem, s)), ProductsOf(WriteTables(k, mem, s)),
           Prod(AuditTable(k, mem, s.audit)))
  }

  lemma StampsFit(s: Stamped, n: nat, mem: Table)
    requires HonestStamps(s, n, |mem|)
    ensures Fits(s, mem) && Batch(mem, s.addr, s.ts)
  {
  }

  lemma HonestSetsMatch(k: Keys, mem: Table, s: Stamped, n: nat)
    requires HonestStamps(s, n, |mem|)
    ensures Fits(s, mem) && SetsMatch(HonestClaimsOf(k, mem, s), |s.addr|)
  {
    hide Prod, InitTable, AuditTable, ReadTable, WriteTable;
    StampsFit(s, n, mem);
    HonestProducts(k, mem, s.addr, s.ts, s.audit, ProductsOf(ReadTables(k, mem, s)), ProductsOf(WriteTables(k, mem, s)));
  }

  method NewCircuits(Vs: seq<Table>, n: nat) returns (circuits: seq<ProductCircuit>)
    requires Uniform(Vs, n) && n >= 1
    ensures CircuitsOf(circuits, Vs, n)
  {
    hide CircuitOf;
    circuits := [];
    for j := 0 to |Vs|
      invariant |circuits| == j && forall i :: 0 <= i < j ==> CircuitOf(circuits[i], Vs[i], n)
    {
      var c := NewCircuit(Vs[j], n);
      circuits := circuits + [c.value];
    }
  }

  /** The two halves of a dot product (`DotProductCircuit::split`). */
  function LeftHalf(d: DotCircuit): DotCircuit {
    DotCircuit(Lo(d.left), Lo(d.right), Lo(d.weight))
  }

  function RightHalf(d: DotCircuit): DotCircuit {
    DotCircuit(Hi(d.left), Hi(d.right), Hi(d.weight))
  }

  function FirstHalves(ds: seq<DotCircuit>): (hs: seq<DotCircuit>)
    ensures |hs| == |ds|
  {
    seq(|ds|, i requires 0 <= i < |ds| => LeftHalf(ds[i]))
  }

  function SecondHalves(ds: seq<DotCircuit>): (hs: seq<DotCircuit>)
    ensures |hs| == |ds|
  {
    seq(|ds|, i requires 0 <= i < |ds| => RightHalf(ds[i]))
  }

  /** The halves of the dot products, in the order in which they are batched. */
  function Halves(ds: seq<DotCircuit>): (hs: seq<DotCircuit>)
    ensures |hs| == 2 * |ds|
  {
    Interleave(FirstHalves(ds), SecondHalves(ds), |ds|)
  }

  lemma {:induction false} InterleaveEntry<T>(a: seq<T>, b: seq<T>, k: nat, i: nat)
    requires i < k <= |a| && k <= |b|
    ensures Interleave(a, b, k)[2 * i] == a[i] && Interleave(a, b, k)[2 * i + 1] == b[i]
  {
    if i < k - 1 {
      InterleaveEntry(a, b, k - 1, i);
    }
  }

  lemma HalvesOfDot(d: DotCircuit, n: nat)
    requires n >= 1 && |d.left| == |d.right| == |d.weight| == Pow2(n)
    ensures DotsUniform([LeftHalf(d), RightHalf(d)], n - 1)
    ensures DotValue(d, n) == Add(DotValue(LeftHalf(d), n - 1), DotValue(RightHalf(d), n - 1))
  {
    var Ts := [d.left, d.right, d.weight];
    assert Los(Ts) == [Lo(d.left), Lo(d.right), Lo(d.weight)];
    assert His(Ts) == [Hi(d.left), Hi(d.right), Hi(d.weight)];
  }

  lemma HalvesUniform(ds: seq<DotCircuit>, n: nat)
    requires n >= 1 && DotsUniform(ds, n)
    ensures DotsUniform(FirstHalves(ds), n - 1) && DotsUniform(SecondHalves(ds), n - 1)
  {
  }

  /** Interleaving values is the same as evaluating the interleaved dot products. */
  lemma {:induction false} InterleavedValues(a: seq<DotCircuit>, b: seq<DotCircuit>, left: seq<F>, right: seq<F>, k: nat, n: nat)
    requires k <= |a| == |b| == |left| == |right| && DotsUniform(a, n) && DotsUniform(b, n)
    requires forall j :: 0 <= j < k ==> left[j] == DotValue(a[j], n)
    requires forall j :: 0 <= j < k ==> right[j] == DotValue(b[j], n)
    ensures DotsUniform(Interleave(a, b, k), n)
    ensures Interleave(left, right, k) == DotValues(Interleave(a, b, k), n)
  {
    hide DotValue;
    if k > 0 {
      InterleavedValues(a, b, left, right, k - 1, n);
    }
  }

  /** The dot products of one batch: dereferenced rows, dereferenced columns, values. */
  function DotsOf(rows: seq<Table>, cols: seq<Table>, vals: seq<Table>): (ds: seq<DotCircuit>)
    requires |rows| == |cols| == |vals|
    ensures |ds| == |vals|
    ensures forall i :: 0 <= i < |ds| ==> ds[i] == DotCircuit(rows[i], cols[i], vals[i])
  {
    seq(|vals|, i requires 0 <= i < |vals| => DotCircuit(rows[i], cols[i], vals[i]))
  }

  /** The claimed evaluations are the values of the dot products. */
  ghost predicate EvalsOfDots(ds: seq<DotCircuit>, n: nat, evals: seq<F>) {
    DotsUniform(ds, n) && |evals| == |ds| && forall i :: 0 <= i < |ds| ==> evals[i] == DotValue(ds[i], n)
  }

  /** Evaluates both halves of every dot product. */
  method EvaluateHalves(ds: seq<DotCircuit>, n: nat, ghost evals: seq<F>) returns (left: seq<F>, right: seq<F>)
    requires n >= 1 && EvalsOfDots(ds, n, evals)
    ensures DotsUniform(Halves(ds), n - 1)
    ensures |left| == |right| == |ds| && HalvesMatch(left, right, evals)
    ensures Interleave(left, right, |ds|) == DotValues(Halves(ds), n - 1)
  {
    hide DotValue, Interleave, LeftHalf, RightHalf, Pow2;
    HalvesUniform(ds, n);
    left, right := [], [];
    for i := 0 to |ds|
      invariant |left| == |right| == i
      invariant forall j :: 0 <= j < i ==> left[j] == DotValue(FirstHalves(ds)[j], n - 1)
      invariant forall j :: 0 <= j < i ==> right[j] == DotValue(SecondHalves(ds)[j], n - 1)
      invariant forall j :: 0 <= j < i ==> Add(left[j], right[j]) == evals[j]
    {
      HalvesOfDot(ds[i], n);
      assert FirstHalves(ds)[i] == LeftHalf(ds[i]) && SecondHalves(ds)[i] == RightHalf(ds[i]);
      var l := EvaluateDot(LeftHalf(ds[i]), n - 1);
      var r := EvaluateDot(RightHalf(ds[i]), n - 1);
      left, right := left + [l], right + [r];
    }
    InterleavedValues(FirstHalves(ds), SecondHalves(ds), left, right, |ds|, n - 1);
  }

  /** The circuits over the hashed tables of one memory (`Layers::new`). */
  datatype Layers = Layers(mem: seq<ProductCircuit>, taken: seq<ProductCircuit>, written: seq<ProductCircuit>)

  ghost predicate LayersOf(l: Layers, k: Keys, mem: Table, s: Stamped, n: nat, c: nat) {
    && Fits(s, mem)
    && CircuitsOf(l.mem, [InitTable(k, mem), AuditTable(k, mem, s.audit)], c)
    && CircuitsOf(l.taken, ReadTables(k, mem, s), n)
    && CircuitsOf(l.written, WriteTables(k, mem, s), n)
  }

  lemma TablesSized(k: Keys, mem: Table, s: Stamped, n: nat, c: nat)
    requires HonestStamps(s, n, |mem|) && |mem| == Pow2(c)
    ensures Fits(s, mem) && |s.audit| == |mem|
    ensures Uniform(ReadTables(k, mem, s), n) && Uniform(WriteTables(k, mem, s), n)
    ensures Uniform([InitTable(k, mem), AuditTable(k, mem, s.audit)], c)
  {
    hide HashTable;
    StampsFit(s, n, mem);
  }

  method NewLayers(k: Keys, mem: Table, s: Stamped, n: nat, c: nat) returns (l: Layers, claims: Claims)
    requires HonestStamps(s, n, |mem|) && |mem| == Pow2(c) && n >= 1 && c >= 1
    ensures LayersOf(l, k, mem, s, n, c)
    ensures claims == HonestClaimsOf(k, mem, s)
  {
    hide HonestStamps, InitTable, AuditTable, ReadTable, WriteTable, Fits, Prod, Uniform, CircuitsOf;
    TablesSized(k, mem, s, n, c);
    var m := NewCircuits([InitTable(k, mem), AuditTable(k, mem, s.audit)], c);
    var t := NewCircuits(ReadTables(k, mem, s), n);
    var w := NewCircuits(WriteTables(k, mem, s), n);
    l := Layers(m, t, w);
    var ms := ProductProver.Evaluations(m, [InitTable(k, mem), AuditTable(k, mem, s.audit)], c);
    var ts := ProductProver.Evaluations(t, ReadTables(k, mem, s), n);
    var ws := ProductProver.Evaluations(w, WriteTables(k, mem, s), n);
    claims := Claims(ms[0], ts, ws, ms[1]);
  }

  ghost function OpsTables(k: Keys, memRow: Table, memCol: Table, d: Dense): seq<Table>
    requires Fits(d.row, memRow) && Fits(d.col, memCol)
  {
    ReadTables(k, memRow, d.row) + WriteTables(k, memRow, d.row) + ReadTables(k, memCol, d.col) + WriteTables(k, memCol, d.col)
  }

  ghost function MemTables(k: Keys, memRow: Table, memCol: Table, d: Dense): seq<Table>
    requires Fits(d.row, memRow) && Fits(d.col, memCol)
  {
    [InitTable(k, memRow), AuditTable(k, memRow, d.row.audit)] + [InitTable(k, memCol), AuditTable(k, memCol, d.col.audit)]
  }

  lemma ProductsAppend(A: seq<Table>, B: seq<Table>)
    ensures ProductsOf(A + B) == ProductsOf(A) + ProductsOf(B)
  {
    hide Prod;
  }

  lemma CircuitsAppend(a: seq<ProductCircuit>, A: seq<Table>, b: seq<ProductCircuit>, B: seq<Table>, n: nat)
    requires CircuitsOf(a, A, n) && CircuitsOf(b, B, n)
    ensures CircuitsOf(a + b, A + B, n)
  {
    hide CircuitOf;
  }

  lemma AllCircuits(k: Keys, memRow: Table, memCol: Table, d: Dense, row: Layers, col: Layers, n: nat, c: nat)
    requires LayersOf(row, k, memRow, d.row, n, c) && LayersOf(col, k, memCol, d.col, n, c)
    ensures CircuitsOf(row.taken + row.written + col.taken + col.written, OpsTables(k, memRow, memCol, d), n)
    ensures CircuitsOf(row.mem + col.mem, MemTables(k, memRow, memCol, d), c)
    ensures ProductClaims(HonestClaimsOf(k, memRow, d.row), HonestClaimsOf(k, memCol, d.col))
         == ProductsOf(OpsTables(k, memRow, memCol, d))
    ensures MemoryClaims(HonestClaimsOf(k, memRow, d.row), HonestClaimsOf(k, memCol, d.col))
         == ProductsOf(MemTables(k, memRow, memCol, d))
  {
    assert |d.row.audit| == |memRow| && |d.col.audit| == |memCol|;
    hide InitTable, AuditTable, ReadTables, WriteTables, Fits, Prod, CircuitsOf;
    var A, B := ReadTables(k, memRow, d.row), WriteTables(k, memRow, d.row);
    var C, D := ReadTables(k, memCol, d.col), WriteTables(k, memCol, d.col);
    CircuitsAppend(row.taken, A, row.written, B, n);
    CircuitsAppend(row.taken + row.written, A + B, col.taken, C, n);
    CircuitsAppend(row.taken + row.written + col.taken, A + B + C, col.written, D, n);
    CircuitsAppend(row.mem, [InitTable(k, memRow), AuditTable(k, memRow, d.row.audit)],
                   col.mem, [InitTable(k, memCol), AuditTable(k, memCol, d.col.audit)], c);
    ProductsAppend(A, B);
    ProductsAppend(A + B, C);
    ProductsAppend(A + B + C, D);
  }

  // ---- The claims after the product argument ----

  /** Entries 3i, 3i+1 and 3i+2 are the values of the three tables of dot product i. */
  ghost predicate DotEval(dots: seq<F>, i: nat, d: DotCircuit, r: seq<F>) {
    && 3 * i + 2 < |dots|
    && |d.left| == |d.right| == |d.weight| == Pow2(|r|)
    && dots[3 * i] == Mle(d.left, r) && dots[3 * i + 1] == Mle(d.right, r) && dots[3 * i + 2] == Mle(d.weight, r)
  }

  ghost predicate DotEvals(dots: seq<F>, ds: seq<DotCircuit>, r: seq<F>) {
    |dots| == 3 * |ds| && forall i :: 0 <= i < |ds| ==> DotEval(dots, i, ds[i], r)
  }

  lemma UnsplitHalves(dots: seq<F>, i: nat, d: DotCircuit, r: seq<F>)
    requires UnsplitDot(dots, i, LeftHalf(d), RightHalf(d), r)
    ensures DotEval(dots, i, d, r)
  {
    hide Mle, Pow2;
    assert Lo(d.left) + Hi(d.left) == d.left;
    assert Lo(d.right) + Hi(d.right) == d.right;
    assert Lo(d.weight) + Hi(d.weight) == d.weight;
  }

  lemma UnsplitAll(dots: seq<F>, ds: seq<DotCircuit>, r: seq<F>)
    requires UnsplitDots(dots, Halves(ds), r)
    ensures DotEvals(dots, ds, r)
  {
    hide UnsplitDot, DotEval, Interleave;
    forall i | 0 <= i < |ds|
      ensures DotEval(dots, i, ds[i], r)
    {
      InterleaveEntry(FirstHalves(ds), SecondHalves(ds), |ds|, i);
      UnsplitHalves(dots, i, ds[i], r);
    }
  }

  /** What the product layer leaves for the hash layer: values of all the tables at two points. */
  ghost predicate LeftForHashing(v: ProductLayerResult, k: Keys, memRow: Table, memCol: Table, d: Dense,
                                 ds: seq<DotCircuit>, n: nat, c: nat)
  {
    && Fits(d.row, memRow) && Fits(d.col, memCol)
    && |v.randOps| == n && |v.randMem| == c
    && ValuesAt(v.ops, OpsTables(k, memRow, memCol, d), v.randOps)
    && ValuesAt(v.mem, MemTables(k, memRow, memCol, d), v.randMem)
    && DotEvals(v.dots, ds, v.randOps)
  }

  /** `ProductLayerProof::prove`: for honest timestamps its own assertions hold, the verifier accepts,
      and the claims left are the true values of the hashed tables. */
  method ProveProductLayer(d: Dense, memRow: Table, memCol: Table, k: Keys, ds: seq<DotCircuit>, evals: seq<F>, n: nat, c: nat,
                           transcript: Transcript)
    returns (proof: ProductLayerProof, randMem: seq<F>, randOps: seq<F>, ghost v: ProductLayerResult)
    requires n >= 1 && c >= 1 && |memRow| == |memCol| == Pow2(c)
    requires HonestDense(d, |evals|, n, c) && EvalsOfDots(ds, n, evals)
    modifies transcript
    ensures VerifyProductLayer(proof, Pow2(n), Pow2(c), evals, old(transcript.log)) == Some(v)
    ensures v.log == transcript.log && v.randMem == randMem && v.randOps == randOps
    ensures LeftForHashing(v, k, memRow, memCol, d, ds, n, c)
  {
    hide HonestStamps, LayersOf, SetsMatch, HonestClaimsOf, ProductLayerLog, VerifyBatch, ValuesAt, DotEvals, ProductsOf,
         DotValues, UnsplitDots, CircuitsOf, OpsTables, MemTables, ProductClaims, MemoryClaims, Halves, Interleave, Log2,
         HalvesMatch, EvalsOfDots, Fits, DotsUniform;
    HonestSetsMatch(k, memRow, d.row, n);
    HonestSetsMatch(k, memCol, d.col, n);
    var rowLayers, row := NewLayers(k, memRow, d.row, n, c);
    var colLayers, col := NewLayers(k, memCol, d.col, n, c);
    AllCircuits(k, memRow, memCol, d, rowLayers, colLayers, n, c);
    var left, right := EvaluateHalves(ds, n, evals);
    SameSize(ds, n, evals);
    proof := ProductLayerProof(row, col, left, right, BatchProof([], NO_DOTS), BatchProof([], NO_DOTS));
    AppendProductLayer(proof, |evals|, transcript);
    ghost var log := transcript.log;
    Log2OfPow2(n);
    Log2OfPow2(c);
    var ops, mem;
    ghost var opsClaims, memClaims, dots, noDots;
    ops, randOps, opsClaims, dots := ProveBatch(rowLayers.taken + rowLayers.written + colLayers.taken + colLayers.written,
                                                OpsTables(k, memRow, memCol, d), Halves(ds), n, transcript);
    NoDotValues(c - 1);
    mem, randMem, memClaims, noDots := ProveBatch(rowLayers.mem + colLayers.mem, MemTables(k, memRow, memCol, d), [], c, transcript);
    UnsplitAll(dots, ds, randOps);
    SameLog(proof, proof.(mem := mem, ops := ops), |evals|);
    proof := proof.(mem := mem, ops := ops);
    v := ProductLayerResult(memClaims, randMem, opsClaims, dots, randOps, transcript.log);
  }

  lemma SameSize(ds: seq<DotCircuit>, n: nat, evals: seq<F>)
    requires EvalsOfDots(ds, n, evals)
    ensures |evals| == |ds|
  {
  }

  lemma SameLog(p: ProductLayerProof, q: ProductLayerProof, instances: nat)
    requires instances <= |p.left| && instances <= |p.right|
    requires p.row == q.row && p.col == q.col && p.left == q.left && p.right == q.right
    ensures ProductLayerLog(p, instances) == ProductLayerLog(q, instances)
  {
  }

  // ---- The hash layer ----

  /** The values of the address and timestamp tables of one memory. */
  ghost function ValuesOf(s: Stamped, randMem: seq<F>, randOps: seq<F>): Values
    requires AllSized(OfAlls(s.addr), |randOps|) && AllSized(OfAlls(s.ts), |randOps|) && |s.audit| == Pow2(|randMem|)
  {
    Values(EvalsAt(OfAlls(s.addr), randOps), EvalsAt(OfAlls(s.ts), randOps), Mle(OfAll(s.audit), randMem))
  }

  lemma MemoryHashes(k: Keys, r: seq<F>, audit: seq<nat>, randMem: seq<F>)
    requires |r| == |randMem| && |audit| == Pow2(|r|)
    ensures Mle(InitTable(k, EqTable(r)), randMem) == Hash(k, Identity(randMem), EqEval(r, randMem), 0)
    ensures Mle(AuditTable(k, EqTable(r), audit), randMem)
         == Hash(k, Identity(randMem), EqEval(r, randMem), Mle(OfAll(audit), randMem))
  {
    hide Mle, Hash, HashTable, EqTable, Identity, EqEval;
    var mem, A := EqTable(r), OfAll(Indices(Pow2(|r|)));
    MleIndices(randMem);
    MleEqTable(r, randMem);
    MleConstant(Zeros(Pow2(|r|)), 0, randMem);
    MleHash(k, A, mem, Zeros(Pow2(|r|)), randMem);
    MleHash(k, A, mem, OfAll(audit), randMem);
  }

  lemma OperationHashes(k: Keys, mem: Table, addr: seq<nat>, ts: seq<nat>, r: seq<F>)
    requires Addresses(addr, |mem|) && |addr| == |ts| == Pow2(|r|)
    ensures Mle(ReadTable(k, mem, addr, ts), r) == Hash(k, Mle(OfAll(addr), r), Mle(Deref(addr, mem), r), Mle(OfAll(ts), r))
    ensures Mle(WriteTable(k, mem, addr, ts), r)
         == Hash(k, Mle(OfAll(addr), r), Mle(Deref(addr, mem), r), Add(Mle(OfAll(ts), r), 1))
  {
    hide Mle, Hash, HashTable;
    MleHash(k, OfAll(addr), Deref(addr, mem), OfAll(ts), r);
    MleHash(k, OfAll(addr), Deref(addr, mem), Next(OfAll(ts)), r);
    MleNext(OfAll(ts), r);
  }

  lemma StampsSized(s: Stamped, n: nat, mem: Table)
    requires HonestStamps(s, n, |mem|)
    ensures AllSized(OfAlls(s.addr), n) && AllSized(OfAlls(s.ts), n) && AllSized(DerefAll(s.addr, mem), n)
    ensures |s.audit| == |mem| && |s.ts| == |s.addr|
  {
  }

  /** All four families of assertions in `verify_helper` hold for honest tables. */
  lemma HonestHashesMatch(k: Keys, s: Stamped, r: seq<F>, randMem: seq<F>, randOps: seq<F>, c: Claims)
    requires HonestStamps(s, |randOps|, Pow2(|r|)) && |r| == |randMem| && Fits(s, EqTable(r))
    requires c.init == Mle(InitTable(k, EqTable(r)), randMem) && c.audit == Mle(AuditTable(k, EqTable(r), s.audit), randMem)
    requires ValuesAt(c.taken, ReadTables(k, EqTable(r), s), randOps)
    requires ValuesAt(c.written, WriteTables(k, EqTable(r), s), randOps)
    ensures AllSized(OfAlls(s.addr), |randOps|) && AllSized(OfAlls(s.ts), |randOps|) && AllSized(DerefAll(s.addr, EqTable(r)), |randOps|)
    ensures HashesMatch(k, c, randMem, EvalsAt(DerefAll(s.addr, EqTable(r)), randOps), ValuesOf(s, randMem, randOps), r)
  {
    hide Mle, Hash, HashTable, EqTable, Identity, EqEval, InitTable, AuditTable, ReadTable, WriteTable;
    StampsSized(s, |randOps|, EqTable(r));
    MemoryHashes(k, r, s.audit, randMem);
    var derefs, v := EvalsAt(DerefAll(s.addr, EqTable(r)), randOps), ValuesOf(s, randMem, randOps);
    forall b | 0 <= b < |s.addr|
      ensures Hash(k, v.addr[b], derefs[b], v.ts[b]) == c.taken[b]
      ensures Hash(k, v.addr[b], derefs[b], Add(v.ts[b], 1)) == c.written[b]
    {
      OperationHashes(k, EqTable(r), s.addr[b], s.ts[b], randOps);
      assert c.taken[b] == Mle(ReadTables(k, EqTable(r), s)[b], randOps);
      assert c.written[b] == Mle(WriteTables(k, EqTable(r), s)[b], randOps);
    }
  }

  method EvaluateAll(Ts: seq<Table>, r: seq<F>) returns (v: seq<F>)
    requires AllSized(Ts, |r|)
    ensures v == EvalsAt(Ts, r)
  {
    hide Mle;
    v := [];
    for i := 0 to |Ts|
      invariant |v| == i && forall j :: 0 <= j < i ==> v[j] == Mle(Ts[j], r)
    {
      var poly := new DensePolynomial(Ts[i]);
      var e := poly.Evaluate(r);
      v := v + [e];
    }
  }

  lemma EvalsAppend(A: seq<Table>, B: seq<Table>, r: seq<F>)
    requires AllSized(A, |r|) && AllSized(B, |r|)
    ensures AllSized(A + B, |r|) && EvalsAt(A + B, r) == EvalsAt(A, r) + EvalsAt(B, r)
  {
    hide Mle;
  }

  /** `prove_helper`. */
  method EvaluateStamped(s: Stamped, ghost mem: Table, randMem: seq<F>, randOps: seq<F>) returns (v: Values)
    requires HonestStamps(s, |randOps|, |mem|) && |mem| == Pow2(|randMem|)
    ensures AllSized(OfAlls(s.addr), |randOps|) && AllSized(OfAlls(s.ts), |randOps|) && |s.audit| == Pow2(|randMem|)
    ensures v == ValuesOf(s, randMem, randOps)
  {
    hide Mle, HonestStamps;
    StampsSized(s, |randOps|, mem);
    var addr := EvaluateAll(OfAlls(s.addr), randOps);
    var ts := EvaluateAll(OfAlls(s.ts), randOps);
    var audit := EvaluateAll([OfAll(s.audit)], randMem);
    v := Values(addr, ts, audit[0]);
  }

  /** What the hash layer opens, before the openings themselves. */
  ghost predicate HonestValues(p: HashLayerProof, d: Dense, rows: seq<Table>, cols: seq<Table>, randMem: seq<F>, randOps: seq<F>)
  {
    && AllSized(OfAlls(d.row.addr), |randOps|) && AllSized(OfAlls(d.row.ts), |randOps|) && |d.row.audit| == Pow2(|randMem|)
    && AllSized(OfAlls(d.col.addr), |randOps|) && AllSized(OfAlls(d.col.ts), |randOps|) && |d.col.audit| == Pow2(|randMem|)
    && AllSized(d.val, |randOps|) && AllSized(rows, |randOps|) && AllSized(cols, |randOps|)
    && p.row == ValuesOf(d.row, randMem, randOps) && p.col == ValuesOf(d.col, randMem, randOps)
    && p.val == EvalsAt(d.val, randOps)
    && p.rowDerefs == EvalsAt(rows, randOps) && p.colDerefs == EvalsAt(cols, randOps)
  }

  /** The lists that are opened hold the true values once they are put one after the other. Where one list ends
      and the next begins is not said: the openings do not see it. */
  ghost predicate TrueLists(p: HashLayerProof, d: Dense, rows: seq<Table>, cols: seq<Table>, randMem: seq<F>, randOps: seq<F>) {
    && AllSized(rows + cols, |randOps|) && p.rowDerefs + p.colDerefs == EvalsAt(rows + cols, randOps)
    && AllSized(OpsPolys(d), |randOps|) && OperationEvals(p) == EvalsAt(OpsPolys(d), randOps)
    && |d.row.audit| == |d.col.audit| == Pow2(|randMem|)
    && p.row.audit == Mle(OfAll(d.row.audit), randMem) && p.col.audit == Mle(OfAll(d.col.audit), randMem)
  }

  lemma OpsEvals(d: Dense, r: seq<F>)
    requires AllSized(OfAlls(d.row.addr), |r|) && AllSized(OfAlls(d.row.ts), |r|)
    requires AllSized(OfAlls(d.col.addr), |r|) && AllSized(OfAlls(d.col.ts), |r|) && AllSized(d.val, |r|)
    ensures AllSized(OpsPolys(d), |r|)
    ensures EvalsAt(OpsPolys(d), r) == EvalsAt(OfAlls(d.row.addr), r) + EvalsAt(OfAlls(d.row.ts), r)
                                       + EvalsAt(OfAlls(d.col.addr), r) + EvalsAt(OfAlls(d.col.ts), r) + EvalsAt(d.val, r)
  {
    hide EvalsAt, AllSized, OfAlls, Mle;
    var A, B, C, D := OfAlls(d.row.addr), OfAlls(d.row.ts), OfAlls(d.col.addr), OfAlls(d.col.ts);
    EvalsAppend(A, B, r);
    EvalsAppend(A + B, C, r);
    EvalsAppend(A + B + C, D, r);
    EvalsAppend(A + B + C + D, d.val, r);
  }

  lemma HonestLists(p: HashLayerProof, d: Dense, rows: seq<Table>, cols: seq<Table>, randMem: seq<F>, randOps: seq<F>)
    requires HonestValues(p, d, rows, cols, randMem, randOps)
    ensures TrueLists(p, d, rows, cols, randMem, randOps)
  {
    hide EvalsAt, AllSized, OfAlls, Mle, OpsPolys;
    OpsEvals(d, randOps);
    EvalsAppend(rows, cols, randOps);
  }

  /** The openings of `HashLayerProof::prove`. */
  method OpenAll(p: HashLayerProof, d: Dense, ghost rows: seq<Table>, ghost cols: seq<Table>, merged: Table, ops: Table,
                 mem: Table, randMem: seq<F>, randOps: seq<F>, transcript: Transcript)
    returns (q: HashLayerProof)
    requires TrueLists(p, d, rows, cols, randMem, randOps) && |rows| == |cols| == |d.val| >= 1
    requires merged == PadPow2(Flat(rows + cols)) && ops == CombOps(d) && mem == CombMem(d)
    modifies transcript
    ensures q == p.(openDerefs := q.openDerefs, openOps := q.openOps, openMem := q.openMem)
    ensures forall c: Committed {:trigger VerifyOpenings(q, c, PCS.commit(merged), randMem, randOps, old(transcript.log))} ::
              c.ops == PCS.commit(ops) && c.mem == PCS.commit(mem) ==>
                VerifyOpenings(q, c, PCS.commit(merged), randMem, randOps, old(transcript.log)) == Some(transcript.log)
  {
    PairMerged(OfAll(d.row.audit), OfAll(d.col.audit), randMem);
    assert OpsPolys(d) != [];
    hide VerifyJoint, PadPow2, OperationEvals, EvalsAt, AllSized, Flat, OpsPolys;
    transcript.Append(Protocol(HashLayerName));
    transcript.Append(Protocol(DerefsName));
    assert transcript.log == old(transcript.log) + [Protocol(HashLayerName), Protocol(DerefsName)];
    var o1 := ProveJoint(DerefsPoly, merged, rows + cols, PadPow2(p.rowDerefs + p.colDerefs), randOps, transcript);
    var o2 := ProveJoint(OpsPoly, ops, OpsPolys(d), PadPow2(OperationEvals(p)), randOps, transcript);
    var o3 := ProveJoint(MemPoly, mem, [OfAll(d.row.audit), OfAll(d.col.audit)], [p.row.audit, p.col.audit], randMem, transcript);
    q := p.(openDerefs := o1, openOps := o2, openMem := o3);
    assert OperationEvals(q) == OperationEvals(p) by {
      SameOperations(p, q);
    }
  }

  lemma SameOperations(p: HashLayerProof, q: HashLayerProof)
    requires p.row == q.row && p.col == q.col && p.val == q.val
    ensures OperationEvals(p) == OperationEvals(q)
  {
  }

  lemma DenseSized(d: Dense, n: nat, memRow: Table, memCol: Table)
    requires |memRow| == |memCol|
    requires HonestStamps(d.row, n, |memRow|) && HonestStamps(d.col, n, |memCol|)
    ensures Fits(d.row, memRow) && Fits(d.col, memCol)
    ensures AllSized(DerefAll(d.row.addr, memRow), n) && AllSized(DerefAll(d.col.addr, memCol), n)
  {
    StampsFit(d.row, n, memRow);
    StampsFit(d.col, n, memCol);
    StampsSized(d.row, n, memRow);
    StampsSized(d.col, n, memCol);
  }

  /** The values that `HashLayerProof::prove` sends. */
  method EvaluateDense(d: Dense, rows: seq<Table>, cols: seq<Table>, ghost mem: Table, randMem: seq<F>, randOps: seq<F>)
    returns (p: HashLayerProof)
    requires HonestStamps(d.row, |randOps|, |mem|) && HonestStamps(d.col, |randOps|, |mem|) && |mem| == Pow2(|randMem|)
    requires AllSized(d.val, |randOps|) && AllSized(rows, |randOps|) && AllSized(cols, |randOps|)
    ensures HonestValues(p, d, rows, cols, randMem, randOps)
  {
    hide HonestStamps, EvalsAt;
    var rowDerefs := EvaluateAll(rows, randOps);
    var colDerefs := EvaluateAll(cols, randOps);
    var row := EvaluateStamped(d.row, mem, randMem, randOps);
    var col := EvaluateStamped(d.col, mem, randMem, randOps);
    var val := EvaluateAll(d.val, randOps);
    p := HashLayerProof(row, col, val, rowDerefs, colDerefs, 0, 0, 0);
  }

  // ---- The checks that follow the openings ----

  lemma FourSlices<T>(a: seq<T>, b: seq<T>, c: seq<T>, d: seq<T>, s: seq<T>, m: nat)
    requires |a| == |b| == |c| == |d| == m && s == a + b + c + d
    ensures s[0..m] == a && s[m..2 * m] == b && s[2 * m..3 * m] == c && s[3 * m..4 * m] == d
  {
  }

  /** The claims regrouped by memory are the values of that memory's tables. */
  lemma ClaimsByMemory(v: ProductLayerResult, k: Keys, memRow: Table, memCol: Table, d: Dense, ds: seq<DotCircuit>,
                       m: nat, n: nat, c: nat)
    requires LeftForHashing(v, k, memRow, memCol, d, ds, n, c) && |d.row.addr| == |d.col.addr| == m
    ensures |v.mem| == 4 && |v.ops| == 4 * m
    ensures ValuesAt(RowClaims(v, m).taken, ReadTables(k, memRow, d.row), v.randOps)
    ensures ValuesAt(RowClaims(v, m).written, WriteTables(k, memRow, d.row), v.randOps)
    ensures ValuesAt(ColClaims(v, m).taken, ReadTables(k, memCol, d.col), v.randOps)
    ensures ValuesAt(ColClaims(v, m).written, WriteTables(k, memCol, d.col), v.randOps)
  {
    hide ReadTable, WriteTable, InitTable, AuditTable, Fits, Mle;
    var A, B := ReadTables(k, memRow, d.row), WriteTables(k, memRow, d.row);
    var C, D := ReadTables(k, memCol, d.col), WriteTables(k, memCol, d.col);
    var Ts := OpsTables(k, memRow, memCol, d);
    assert |v.ops| == |Ts| && |v.mem| == |MemTables(k, memRow, memCol, d)|;
    FourSlices(A, B, C, D, Ts, m);
    hide ValuesAt, ReadTables, WriteTables, OpsTables;
    ValuesSlice(v.ops, Ts, v.randOps, 0, m);
    ValuesSlice(v.ops, Ts, v.randOps, m, 2 * m);
    ValuesSlice(v.ops, Ts, v.randOps, 2 * m, 3 * m);
    ValuesSlice(v.ops, Ts, v.randOps, 3 * m, 4 * m);
    assert v.ops[0..m] == v.ops[..m] && v.ops[3 * m..4 * m] == v.ops[3 * m..];
  }

  lemma MemoryClaimsAt(v: ProductLayerResult, k: Keys, memRow: Table, memCol: Table, d: Dense, ds: seq<DotCircuit>,
                       m: nat, n: nat, c: nat)
    requires LeftForHashing(v, k, memRow, memCol, d, ds, n, c) && |v.mem| == 4 && |v.ops| == 4 * m
    ensures |memRow| == |memCol| == Pow2(|v.randMem|) && |d.row.audit| == |memRow| && |d.col.audit| == |memCol|
    ensures RowClaims(v, m).init == Mle(InitTable(k, memRow), v.randMem)
    ensures RowClaims(v, m).audit == Mle(AuditTable(k, memRow, d.row.audit), v.randMem)
    ensures ColClaims(v, m).init == Mle(InitTable(k, memCol), v.randMem)
    ensures ColClaims(v, m).audit == Mle(AuditTable(k, memCol, d.col.audit), v.randMem)
  {
    hide InitTable, AuditTable, Mle, OpsTables;
    var Ts, r := MemTables(k, memRow, memCol, d), v.randMem;
    assert |Ts[0]| == |Ts[1]| == |Ts[2]| == |Ts[3]| == Pow2(|r|);
    assert v.mem[0] == Mle(Ts[0], r) && v.mem[1] == Mle(Ts[1], r) && v.mem[2] == Mle(Ts[2], r) && v.mem[3] == Mle(Ts[3], r);
  }

  lemma HonestDotsMatch(dots: seq<F>, rows: seq<Table>, cols: seq<Table>, vals: seq<Table>, r: seq<F>)
    requires |rows| == |cols| == |vals| && AllSized(rows, |r|) && AllSized(cols, |r|) && AllSized(vals, |r|)
    requires DotEvals(dots, DotsOf(rows, cols, vals), r)
    ensures DotsMatch(dots, EvalsAt(rows, r), EvalsAt(cols, r), EvalsAt(vals, r))
  {
    hide Mle;
    var ds := DotsOf(rows, cols, vals);
    forall i | 0 <= i < |rows|
      ensures dots[3 * i] == Mle(rows[i], r) && dots[3 * i + 1] == Mle(cols[i], r) && dots[3 * i + 2] == Mle(vals[i], r)
    {
      assert DotEval(dots, i, ds[i], r);
    }
  }

  /** The checks of `HashLayerProof::verify` hold for what the product layer left. */
  lemma HashLayerChecks(p: HashLayerProof, v: ProductLayerResult, k: Keys, x: seq<F>, y: seq<F>, d: Dense, m: nat, n: nat)
    requires |x| == |y| && HonestDense(d, m, n, |x|)
    requires Fits(d.row, EqTable(x)) && Fits(d.col, EqTable(y))
    requires var rows, cols := DerefAll(d.row.addr, EqTable(x)), DerefAll(d.col.addr, EqTable(y));
             && LeftForHashing(v, k, EqTable(x), EqTable(y), d, DotsOf(rows, cols, d.val), n, |x|)
             && HonestValues(p, d, rows, cols, v.randMem, v.randOps)
    ensures |v.mem| == 4 && |v.ops| == 4 * m && |v.dots| == 3 * m
    ensures DotsMatch(v.dots, p.rowDerefs, p.colDerefs, p.val)
    ensures HashesMatch(k, RowClaims(v, m), v.randMem, p.rowDerefs, p.row, x)
    ensures HashesMatch(k, ColClaims(v, m), v.randMem, p.colDerefs, p.col, y)
  {
    hide EqTable, HonestStamps, HashesMatch, DotsMatch, DotEvals, EvalsAt, ValuesAt, DerefAll, InitTable, AuditTable,
         ReadTables, WriteTables, Mle, OpsTables, MemTables, AllSized;
    var X, Y := EqTable(x), EqTable(y);
    var rows, cols := DerefAll(d.row.addr, X), DerefAll(d.col.addr, Y);
    hide Fits;
    var ds := DotsOf(rows, cols, d.val);
    ClaimsByMemory(v, k, X, Y, d, ds, m, n, |x|);
    MemoryClaimsAt(v, k, X, Y, d, ds, m, n, |x|);
    assert |v.dots| == 3 * |ds| by {
      DotCount(v.dots, ds, v.randOps);
    }
    HonestDotsMatch(v.dots, rows, cols, d.val, v.randOps);
    HonestHashesMatch(k, d.row, x, v.randMem, v.randOps, RowClaims(v, m));
    HonestHashesMatch(k, d.col, y, v.randMem, v.randOps, ColClaims(v, m));
  }

  lemma DotCount(dots: seq<F>, ds: seq<DotCircuit>, r: seq<F>)
    requires DotEvals(dots, ds, r)
    ensures |dots| == 3 * |ds|
  {
  }

  // ---- From sparse matrices to an accepted proof ----

  ghost predicate AllInRange(Ms: seq<Matrix>, rows: nat, cols: nat) {
    forall b :: 0 <= b < |Ms| ==> InRange(Ms[b], rows, cols)
  }

  /** The dense form of the matrices, with 2^n operations and 2^c cells. */
  ghost predicate DenseOf(d: Dense, Ms: seq<Matrix>, n: nat, c: nat) {
    && HonestDense(d, |Ms|, n, c)
    && forall b :: 0 <= b < |Ms| ==>
         && |Ms[b]| <= Pow2(n)
         && d.row.addr[b] == RowsOf(Ms[b], Pow2(n)) && d.col.addr[b] == ColsOf(Ms[b], Pow2(n))
         && d.val[b] == ValsOf(Ms[b], Pow2(n))
  }

  /** The number of operations: the least power of two that holds every matrix. */
  method NumOps(Ms: seq<Matrix>) returns (N: nat, ghost n: nat)
    requires Ms != []
    ensures N == Pow2(n) && forall b :: 0 <= b < |Ms| ==> |Ms[b]| <= N
    ensures n == 0 || exists b :: 0 <= b < |Ms| && |Ms[b]| > Pow2(n - 1)
  {
    hide NextPow2, Log2;
    N, n := NextPow2(|Ms[0]|), Log2(|Ms[0]|);
    NextPow2IsLeast(|Ms[0]|);
    for i := 1 to |Ms|
      invariant N == Pow2(n) && forall b :: 0 <= b < i ==> |Ms[b]| <= N
      invariant n == 0 || exists b :: 0 <= b < i && |Ms[b]| > Pow2(n - 1)
    {
      NextPow2IsLeast(|Ms[i]|);
      if NextPow2(|Ms[i]|) > N {
        N, n := NextPow2(|Ms[i]|), Log2(|Ms[i]|);
      }
    }
    Log2OfPow2(n);
    N := NextPow2(N);
  }

  /** The padded index and value vectors of every matrix. */
  method DenseVectors(Ms: seq<Matrix>, N: nat, cells: nat) returns (rows: seq<seq<nat>>, cols: seq<seq<nat>>, vals: seq<Table>)
    requires N >= 1 && cells >= 1
    requires forall b :: 0 <= b < |Ms| ==> |Ms[b]| <= N && InRange(Ms[b], cells, cells)
    ensures |rows| == |cols| == |vals| == |Ms|
    ensures forall i :: 0 <= i < |Ms| ==> rows[i] == RowsOf(Ms[i], N) && Addresses(rows[i], cells)
    ensures forall i :: 0 <= i < |Ms| ==> cols[i] == ColsOf(Ms[i], N) && Addresses(cols[i], cells)
    ensures forall i :: 0 <= i < |Ms| ==> vals[i] == ValsOf(Ms[i], N)
  {
    hide RowsOf, ColsOf, ValsOf, Addresses;
    rows, cols, vals := [], [], [];
    for b := 0 to |Ms|
      invariant |rows| == |cols| == |vals| == b
      invariant forall i :: 0 <= i < b ==> rows[i] == RowsOf(Ms[i], N) && Addresses(rows[i], cells)
      invariant forall i :: 0 <= i < b ==> cols[i] == ColsOf(Ms[i], N) && Addresses(cols[i], cells)
      invariant forall i :: 0 <= i < b ==> vals[i] == ValsOf(Ms[i], N)
    {
      var row, col, val := ToDense(Ms[b], N);
      InRangeAddresses(Ms[b], N, cells, cells);
      rows, cols, vals := rows + [row], cols + [col], vals + [val];
    }
  }

  /** `multi_sparse_to_dense_rep`. */
  method BuildDense(Ms: seq<Matrix>, N: nat, ghost n: nat, ghost c: nat, cells: nat) returns (d: Dense)
    requires N == Pow2(n) && cells == Pow2(c)
    requires forall b :: 0 <= b < |Ms| ==> |Ms[b]| <= N && InRange(Ms[b], cells, cells)
    ensures DenseOf(d, Ms, n, c)
  {
    hide RowsOf, ColsOf, ValsOf, Pow2, Addresses, Stamps, Counts, Flat;
    var rows, cols, vals := DenseVectors(Ms, N, cells);
    var rowTs, rowAudit := StampBatch(cells, rows);
    var colTs, colAudit := StampBatch(cells, cols);
    d := Dense(Stamped(rows, rowTs, rowAudit), Stamped(cols, colTs, colAudit), vals);
  }

  /** `multi_commit`. */
  method CommitDense(d: Dense, N: nat, cells: nat) returns (c: Committed, ops: Table, mem: Table)
    ensures ops == CombOps(d) && mem == CombMem(d)
    ensures c == Committed(N, cells, PCS.commit(ops), PCS.commit(mem))
  {
    ops := Merge(OpsPolys(d));
    mem := OfAll(d.row.audit) + OfAll(d.col.audit);
    c := Committed(N, cells, PCS.commit(ops), PCS.commit(mem));
  }

  lemma DotOfMatrix(M: Matrix, n: nat, rx: seq<F>, ry: seq<F>)
    requires InRange(M, Pow2(|rx|), Pow2(|ry|)) && |M| <= Pow2(n)
    ensures var (x, y) := Equalize(rx, ry);
            && Addresses(RowsOf(M, Pow2(n)), Pow2(|x|)) && Addresses(ColsOf(M, Pow2(n)), Pow2(|y|))
            && var dot := DotCircuit(Deref(RowsOf(M, Pow2(n)), EqTable(x)), Deref(ColsOf(M, Pow2(n)), EqTable(y)), ValsOf(M, Pow2(n)));
               |dot.left| == |dot.right| == |dot.weight| == Pow2(n) && DotValue(dot, n) == EvaluateAt(M, rx, ry)
  {
    DenseEvaluation(M, n, rx, ry);
  }

  /** The values of the matrices at (rx, ry). */
  ghost function MatrixEvals(Ms: seq<Matrix>, rx: seq<F>, ry: seq<F>): (v: seq<F>)
    requires AllInRange(Ms, Pow2(|rx|), Pow2(|ry|))
    ensures |v| == |Ms|
  {
    seq<F>(|Ms|, b requires 0 <= b < |Ms| => EvaluateAt(Ms[b], rx, ry))
  }

  lemma MatrixDots(Ms: seq<Matrix>, d: Dense, n: nat, rx: seq<F>, ry: seq<F>, x: seq<F>, y: seq<F>, ds: seq<DotCircuit>)
    requires (x, y) == Equalize(rx, ry) && AllInRange(Ms, Pow2(|rx|), Pow2(|ry|)) && DenseOf(d, Ms, n, |x|)
    requires Fits(d.row, EqTable(x)) && Fits(d.col, EqTable(y))
    requires ds == DotsOf(DerefAll(d.row.addr, EqTable(x)), DerefAll(d.col.addr, EqTable(y)), d.val)
    ensures EvalsOfDots(ds, n, MatrixEvals(Ms, rx, ry))
  {
    hide EqTable, RowsOf, ColsOf, ValsOf, EvaluateAt, DotValue, HonestStamps, Deref, Equalize;
    forall b | 0 <= b < |Ms|
      ensures |ds[b].left| == |ds[b].right| == |ds[b].weight| == Pow2(n)
      ensures DotValue(ds[b], n) == EvaluateAt(Ms[b], rx, ry)
    {
      DotOfMatrix(Ms[b], n, rx, ry);
    }
  }

  /** Everything the network prover works on: equalized points, the memories, the dereferenced tables. */
  ghost predicate NetworkInputs(d: Dense, x: seq<F>, y: seq<F>, rows: seq<Table>, cols: seq<Table>, ds: seq<DotCircuit>,
                                evals: seq<F>, n: nat)
  {
    && n >= 1 && |x| == |y| >= 1 && |evals| >= 1
    && HonestDense(d, |evals|, n, |x|)
    && Fits(d.row, EqTable(x)) && Fits(d.col, EqTable(y))
    && rows == DerefAll(d.row.addr, EqTable(x)) && cols == DerefAll(d.col.addr, EqTable(y))
    && AllSized(rows, n) && AllSized(cols, n)
    && ds == DotsOf(rows, cols, d.val)
    && EvalsOfDots(ds, n, evals)
  }

  /** `PolyEvalNetworkProof::prove`. */
  method ProveNetwork(d: Dense, x: seq<F>, y: seq<F>, X: Table, Y: Table, rows: seq<Table>, cols: seq<Table>,
                      ds: seq<DotCircuit>, merged: Table, c: Committed, ops: Table, mem: Table, k: Keys, evals: seq<F>,
                      ghost n: nat, transcript: Transcript)
    returns (products: ProductLayerProof, hashes: HashLayerProof)
    requires NetworkInputs(d, x, y, rows, cols, ds, evals, n) && X == EqTable(x) && Y == EqTable(y)
    requires merged == PadPow2(Flat(rows + cols)) && ops == CombOps(d) && mem == CombMem(d)
    requires c == Committed(Pow2(n), Pow2(|x|), PCS.commit(ops), PCS.commit(mem))
    modifies transcript
    ensures VerifyNetwork(SparseEvalProof(PCS.commit(merged), products, hashes), c, evals, x, y, k, old(transcript.log))
         == Some(transcript.log)
  {
    hide EqTable, HonestStamps, Fits, EvalsOfDots, DerefAll, VerifyProductLayer, VerifyOpenings, Log2, NextPow2,
         CombOps, CombMem, DotsMatch, HashesMatch, RowClaims, ColClaims, LeftForHashing, HonestValues, PadPow2, AllSized;
    transcript.Append(Protocol(SparseEvalName));
    Log2OfPow2(n);
    var randMem, randOps;
    ghost var v;
    products, randMem, randOps, v := ProveProductLayer(d, X, Y, k, ds, evals, Log2(c.numOps), |x|, transcript);
    PointSizes(v, k, X, Y, d, ds, n, |x|);
    var p := EvaluateDense(d, rows, cols, X, randMem, randOps);
    HonestLists(p, d, rows, cols, randMem, randOps);
    hashes := OpenAll(p, d, rows, cols, merged, ops, mem, randMem, randOps, transcript);
    SameValues(p, hashes, d, rows, cols, randMem, randOps);
    HashLayerChecks(hashes, v, k, x, y, d, |evals|, n);
  }

  /** The memories for the equalized points and the tables read from them. */
  method Dereference(ghost Ms: seq<Matrix>, d: Dense, rx: seq<F>, ry: seq<F>, ghost evals: seq<F>, ghost n: nat)
    returns (X: Table, Y: Table, rows: seq<Table>, cols: seq<Table>, ds: seq<DotCircuit>)
    requires Ms != [] && AllInRange(Ms, Pow2(|rx|), Pow2(|ry|)) && evals == MatrixEvals(Ms, rx, ry)
    requires n >= 1 && (rx != [] || ry != []) && DenseOf(d, Ms, n, |Equalize(rx, ry).0|)
    ensures var (x, y) := Equalize(rx, ry);
            X == EqTable(x) && Y == EqTable(y) && NetworkInputs(d, x, y, rows, cols, ds, evals, n)
  {
    hide MatrixEvals;
    var (x, y) := Equalize(rx, ry);
    X := EqEvals(x);
    Y := EqEvals(y);
    DenseSized(d, n, X, Y);
    rows, cols := DerefAll(d.row.addr, X), DerefAll(d.col.addr, Y);
    ds := DotsOf(rows, cols, d.val);
    MatrixDots(Ms, d, n, rx, ry, x, y, ds);
  }

  /** Completeness of sparse matrix evaluation. For in-range matrices, at least one of which has two
      entries or more, the verifier accepts the prover's proof of their values at any point (rx, ry),
      whatever the challenges, and ends with the same transcript. */
  method ProveSparseEval(ghost Ms: seq<Matrix>, d: Dense, c: Committed, ops: Table, mem: Table, rx: seq<F>, ry: seq<F>,
                         evals: seq<F>, ghost n: nat, transcript: Transcript)
    returns (proof: SparseEvalProof)
    requires Ms != [] && AllInRange(Ms, Pow2(|rx|), Pow2(|ry|)) && evals == MatrixEvals(Ms, rx, ry)
    requires n >= 1 && (rx != [] || ry != []) && DenseOf(d, Ms, n, |Equalize(rx, ry).0|)
    requires ops == CombOps(d) && mem == CombMem(d)
    requires c == Committed(Pow2(n), Pow2(|Equalize(rx, ry).0|), PCS.commit(ops), PCS.commit(mem))
    modifies transcript
    ensures VerifySparseEval(proof, c, rx, ry, evals, old(transcript.log)) == Some(transcript.log)
  {
    hide Challenges, Squeezes, CombOps, CombMem, VerifyNetwork, MatrixEvals, NetworkInputs, EqTable, PadPow2, Equalize, Pow2,
         AllInRange, DenseOf;
    var X, Y, rows, cols, ds := Dereference(Ms, d, rx, ry, evals, n);
    var merged := Merge(rows + cols);
    var derefs := PCS.commit(merged);
    transcript.Append(Protocol(SparseEvalName));
    transcript.Append(Commitment(CommitDerefs, derefs));
    ghost var log1 := transcript.log;
    var cs := transcript.ChallengeVector(HashChallenge, 2);
    var (x, y) := Equalize(rx, ry);
    var products, hashes := ProveNetwork(d, x, y, X, Y, rows, cols, ds, merged, c, ops, mem, Keys(cs[0], cs[1]), evals, n, transcript);
    proof := SparseEvalProof(derefs, products, hashes);
    assert log1 == old(transcript.log) + SparseEvalLog(proof);
  }

  lemma PointSizes(v: ProductLayerResult, k: Keys, memRow: Table, memCol: Table, d: Dense, ds: seq<DotCircuit>, n: nat, c: nat)
    requires LeftForHashing(v, k, memRow, memCol, d, ds, n, c)
    ensures |v.randOps| == n && |v.randMem| == c
  {
  }

  lemma SameValues(p: HashLayerProof, q: HashLayerProof, d: Dense, rows: seq<Table>, cols: seq<Table>, randMem: seq<F>, randOps: seq<F>)
    requires HonestValues(p, d, rows, cols, randMem, randOps)
    requires q == p.(openDerefs := q.openDerefs, openOps := q.openOps, openMem := q.openMem)
    ensures HonestValues(q, d, rows, cols, randMem, randOps)
  {
  }
}
