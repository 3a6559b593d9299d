/** The verifier of sparse matrix evaluation proofs (`SparseMatPolyEvalProof::verify`,
    `PolyEvalNetworkProof::verify`, `ProductLayerProof::verify` and `HashLayerProof::verify` in
    spartan/src/sparse_mlpoly.rs). A failed assertion or opening is a None result. */
module SparseEvalVerifier {
  import opened Wrappers
  import opened Field
  import opened Vectors
  import opened Powers
  import opened Multilinear
  import opened Transcript
  import opened DensePolynomial
  import opened Merging
  import opened ProductArgument
  import opened Commitments
  import opened Fingerprint
  import opened SparseNetwork

  // ---- The product layer ----

  /** The claimed products of one memory, or the claims about its tables after the product argument. */
  datatype Claims = Claims(init: F, taken: seq<F>, written: seq<F>, audit: F)

  datatype ProductLayerProof = ProductLayerProof(
    row: Claims, col: Claims, left: seq<F>, right: seq<F>, mem: BatchProof, ops: BatchProof)

  /** The subset check of one memory. */
  predicate SetsMatch(c: Claims, instances: nat) {
    && |c.written| == instances && |c.taken| == instances
    && Mul(c.init, Prod(c.written)) == Mul(Prod(c.taken), c.audit)
  }

  function ClaimsLog(side: Side, c: Claims): Log {
    [Scalar(InitClaim(side), c.init), Scalars(ReadClaim(side), c.taken), Scalars(WriteClaim(side), c.written),
     Scalar(AuditClaim(side), c.audit)]
  }

  /** The halves of every dot product add up to the claimed evaluation. */
  predicate HalvesMatch(left: seq<F>, right: seq<F>, evals: seq<F>) {
    && |left| == |evals| <= |right|
    && forall i :: 0 <= i < |evals| ==> Add(left[i], right[i]) == evals[i]
  }

  function HalvesLog(left: seq<F>, right: seq<F>, k: nat): Log
    requires k <= |left| && k <= |right|
  {
    if k == 0 then []
    else HalvesLog(left, right, k - 1) + [Scalar(DotHalfLeft, left[k - 1]), Scalar(DotHalfRight, right[k - 1])]
  }

  function Interleave<T>(left: seq<T>, right: seq<T>, k: nat): (s: seq<T>)
    requires k <= |left| && k <= |right|
    ensures |s| == 2 * k
  {
    if k == 0 then [] else Interleave(left, right, k - 1) + [left[k - 1], right[k - 1]]
  }

  function ProductClaims(row: Claims, col: Claims): seq<F> {
    row.taken + row.written + col.taken + col.written
  }

  function MemoryClaims(row: Claims, col: Claims): seq<F> {
    [row.init, row.audit, col.init, col.audit]
  }

  function ProductLayerLog(proof: ProductLayerProof, instances: nat): Log
    requires instances <= |proof.left| && instances <= |proof.right|
  {
    [Protocol(ProductLayerName)] + ClaimsLog(RowSide, proof.row) + ClaimsLog(ColSide, proof.col)
    + HalvesLog(proof.left, proof.right, instances)
  }

  datatype ProductLayerResult = ProductLayerResult(
    mem: seq<F>, randMem: seq<F>, ops: seq<F>, dots: seq<F>, randOps: seq<F>, log: Log)

  function VerifyProductLayer(proof: ProductLayerProof, numOps: nat, numCells: nat, evals: seq<F>, log: Log)
    : Option<ProductLayerResult>
  {
    var n := |evals|;
    if !SetsMatch(proof.row, n) || !SetsMatch(proof.col, n) || !HalvesMatch(proof.left, proof.right, evals) then None
    else
      match VerifyBatch(proof.ops, ProductClaims(proof.row, proof.col), Interleave(proof.left, proof.right, n),
                        Log2(numOps), log + ProductLayerLog(proof, n))
      case None => None
      case Some(v) =>
        match VerifyBatch(proof.mem, MemoryClaims(proof.row, proof.col), [], Log2(numCells), v.log)
        case None => None
        case Some(w) => Some(ProductLayerResult(w.claims, w.rand, v.claims, v.dots, v.rand, w.log))
  }

  // ---- Opening many evaluations through one ----

  function Combining(joint: Joint): Tag {
    if joint == MemPoly then CombineTwoToOne else CombineNToOne
  }

  /** The n-to-1 reduction and the opening that follows it; evals has a power-of-two length. */
  function VerifyJoint(joint: Joint, c: Digest, opening: Opening, evals: seq<F>, r: seq<F>, log: Log): Option<Log> {
    var k := Log2(|evals|);
    if |evals| != Pow2(k) then None
    else
      var log1 := log + [Scalars(JointEvals(joint), evals)];
      var cs := Challenges(log1, Combining(joint), k);
      var v := Mle(evals, cs);
      PCS.verify(c, opening, cs + r, v, log1 + Squeezes(Combining(joint), k) + [Scalar(JointClaim(joint), v)])
  }

  // ---- The hash layer ----

  /** The claimed values of the address and timestamp tables of one memory. */
  datatype Values = Values(addr: seq<F>, ts: seq<F>, audit: F)

  datatype HashLayerProof = HashLayerProof(
    row: Values, col: Values, val: seq<F>, rowDerefs: seq<F>, colDerefs: seq<F>,
    openOps: Opening, openMem: Opening, openDerefs: Opening)

  /** The dot-product claims are the opened values. */
  predicate DotsMatch(dots: seq<F>, row: seq<F>, col: seq<F>, val: seq<F>) {
    && |dots| == 3 * |row| && |row| == |col| <= |val|
    && forall i :: 0 <= i < |row| ==> dots[3 * i] == row[i] && dots[3 * i + 1] == col[i] && dots[3 * i + 2] == val[i]
  }

  /** `verify_helper`: the claims about the hashed tables are the hashes of the opened values. */
  predicate HashesMatch(k: Keys, c: Claims, randMem: seq<F>, derefs: seq<F>, v: Values, r: seq<F>) {
    && |r| == |randMem| && |v.addr| <= |derefs| && |v.addr| <= |v.ts|
    && |v.addr| <= |c.taken| && |v.addr| <= |c.written|
    && Hash(k, Identity(randMem), EqEval(r, randMem), 0) == c.init
    && (forall i :: 0 <= i < |v.addr| ==> Hash(k, v.addr[i], derefs[i], v.ts[i]) == c.taken[i])
    && (forall i :: 0 <= i < |v.addr| ==> Hash(k, v.addr[i], derefs[i], Add(v.ts[i], 1)) == c.written[i])
    && Hash(k, Identity(randMem), EqEval(r, randMem), v.audit) == c.audit
  }

  function OperationEvals(p: HashLayerProof): seq<F> {
    p.row.addr + p.row.ts + p.col.addr + p.col.ts + p.val
  }

  /** What the verifier holds about the matrices: sizes and commitments. */
  datatype Committed = Committed(numOps: nat, numCells: nat, ops: Digest, mem: Digest)

  /** The three openings of the hash layer. */
  function VerifyOpenings(p: HashLayerProof, c: Committed, derefs: Digest, randMem: seq<F>, randOps: seq<F>, log: Log)
    : Option<Log>
  {
    match VerifyJoint(DerefsPoly, derefs, p.openDerefs, PadPow2(p.rowDerefs + p.colDerefs), randOps,
                      log + [Protocol(HashLayerName), Protocol(DerefsName)])
    case None => None
    case Some(log1) =>
      match VerifyJoint(OpsPoly, c.ops, p.openOps, PadPow2(OperationEvals(p)), randOps, log1)
      case None => None
      case Some(log2) => VerifyJoint(MemPoly, c.mem, p.openMem, [p.row.audit, p.col.audit], randMem, log2)
  }

  function VerifyHashLayer(p: HashLayerProof, c: Committed, derefs: Digest, row: Claims, col: Claims, dots: seq<F>,
                           randMem: seq<F>, randOps: seq<F>, rx: seq<F>, ry: seq<F>, k: Keys, log: Log)
    : Option<Log>
  {
    match VerifyOpenings(p, c, derefs, randMem, randOps, log)
    case None => None
    case Some(log') =>
      if && DotsMatch(dots, p.rowDerefs, p.colDerefs, p.val)
         && HashesMatch(k, row, randMem, p.rowDerefs, p.row, rx)
         && HashesMatch(k, col, randMem, p.colDerefs, p.col, ry)
      then Some(log')
      else None
  }

  // ---- The whole proof ----

  datatype SparseEvalProof = SparseEvalProof(derefs: Digest, products: ProductLayerProof, hashes: HashLayerProof)

  /** The claims of the product argument, regrouped by memory. */
  function RowClaims(v: ProductLayerResult, n: nat): Claims
    requires |v.mem| == 4 && |v.ops| == 4 * n
  {
    Claims(v.mem[0], v.ops[..n], v.ops[n..2 * n], v.mem[1])
  }

  function ColClaims(v: ProductLayerResult, n: nat): Claims
    requires |v.mem| == 4 && |v.ops| == 4 * n
  {
    Claims(v.mem[2], v.ops[2 * n..3 * n], v.ops[3 * n..], v.mem[3])
  }

  function VerifyNetwork(proof: SparseEvalProof, c: Committed, evals: seq<F>, rx: seq<F>, ry: seq<F>, k: Keys, log: Log)
    : Option<Log>
  {
    var n := |evals|;
    match VerifyProductLayer(proof.products, NextPow2(c.numOps), Pow2(|rx|), evals, log + [Protocol(SparseEvalName)])
    case None => None
    case Some(v) =>
      if |v.mem| != 4 || |v.ops| != 4 * n || |v.dots| != 3 * n then None
      else
        VerifyHashLayer(proof.hashes, c, proof.derefs, RowClaims(v, n), ColClaims(v, n), v.dots,
                        v.randMem, v.randOps, rx, ry, k, v.log)
  }

  function SparseEvalLog(proof: SparseEvalProof): Log {
    [Protocol(SparseEvalName), Commitment(CommitDerefs, proof.derefs)]
  }

  /** The keys of the memory check, from the transcript that holds the commitment to the derefs. */
  function KeysOf(log: Log): Keys {
    var cs := Challenges(log, HashChallenge, 2);
    Keys(cs[0], cs[1])
  }

  function VerifySparseEval(proof: SparseEvalProof, c: Committed, rx: seq<F>, ry: seq<F>, evals: seq<F>, log: Log)
    : Option<Log>
  {
    var (x, y) := Equalize(rx, ry);
    var log1 := log + SparseEvalLog(proof);
    if Pow2(|x|) != c.numCells then None
    else VerifyNetwork(proof, c, evals, x, y, KeysOf(log1), log1 + Squeezes(HashChallenge, 2))
  }

  // ---- The verifier as it runs ----

  method Product(v: seq<F>) returns (p: F)
    ensures p == Prod(v)
  {
    p := 1;
    for i := 0 to |v|
      invariant p == Prod(v[..i])
    {
      assert v[..i + 1][..i] == v[..i];
      p := Mul(p, v[i]);
    }
    assert v[..|v|] == v;
  }

  method CheckSets(c: Claims, instances: nat) returns (ok: bool)
    ensures ok == SetsMatch(c, instances)
  {
    var w := Product(c.written);
    var t := Product(c.taken);
    ok := |c.written| == instances && |c.taken| == instances && Mul(c.init, w) == Mul(t, c.audit);
  }

  method AppendClaimsOf(side: Side, c: Claims, transcript: Transcript)
    modifies transcript
    ensures transcript.log == old(transcript.log) + ClaimsLog(side, c)
  {
    transcript.Append(Scalar(InitClaim(side), c.init));
    transcript.Append(Scalars(ReadClaim(side), c.taken));
    transcript.Append(Scalars(WriteClaim(side), c.written));
    transcript.Append(Scalar(AuditClaim(side), c.audit));
  }

  method AppendHalves(left: seq<F>, right: seq<F>, k: nat, transcript: Transcript)
    requires k <= |left| && k <= |right|
    modifies transcript
    ensures transcript.log == old(transcript.log) + HalvesLog(left, right, k)
  {
    for i := 0 to k
      invariant transcript.log == old(transcript.log) + HalvesLog(left, right, i)
    {
      transcript.Append(Scalar(DotHalfLeft, left[i]));
      transcript.Append(Scalar(DotHalfRight, right[i]));
    }
  }

  /** Everything the product layer appends before the product arguments. */
  method AppendProductLayer(proof: ProductLayerProof, instances: nat, transcript: Transcript)
    requires instances <= |proof.left| && instances <= |proof.right|
    modifies transcript
    ensures transcript.log == old(transcript.log) + ProductLayerLog(proof, instances)
  {
    hide ClaimsLog, HalvesLog;
    transcript.Append(Protocol(ProductLayerName));
    AppendClaimsOf(RowSide, proof.row, transcript);
    AppendClaimsOf(ColSide, proof.col, transcript);
    AppendHalves(proof.left, proof.right, instances, transcript);
  }

  /** `ProductLayerProof::verify`. */
  method VerifyProductLayerProof(proof: ProductLayerProof, numOps: nat, numCells: nat, evals: seq<F>, transcript: Transcript)
    returns (result: Option<ProductLayerResult>)
    modifies transcript
    ensures result == VerifyProductLayer(proof, numOps, numCells, evals, old(transcript.log))
    ensures result.Some? ==> transcript.log == result.value.log
  {
    hide SetsMatch, ProductLayerLog, VerifyBatch, ProductClaims, Log2;
    var n := |evals|;
    var ok := CheckSets(proof.row, n);
    if !ok {
      return None;
    }
    ok := CheckSets(proof.col, n);
    if !ok || !HalvesMatch(proof.left, proof.right, evals) {
      return None;
    }
    AppendProductLayer(proof, n, transcript);
    var dots := Interleave(proof.left, proof.right, n);
    var v := VerifyBatchProof(proof.ops, ProductClaims(proof.row, proof.col), dots, numOps, transcript);
    if v == None {
      return None;
    }
    var w := VerifyBatchProof(proof.mem, MemoryClaims(proof.row, proof.col), [], numCells, transcript);
    if w == None {
      return None;
    }
    result := Some(ProductLayerResult(w.value.0, w.value.2, v.value.0, v.value.1, v.value.2, transcript.log));
  }

  /** `verify_single` of the derefs, and the same steps for the two other merged polynomials. */
  method VerifyJointProof(joint: Joint, c: Digest, opening: Opening, evals: seq<F>, r: seq<F>, transcript: Transcript)
    returns (ok: bool)
    modifies transcript
    ensures match VerifyJoint(joint, c, opening, evals, r, old(transcript.log))
            case None => !ok
            case Some(log) => ok && transcript.log == log
  {
    hide Mle, Challenges, Squeezes, Log2;
    var k := Log2(|evals|);
    if |evals| != Pow2(k) {
      return false;
    }
    transcript.Append(Scalars(JointEvals(joint), evals));
    var cs := transcript.ChallengeVector(Combining(joint), k);
    var v := BindReverse(evals, cs);
    transcript.Append(Scalar(JointClaim(joint), v));
    ok := Check(c, opening, cs + r, v, transcript);
  }

  /** `verify_helper`. */
  method CheckHashes(k: Keys, c: Claims, randMem: seq<F>, derefs: seq<F>, v: Values, r: seq<F>) returns (ok: bool)
    ensures ok == HashesMatch(k, c, randMem, derefs, v, r)
  {
    hide Hash, Identity, EqEval;
    if |r| != |randMem| || |v.addr| > |derefs| || |v.addr| > |v.ts| || |v.addr| > |c.taken| || |v.addr| > |c.written| {
      return false;
    }
    var addr, val := Identity(randMem), EqEval(r, randMem);
    if Hash(k, addr, val, 0) != c.init {
      return false;
    }
    for i := 0 to |v.addr|
      invariant forall j :: 0 <= j < i ==> Hash(k, v.addr[j], derefs[j], v.ts[j]) == c.taken[j]
    {
      if Hash(k, v.addr[i], derefs[i], v.ts[i]) != c.taken[i] {
        return false;
      }
    }
    for i := 0 to |v.addr|
      invariant forall j :: 0 <= j < i ==> Hash(k, v.addr[j], derefs[j], Add(v.ts[j], 1)) == c.written[j]
    {
      if Hash(k, v.addr[i], derefs[i], Add(v.ts[i], 1)) != c.written[i] {
        return false;
      }
    }
    ok := Hash(k, addr, val, v.audit) == c.audit;
  }

  /** The openings of `HashLayerProof::verify`. */
  method VerifyOpeningProofs(p: HashLayerProof, c: Committed, derefs: Digest, randMem: seq<F>, randOps: seq<F>,
                             transcript: Transcript)
    returns (ok: bool)
    modifies transcript
    ensures match VerifyOpenings(p, c, derefs, randMem, randOps, old(transcript.log))
            case None => !ok
            case Some(log) => ok && transcript.log == log
  {
    hide VerifyJoint, PadPow2, OperationEvals;
    transcript.Append(Protocol(HashLayerName));
    transcript.Append(Protocol(DerefsName));
    assert transcript.log == old(transcript.log) + [Protocol(HashLayerName), Protocol(DerefsName)];
    ok := VerifyJointProof(DerefsPoly, derefs, p.openDerefs, PadPow2(p.rowDerefs + p.colDerefs), randOps, transcript);
    if ok {
      ok := VerifyJointProof(OpsPoly, c.ops, p.openOps, PadPow2(OperationEvals(p)), randOps, transcript);
    }
    if ok {
      ok := VerifyJointProof(MemPoly, c.mem, p.openMem, [p.row.audit, p.col.audit], randMem, transcript);
    }
  }

  /** `SparseMatPolyEvalProof::verify`. */
  method VerifySparseEvalProof(proof: SparseEvalProof, c: Committed, rx: seq<F>, ry: seq<F>, evals: seq<F>,
                               transcript: Transcript)
    returns (ok: bool)
    modifies transcript
    ensures match VerifySparseEval(proof, c, rx, ry, evals, old(transcript.log))
            case None => !ok
            case Some(log) => ok && transcript.log == log
  {
    hide VerifyProductLayer, VerifyOpenings, HashesMatch, DotsMatch, Challenges, Squeezes, Equalize, RowClaims, ColClaims,
         NextPow2, Pow2;
    var (x, y) := Equalize(rx, ry);
    if Pow2(|x|) != c.numCells {
      return false;
    }
    transcript.Append(Protocol(SparseEvalName));
    transcript.Append(Commitment(CommitDerefs, proof.derefs));
    assert transcript.log == old(transcript.log) + SparseEvalLog(proof);
    var cs := transcript.ChallengeVector(HashChallenge, 2);
    var k := Keys(cs[0], cs[1]);
    transcript.Append(Protocol(SparseEvalName));
    var n := |evals|;
    var v := VerifyProductLayerProof(proof.products, NextPow2(c.numOps), Pow2(|x|), evals, transcript);
    if v == None || |v.value.mem| != 4 || |v.value.ops| != 4 * n || |v.value.dots| != 3 * n {
      return false;
    }
    var row, col, p := RowClaims(v.value, n), ColClaims(v.value, n), proof.hashes;
    ok := VerifyOpeningProofs(p, c, proof.derefs, v.value.randMem, v.value.randOps, transcript);
    if ok {
      ok := DotsMatch(v.value.dots, p.rowDerefs, p.colDerefs, p.val);
    }
    if ok {
      ok := CheckHashes(k, row, v.value.randMem, p.rowDerefs, p.row, x);
    }
    if ok {
      ok := CheckHashes(k, col, v.value.randMem, p.colDerefs, p.col, y);
    }
  }
}
